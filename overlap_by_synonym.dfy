/** The overlap of the predictions of the synonyms of one category: each
    synonym's predicted spans, pooled across documents, compared pairwise with
    `compute_jaccard` into a square matrix. */
module OverlapBySynonym {
  import opened Spans
  import opened Utils
  import opened Corpus

  /** `extract_spans(debug_data, code, synonym)`: the spans under
      `code__synonym`, grouped by `text_id`. */
  method ExtractSpans(debug: DebugData, code: string, synonym: string) returns (m: map<string, set<Span>>)
    ensures m == ByText(Get(debug, Key(code, synonym)))
  {
    m := GroupByText(Get(debug, Key(code, synonym)));
  }

  /** The union of the sets of the given keys of a grouping. */
  function SpansOf(m: map<string, set<Span>>, keys: set<string>): set<Span> {
    set t, s | t in keys && t in m && s in m[t] :: s
  }

  /** `flatten_spans(spans_dict)`: every set of the grouping poured into one,
      the keys visited in any order. */
  method FlattenSpans(m: map<string, set<Span>>) returns (all: set<Span>)
    ensures all == SpansOf(m, m.Keys)
  {
    all := {};
    var left := m.Keys;
    while left != {}
      invariant left <= m.Keys
      invariant all == SpansOf(m, m.Keys - left)
      decreases left
    {
      var t :| t in left;
      assert SpansOf(m, m.Keys - (left - {t})) == SpansOf(m, m.Keys - left) + m[t];
      all := all + m[t];
      left := left - {t};
    }
  }

  /** Grouping by document and pooling again loses only the `text_id`s: the
      result is the set of spans of all the entries. */
  lemma FlattenByText(entries: seq<PredEntry>)
    ensures SpansOf(ByText(entries), ByText(entries).Keys) == EntrySpans(entries)
  {
    var m := ByText(entries);
    TextIdsMembers(entries);
    forall s ensures s in SpansOf(m, m.Keys) <==> s in EntrySpans(entries) {
      if s in SpansOf(m, m.Keys) {
        var t :| t in m && s in m[t];
        PredSpansMembers(entries, t);
        var k :| 0 <= k < |entries| && entries[k].textId == t && entries[k].span == s;
        assert entries[k] in entries;
      }
      if s in EntrySpans(entries) {
        var e :| e in entries && e.span == s;
        var k :| 0 <= k < |entries| && entries[k] == e;
        PredSpansMembers(entries, e.textId);
        assert e.textId in m;
        assert s in m[e.textId];
      }
    }
  }

  /** The matrix fill over `itertools.product(range(n), repeat=2)`. The matrix
      is symmetric with 1.0 on its diagonal, and every entry lies in [0, 1]. */
  method SynonymMatrix(sets: seq<set<Span>>) returns (matrix: array2<real>)
    ensures fresh(matrix) && matrix.Length0 == |sets| && matrix.Length1 == |sets|
    ensures forall i, j | 0 <= i < |sets| && 0 <= j < |sets| :: matrix[i, j] == ComputeJaccard(sets[i], sets[j])
    ensures forall i, j | 0 <= i < |sets| && 0 <= j < |sets| :: matrix[i, j] == matrix[j, i]
    ensures forall i | 0 <= i < |sets| :: matrix[i, i] == 1.0
    ensures forall i, j | 0 <= i < |sets| && 0 <= j < |sets| :: 0.0 <= matrix[i, j] <= 1.0
  {
    var n := |sets|;
    matrix := new real[n, n]((i, j) => 0.0);
    for i := 0 to n
      invariant forall a, b | 0 <= a < i && 0 <= b < n :: matrix[a, b] == ComputeJaccard(sets[a], sets[b])
    {
      for j := 0 to n
        invariant forall a, b | 0 <= a < i && 0 <= b < n :: matrix[a, b] == ComputeJaccard(sets[a], sets[b])
        invariant forall b | 0 <= b < j :: matrix[i, b] == ComputeJaccard(sets[i], sets[b])
      {
        matrix[i, j] := ComputeJaccard(sets[i], sets[j]);
      }
    }
    forall i, j | 0 <= i < n && 0 <= j < n ensures matrix[i, j] == matrix[j, i] {
      JaccardSymmetric(sets[i], sets[j]);
    }
  }

  /** A synonym's pooled prediction set: the spans of all its entries. */
  function SynonymSpans(debug: DebugData, code: string, synonym: string): set<Span> {
    EntrySpans(Get(debug, Key(code, synonym)))
  }

  /** The body of the per-category loop of `main`: one pooled set per
      synonym, then the matrix. Entry (i, j) is the Jaccard index of the
      pooled sets of synonyms i and j. */
  method CategoryOverlap(debug: DebugData, code: string, synonyms: seq<string>) returns (matrix: array2<real>)
    ensures fresh(matrix) && matrix.Length0 == |synonyms| && matrix.Length1 == |synonyms|
    ensures forall i, j | 0 <= i < |synonyms| && 0 <= j < |synonyms| ::
              matrix[i, j] == ComputeJaccard(SynonymSpans(debug, code, synonyms[i]), SynonymSpans(debug, code, synonyms[j]))
  {
    var sets: seq<set<Span>> := [];
    for i := 0 to |synonyms|
      invariant |sets| == i
      invariant forall k | 0 <= k < i :: sets[k] == SynonymSpans(debug, code, synonyms[k])
    {
      var grouped := ExtractSpans(debug, code, synonyms[i]);
      var pooled := FlattenSpans(grouped);
      FlattenByText(Get(debug, Key(code, synonyms[i])));
      sets := sets + [pooled];
    }
    matrix := SynonymMatrix(sets);
  }
}
