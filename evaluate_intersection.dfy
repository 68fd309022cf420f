/** The intersection evaluator: for every combination of two or more synonyms
    of a category, a span counts as predicted in a document only when every
    member synonym predicted it. Also the bar labels of its plots, made unique
    by counting repeats, and the file-name form of a combination key. */
module EvaluateIntersection {
  import opened Spans
  import opened Utils
  import opened Seqs
  import opened PyStr
  import opened Corpus
  import opened Matcher
  import opened Scoring
  import opened Combos
  import opened EvaluateUnionIndiv

  /** `set.intersection(*sets) if sets else set()`. */
  function IntersectionOf(sets: seq<set<Span>>): set<Span> {
    if sets == [] then {}
    else if |sets| == 1 then sets[0]
    else IntersectionOf(sets[..|sets| - 1]) * sets[|sets| - 1]
  }

  /** For at least one set, a span is in the intersection exactly when every
      member's set holds it. */
  lemma {:induction false} IntersectionOfMembers(sets: seq<set<Span>>)
    requires sets != []
    ensures forall s :: s in IntersectionOf(sets) <==> forall m | 0 <= m < |sets| :: s in sets[m]
    decreases |sets|
  {
    if |sets| > 1 {
      var n := |sets| - 1;
      IntersectionOfMembers(sets[..n]);
      forall s ensures s in IntersectionOf(sets) <==> forall m | 0 <= m < |sets| :: s in sets[m]
      {
        if s in IntersectionOf(sets) {
          assert s in IntersectionOf(sets[..n]) && s in sets[n];
          forall m | 0 <= m < |sets| ensures s in sets[m] {
            if m < n {
              assert sets[..n][m] == sets[m];
            }
          }
        }
        if forall m | 0 <= m < |sets| :: s in sets[m] {
          forall m | 0 <= m < n ensures s in sets[..n][m] {
            assert sets[..n][m] == sets[m];
          }
        }
      }
    }
  }

  /** The intersection lies inside each member's set. */
  lemma IntersectionWithinMembers(sets: seq<set<Span>>, m: nat)
    requires m < |sets|
    ensures IntersectionOf(sets) <= sets[m]
  {
    IntersectionOfMembers(sets);
  }

  /** A member with no prediction empties the intersection. */
  lemma EmptyMemberEmptiesIntersection(sets: seq<set<Span>>, m: nat)
    requires m < |sets| && sets[m] == {}
    ensures IntersectionOf(sets) == {}
  {
    IntersectionWithinMembers(sets, m);
  }

  /** The intersection of the members' sets lies inside their union. */
  lemma IntersectionWithinUnion(sets: seq<set<Span>>)
    ensures IntersectionOf(sets) <= UnionOf(sets)
  {
    if sets != [] {
      IntersectionWithinMembers(sets, 0);
      UnionContainsMembers(sets, 0);
    }
  }

  /** The effective predicted set of every document for a combination: the
      intersection of its members' sets. */
  function IntersectionPreds(debug: DebugData, corpus: seq<Document>, code: string, combo: seq<string>): (r: seq<set<Span>>)
    ensures |r| == |corpus|
  {
    seq(|corpus|, d requires 0 <= d < |corpus| => IntersectionOf(MemberSets(debug, code, combo, corpus[d].textId)))
  }

  /** For the same category, combination and document, the intersection
      evaluator's predicted set lies inside the union evaluator's. */
  lemma IntersectionPredsWithinUnionPreds(debug: DebugData, corpus: seq<Document>, code: string, combo: seq<string>, d: nat)
    requires d < |corpus|
    ensures IntersectionPreds(debug, corpus, code, combo)[d] <= UnionPreds(debug, corpus, code, combo)[d]
  {
    IntersectionWithinUnion(MemberSets(debug, code, combo, corpus[d].textId));
  }

  /** A span predicted for a document by the combination was predicted by
      every member synonym for that document. */
  lemma IntersectionPredsInEveryMember(debug: DebugData, corpus: seq<Document>, code: string, combo: seq<string>,
                                       d: nat, m: nat)
    requires d < |corpus| && m < |combo|
    ensures IntersectionPreds(debug, corpus, code, combo)[d] <= PredSpans(Get(debug, Key(code, combo[m])), corpus[d].textId)
  {
    IntersectionWithinMembers(MemberSets(debug, code, combo, corpus[d].textId), m);
  }

  /** The row of a combination job. */
  ghost predicate IntersectionRow(row: Row, debug: DebugData, corpus: seq<Document>, job: Job, threshold: real) {
    Scored(row, corpus, job.code, ComboKey(job.combo), IntersectionPreds(debug, corpus, job.code, job.combo),
           ScoreOf(InlineRatio), threshold)
  }

  ghost function IntersectionRowOk(debug: DebugData, corpus: seq<Document>, threshold: real): (Row, Job) -> bool {
    (row, job) => IntersectionRow(row, debug, corpus, job, threshold)
  }

  /** The inline ratio divides by zero on some document of the job. */
  predicate IntersectionRaises(debug: DebugData, corpus: seq<Document>, job: Job) {
    exists d | 0 <= d < |corpus| ::
      Raises(ScoreOf(InlineRatio), IntersectionPreds(debug, corpus, job.code, job.combo)[d], GoldSpans(corpus[d], job.code))
  }

  /** Some job of the list raises. */
  predicate SomeIntersectionRaises(debug: DebugData, corpus: seq<Document>, jobs: seq<Job>) {
    exists j | 0 <= j < |jobs| :: IntersectionRaises(debug, corpus, jobs[j])
  }

  lemma IntersectionRaisesAt(debug: DebugData, corpus: seq<Document>, jobs: seq<Job>, j: nat)
    requires j < |jobs| && IntersectionRaises(debug, corpus, jobs[j])
    ensures SomeIntersectionRaises(debug, corpus, jobs)
  {
  }

  /** A job that raises in one category's block raises in the whole list. */
  lemma IntersectionRaisesInBlock(debug: DebugData, corpus: seq<Document>, lists: seq<seq<Job>>, i: nat)
    requires i < |lists| && SomeIntersectionRaises(debug, corpus, lists[i])
    ensures SomeIntersectionRaises(debug, corpus, Flatten(lists))
  {
    var j :| 0 <= j < |lists[i]| && IntersectionRaises(debug, corpus, lists[i][j]);
    FlattenIndex(lists, i, j);
  }

  /** The `for text_id in corpus_map` loop: every corpus document, and only
      those, gets the intersection of its gathered sets. */
  method IntersectionByText(corpus: seq<Document>, bySyn: map<string, map<string, set<Span>>>, combo: seq<string>)
    returns (byText: map<string, set<Span>>)
    requires forall m | 0 <= m < |combo| :: combo[m] in bySyn
    ensures byText.Keys == CorpusIds(corpus)
    ensures forall t | t in byText :: byText[t] == IntersectionOf(Gathered(bySyn, combo, t))
  {
    byText := map[];
    for d := 0 to |corpus|
      invariant byText.Keys == CorpusIds(corpus[..d])
      invariant forall t | t in byText :: byText[t] == IntersectionOf(Gathered(bySyn, combo, t))
    {
      var t := corpus[d].textId;
      byText := byText[t := IntersectionOf(Gathered(bySyn, combo, t))];
      assert corpus[..d + 1] == corpus[..d] + [corpus[d]];
    }
    assert corpus[..|corpus|] == corpus;
  }

  /** The predicted sets handed to the matcher are the members' intersections. */
  method CombinedPreds(debug: DebugData, corpus: seq<Document>, code: string, combo: seq<string>,
                       bySyn: map<string, map<string, set<Span>>>)
    returns (preds: seq<set<Span>>)
    requires forall m | 0 <= m < |combo| :: combo[m] in bySyn && Loaded(bySyn, debug, code, combo[m])
    ensures preds == IntersectionPreds(debug, corpus, code, combo)
  {
    var byText := IntersectionByText(corpus, bySyn, combo);
    preds := seq(|corpus|, d requires 0 <= d < |corpus| => Lookup(byText, corpus[d].textId));
    forall d | 0 <= d < |corpus|
      ensures preds[d] == IntersectionPreds(debug, corpus, code, combo)[d]
    {
      assert corpus[d] in corpus;
      GatheredMembers(debug, code, bySyn, combo, corpus[d].textId);
    }
  }

  /** The body of the combination loop: the intersection scored on every
      document with the inline ratio and rolled up into one row. */
  method EvaluateCombo(debug: DebugData, corpus: seq<Document>, code: string, synonyms: seq<string>, combo: seq<string>,
                       bySyn: map<string, map<string, set<Span>>>, tn: nat, threshold: real)
    returns (ok: bool, row: Row)
    requires combo in CategoryCombos(synonyms)
    requires forall syn | syn in synonyms :: Loaded(bySyn, debug, code, syn)
    requires tn == TnCount(corpus, code)
    ensures ok ==> IntersectionRow(row, debug, corpus, Job(code, combo), threshold)
    ensures !ok ==> IntersectionRaises(debug, corpus, Job(code, combo))
  {
    forall m | 0 <= m < |combo|
      ensures combo[m] in bySyn && Loaded(bySyn, debug, code, combo[m])
    {
      CombosBetweenSound(synonyms, 2, |synonyms|, combo);
      SubseqMember(combo, synonyms, m);
    }
    var preds := CombinedPreds(debug, corpus, code, combo, bySyn);
    ok, row := ScoreRow(corpus, code, ComboKey(combo), preds, ScoreOf(InlineRatio), threshold, tn);
  }

  /** The `j`-th combination of a category, scored. */
  method EvaluateComboAt(debug: DebugData, corpus: seq<Document>, code: string, synonyms: seq<string>,
                         bySyn: map<string, map<string, set<Span>>>, tn: nat, threshold: real, j: nat)
    returns (ok: bool, row: Row)
    requires j < |CategoryCombos(synonyms)|
    requires forall syn | syn in synonyms :: Loaded(bySyn, debug, code, syn)
    requires tn == TnCount(corpus, code)
    ensures ok ==> IntersectionRowOk(debug, corpus, threshold)(row, CodeJobs(code, CategoryCombos(synonyms))[j])
    ensures !ok ==> IntersectionRaises(debug, corpus, CodeJobs(code, CategoryCombos(synonyms))[j])
  {
    var combo := CategoryCombos(synonyms)[j];
    ok, row := EvaluateCombo(debug, corpus, code, synonyms, combo, bySyn, tn, threshold);
    assert CodeJobs(code, CategoryCombos(synonyms))[j] == Job(code, combo);
  }

  /** One category: the spans loaded per synonym, the TN counted (twice, as
      written, with the same result) and every combination scored in order;
      `ok` is false when a `ZeroDivisionError` ends the evaluation. */
  method EvaluateCategory(debug: DebugData, corpus: seq<Document>, code: string, synonyms: seq<string>, threshold: real)
    returns (ok: bool, rows: seq<Row>)
    ensures ok ==> All(IntersectionRowOk(debug, corpus, threshold), rows, CodeJobs(code, CategoryCombos(synonyms)))
    ensures !ok ==> SomeIntersectionRaises(debug, corpus, CodeJobs(code, CategoryCombos(synonyms)))
  {
    var bySyn := LoadSpansBySyn(debug, code, synonyms);
    var tn := CountTrueNegatives(corpus, code);
    tn := CountTrueNegatives(corpus, code);
    ghost var jobs := CodeJobs(code, CategoryCombos(synonyms));
    ok, rows := true, [];
    for j := 0 to |CategoryCombos(synonyms)|
      invariant All(IntersectionRowOk(debug, corpus, threshold), rows, jobs[..j])
    {
      var comboOk, row := EvaluateComboAt(debug, corpus, code, synonyms, bySyn, tn, threshold, j);
      if !comboOk {
        IntersectionRaisesAt(debug, corpus, jobs, j);
        ok := false;
        return;
      }
      AllNext(IntersectionRowOk(debug, corpus, threshold), rows, jobs, row, j);
      rows := rows + [row];
    }
    assert jobs[..|jobs|] == jobs;
  }

  /** `evaluate_intersection`: one row per (category, combination), in table
      order, unless the inline ratio raises. */
  method EvaluateIntersection(debug: DebugData, corpus: seq<Document>, entityTypes: EntityTypes, threshold: real)
    returns (ok: bool, rows: seq<Row>)
    ensures ok ==> |rows| == |ComboJobs(entityTypes)|
    ensures ok ==> forall k | 0 <= k < |rows| :: IntersectionRow(rows[k], debug, corpus, ComboJobs(entityTypes)[k], threshold)
    ensures !ok ==> SomeIntersectionRaises(debug, corpus, ComboJobs(entityTypes))
  {
    ok, rows := true, [];
    ghost var lists := ComboJobLists(entityTypes);
    for i := 0 to |entityTypes|
      invariant All(IntersectionRowOk(debug, corpus, threshold), rows, Flatten(lists[..i]))
    {
      var code, synonyms := entityTypes[i].0, entityTypes[i].1;
      var categoryOk, block := EvaluateCategory(debug, corpus, code, synonyms, threshold);
      if !categoryOk {
        ok := false;
        assert lists[i] == CodeJobs(code, CategoryCombos(synonyms));
        IntersectionRaisesInBlock(debug, corpus, lists, i);
        return;
      }
      AllConcat(IntersectionRowOk(debug, corpus, threshold), rows, Flatten(lists[..i]), block, lists[i]);
      FlattenNext(lists, i);
      rows := rows + block;
    }
    assert lists[..|lists|] == lists;
    AllIndex(IntersectionRowOk(debug, corpus, threshold), rows, ComboJobs(entityTypes));
  }

  /** The number of times `x` occurs in `s`. */
  function Occurrences(s: seq<string>, x: string): nat {
    if s == [] then 0
    else Occurrences(s[..|s| - 1], x) + (if s[|s| - 1] == x then 1 else 0)
  }

  /** The bar label shown for the `i`-th raw label: unchanged the first time,
      suffixed `-n` on its n-th occurrence. */
  function DisplayLabel(raw: seq<string>, i: nat): string
    requires i < |raw|
  {
    var n := Occurrences(raw[..i + 1], raw[i]);
    if n > 1 then raw[i] + "-" + NatToString(n) else raw[i]
  }

  /** `seen_labels_count.get(label, 0)` */
  function Seen(counts: map<string, nat>, x: string): nat {
    if x in counts then counts[x] else 0
  }

  /** The label de-duplication loop: a count per label, kept in a dictionary. */
  method DisplayLabels(raw: seq<string>) returns (labels: seq<string>)
    ensures |labels| == |raw|
    ensures forall i | 0 <= i < |raw| :: labels[i] == DisplayLabel(raw, i)
  {
    labels := [];
    var counts: map<string, nat> := map[];
    for i := 0 to |raw|
      invariant |labels| == i
      invariant forall k | 0 <= k < i :: labels[k] == DisplayLabel(raw, k)
      invariant forall x :: Seen(counts, x) == Occurrences(raw[..i], x)
    {
      var name := raw[i];
      OccurrencesNext(raw, i);
      ghost var before := counts;
      counts := counts[name := Seen(counts, name) + 1];
      forall x ensures Seen(counts, x) == Occurrences(raw[..i + 1], x) {
        assert Seen(before, x) == Occurrences(raw[..i], x);
      }
      var n := counts[name];
      if n > 1 {
        labels := labels + [name + "-" + NatToString(n)];
      } else {
        labels := labels + [name];
      }
    }
  }

  lemma OccurrencesNext(raw: seq<string>, i: nat)
    requires i < |raw|
    ensures forall x :: Occurrences(raw[..i + 1], x) == Occurrences(raw[..i], x) + (if raw[i] == x then 1 else 0)
  {
    assert raw[..i + 1][..i] == raw[..i];
  }

  /** The first occurrence of a label is shown as it is. */
  lemma FirstOccurrenceUnchanged(raw: seq<string>, i: nat)
    requires i < |raw| && forall k | 0 <= k < i :: raw[k] != raw[i]
    ensures DisplayLabel(raw, i) == raw[i]
  {
    NoEarlierOccurrence(raw[..i], raw[i]);
    assert raw[..i + 1][..i] == raw[..i];
  }

  lemma {:induction false} NoEarlierOccurrence(s: seq<string>, x: string)
    requires forall k | 0 <= k < |s| :: s[k] != x
    ensures Occurrences(s, x) == 0
    decreases |s|
  {
    if s != [] {
      NoEarlierOccurrence(s[..|s| - 1], x);
    }
  }

  /** The count grows along the list: a later repeat of the same raw label
      has a strictly larger occurrence number. */
  lemma {:induction false} OccurrencesGrow(raw: seq<string>, i: nat, j: nat)
    requires i < j < |raw| && raw[i] == raw[j]
    ensures Occurrences(raw[..i + 1], raw[i]) < Occurrences(raw[..j + 1], raw[j])
    decreases j - i
  {
    var x := raw[i];
    assert raw[..j + 1][..j] == raw[..j];
    if i + 1 < j {
      OccurrencesMonotone(raw, i + 1, j, x);
    }
  }

  lemma {:induction false} OccurrencesMonotone(raw: seq<string>, a: nat, b: nat, x: string)
    requires a <= b <= |raw|
    ensures Occurrences(raw[..a], x) <= Occurrences(raw[..b], x)
    decreases b - a
  {
    if a < b {
      OccurrencesMonotone(raw, a, b - 1, x);
      assert raw[..b][..b - 1] == raw[..b - 1];
    }
  }

  /** Two occurrences of the same raw label are shown differently. */
  lemma RepeatsDistinguished(raw: seq<string>, i: nat, j: nat)
    requires i < j < |raw| && raw[i] == raw[j]
    ensures DisplayLabel(raw, i) != DisplayLabel(raw, j)
  {
    OccurrencesGrow(raw, i, j);
    var ni, nj := Occurrences(raw[..i + 1], raw[i]), Occurrences(raw[..j + 1], raw[j]);
    assert raw[..j + 1][j] == raw[j];
    OccurrenceOfLast(raw[..j + 1]);
    var x := raw[i];
    if ni > 1 {
      SuffixDiffers(x, ni, nj);
    } else {
      assert DisplayLabel(raw, i) == x;
      assert |DisplayLabel(raw, j)| > |x|;
    }
  }

  /** The last element occurs at least once. */
  lemma OccurrenceOfLast(s: seq<string>)
    requires s != []
    ensures Occurrences(s, s[|s| - 1]) >= 1
  {
  }

  /** Different counts give different suffixes. */
  lemma SuffixDiffers(x: string, a: nat, b: nat)
    requires a != b
    ensures x + "-" + NatToString(a) != x + "-" + NatToString(b)
  {
    NatToStringValue(a);
    NatToStringValue(b);
    var l, r := x + "-" + NatToString(a), x + "-" + NatToString(b);
    assert l[|x| + 1..] == NatToString(a);
    assert r[|x| + 1..] == NatToString(b);
  }
}
