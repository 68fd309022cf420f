/** The overlap of the predictions of the synonym combinations of one
    category: every dump key `code__<combination>` pooled into one set of
    spans, the sets compared pairwise into a symmetric matrix, and the axis
    labels abbreviated to one letter per synonym. */
module OverlapCombinations {
  import opened Wrappers
  import opened Spans
  import opened Utils
  import opened Seqs
  import opened PyStr
  import opened Corpus
  import Abbrev

  /** `key.startswith(f"{entity_code}__")` */
  predicate ComboKey(key: string, code: string) {
    StartsWith(key, code + "__")
  }

  /** A key of the category holds `"__"` right after the code. */
  lemma ComboKeyContains(key: string, code: string)
    requires ComboKey(key, code)
    ensures Contains(key, "__")
  {
    assert key[|code|..|code| + 2] == (code + "__")[|code|..];
    assert OccursAt(key, "__", |code|);
  }

  /** `key.split("__", 1)[1]`: the combination's name. */
  function ComboName(key: string, code: string): string
    requires ComboKey(key, code)
  {
    ComboKeyContains(key, code);
    AfterFirst(key, "__")
  }

  /** `combo_spans` after the loop over the dump: each category key's entries
      pooled into one set, under its combination's name; a later key with the
      same name replaces the set. */
  function ComboSpans(debug: DebugData, code: string): map<string, set<Span>> {
    if debug == [] then map[]
    else
      var m := ComboSpans(debug[..|debug| - 1], code);
      var (key, entries) := debug[|debug| - 1];
      if ComboKey(key, code) then m[ComboName(key, code) := EntrySpans(entries)] else m
  }

  /** `list(combo_spans.keys())`: names in order of first insertion. */
  function ComboOrder(debug: DebugData, code: string): seq<string> {
    if debug == [] then []
    else
      var order := ComboOrder(debug[..|debug| - 1], code);
      var key := debug[|debug| - 1].0;
      if ComboKey(key, code) && ComboName(key, code) !in order then order + [ComboName(key, code)] else order
  }

  /** `extract_combination_spans(debug_data, entity_code)` with the key order
      of the resulting dictionary. */
  method ExtractCombinationSpans(debug: DebugData, code: string) returns (spans: map<string, set<Span>>, order: seq<string>)
    ensures spans == ComboSpans(debug, code) && order == ComboOrder(debug, code)
  {
    spans, order := map[], [];
    for i := 0 to |debug|
      invariant spans == ComboSpans(debug[..i], code) && order == ComboOrder(debug[..i], code)
    {
      assert debug[..i + 1][..i] == debug[..i];
      var (key, entries) := debug[i];
      if !ComboKey(key, code) {
        continue;
      }
      var name := ComboName(key, code);
      if name !in order {
        order := order + [name];
      }
      var pooled := set e | e in entries :: e.span;
      spans := spans[name := pooled];
    }
    assert debug[..|debug|] == debug;
  }

  /** The names are listed once each, they are the dictionary's keys, and
      each name's set pools the entries of a category key carrying that name
      (the last one). */
  lemma {:induction false} ComboSpansShape(debug: DebugData, code: string)
    ensures Distinct(ComboOrder(debug, code))
    ensures Elems(ComboOrder(debug, code)) == ComboSpans(debug, code).Keys
    ensures forall name | name in ComboSpans(debug, code) ::
              exists k | 0 <= k < |debug| :: ComboKey(debug[k].0, code) && ComboName(debug[k].0, code) == name
                                           && ComboSpans(debug, code)[name] == EntrySpans(debug[k].1)
    decreases |debug|
  {
    if debug != [] {
      var n := |debug| - 1;
      var prefix := debug[..n];
      ComboSpansShape(prefix, code);
      var order := ComboOrder(prefix, code);
      var key := debug[n].0;
      if ComboKey(key, code) && ComboName(key, code) !in order {
        DistinctSnoc(order, ComboName(key, code));
      }
      forall name | name in ComboSpans(debug, code)
        ensures exists k | 0 <= k < |debug| :: ComboKey(debug[k].0, code) && ComboName(debug[k].0, code) == name
                                             && ComboSpans(debug, code)[name] == EntrySpans(debug[k].1)
      {
        if ComboKey(key, code) && ComboName(key, code) == name {
          assert ComboSpans(debug, code)[name] == EntrySpans(debug[n].1);
        } else {
          var k :| 0 <= k < n && ComboKey(prefix[k].0, code) && ComboName(prefix[k].0, code) == name
                   && ComboSpans(prefix, code)[name] == EntrySpans(prefix[k].1);
          assert prefix[k] == debug[k];
        }
      }
    }
  }

  /** The matrix fill over `combinations(range(n), 2)`, each pair written
      both ways, then the diagonal set to 1.0. */
  method CombinationMatrix(sets: seq<set<Span>>) returns (matrix: array2<real>)
    ensures fresh(matrix) && matrix.Length0 == |sets| && matrix.Length1 == |sets|
    ensures forall i, j | 0 <= i < |sets| && 0 <= j < |sets| :: matrix[i, j] == ComputeJaccard(sets[i], sets[j])
    ensures forall i, j | 0 <= i < |sets| && 0 <= j < |sets| :: matrix[i, j] == matrix[j, i]
    ensures forall i | 0 <= i < |sets| :: matrix[i, i] == 1.0
    ensures forall i, j | 0 <= i < |sets| && 0 <= j < |sets| :: 0.0 <= matrix[i, j] <= 1.0
  {
    var n := |sets|;
    matrix := new real[n, n]((i, j) => 0.0);
    for i := 0 to n
      invariant forall a, b | 0 <= a < i && a < b < n ::
                  matrix[a, b] == ComputeJaccard(sets[a], sets[b]) && matrix[b, a] == ComputeJaccard(sets[a], sets[b])
    {
      for j := i + 1 to n
        invariant forall a, b | 0 <= a < i && a < b < n ::
                    matrix[a, b] == ComputeJaccard(sets[a], sets[b]) && matrix[b, a] == ComputeJaccard(sets[a], sets[b])
        invariant forall b | i < b < j ::
                    matrix[i, b] == ComputeJaccard(sets[i], sets[b]) && matrix[b, i] == ComputeJaccard(sets[i], sets[b])
      {
        var jaccard := ComputeJaccard(sets[i], sets[j]);
        matrix[i, j] := jaccard;
        matrix[j, i] := jaccard;
      }
    }
    for i := 0 to n
      invariant forall a, b | 0 <= a < n && a < b < n ::
                  matrix[a, b] == ComputeJaccard(sets[a], sets[b]) && matrix[b, a] == ComputeJaccard(sets[a], sets[b])
      invariant forall a | 0 <= a < i :: matrix[a, a] == 1.0
    {
      matrix[i, i] := 1.0;
    }
    forall i, j | 0 <= i < n && 0 <= j < n
      ensures matrix[i, j] == ComputeJaccard(sets[i], sets[j]) && matrix[i, j] == matrix[j, i]
    {
      JaccardSymmetric(sets[i], sets[j]);
      if i == j {
        assert ComputeJaccard(sets[i], sets[i]) == 1.0;
      }
    }
  }

  /** The lower-cased first character of every part. */
  function FirstLetters(parts: seq<string>): (r: seq<string>)
    requires forall i | 0 <= i < |parts| :: parts[i] != []
    ensures |r| == |parts|
    ensures forall i | 0 <= i < |parts| :: r[i] == [LowerChar(parts[i][0])]
  {
    seq(|parts|, i requires 0 <= i < |parts| => [LowerChar(parts[i][0])])
  }

  /** This file's `abbreviate_combo`: the first letter of every `"__"`-part,
      lower-cased and joined with `"_"`; an empty part raises `IndexError`. */
  function AbbreviateFirst(comboKey: string): Result<string> {
    var parts := SplitOn(comboKey, "__");
    if exists i | 0 <= i < |parts| :: parts[i] == [] then Fail("IndexError")
    else Ok(Join(FirstLetters(parts), "_"))
  }

  /** A combination of two synonyms keeps one letter of each:
      `"anatomy__body part"` gives `"a_b"`. */
  lemma AbbreviateTwo(a: string, b: string)
    requires a != [] && b != [] && '_' !in a && '_' !in b
    ensures AbbreviateFirst(a + "__" + b) == Ok([LowerChar(a[0])] + "_" + [LowerChar(b[0])])
  {
    var parts := [a, b];
    assert Join(parts, "__") == a + "__" + b by {
      assert parts[1..] == [b];
    }
    Abbrev.SplitOnJoin(parts, "__");
    assert SplitOn(a + "__" + b, "__") == parts;
    assert !exists i | 0 <= i < |parts| :: parts[i] == [];
    var letters := FirstLetters(parts);
    assert letters == [[LowerChar(a[0])], [LowerChar(b[0])]];
    assert letters[1..] == [[LowerChar(b[0])]];
    assert Join(letters, "_") == [LowerChar(a[0])] + "_" + [LowerChar(b[0])];
  }

  /** Here `"anatomy__body part"` gives `"a_b"`: only the first word of
      each synonym contributes. */
  lemma AnatomyBodyPartFirst(a: string, b: string)
    requires a == "anatomy" && b == "body part"
    ensures AbbreviateFirst(a + "__" + b) == Ok("a_b")
  {
    assert '_' !in a && '_' !in b;
    AbbreviateTwo(a, b);
    assert [LowerChar(a[0])] + "_" + [LowerChar(b[0])] == "a_b";
  }

  /** A combination with an empty part, such as a key ending in `"__"`,
      raises. */
  lemma EmptyPartFails(a: string)
    requires '_' !in a
    ensures AbbreviateFirst(a + "__").Fail?
  {
    Abbrev.SplitOnJoin([a, ""], "__");
    assert Join([a, ""], "__") == a + "__" by {
      assert [a, ""][1..] == [""];
    }
    assert SplitOn(a + "__", "__")[1] == [];
  }

  /** The body of the per-category loop of `main`: the category's
      combinations in key order, the matrix of their pooled sets, and the
      axis labels (the first failing abbreviation raises). */
  method CategoryOverlap(debug: DebugData, code: string)
    returns (combos: seq<string>, matrix: array2<real>, labels: Result<seq<string>>)
    ensures combos == ComboOrder(debug, code)
    ensures fresh(matrix) && matrix.Length0 == |combos| && matrix.Length1 == |combos|
    ensures forall i, j | 0 <= i < |combos| && 0 <= j < |combos| ::
              combos[i] in ComboSpans(debug, code) && combos[j] in ComboSpans(debug, code)
              && matrix[i, j] == ComputeJaccard(ComboSpans(debug, code)[combos[i]], ComboSpans(debug, code)[combos[j]])
    ensures labels.Ok? <==> forall i | 0 <= i < |combos| :: AbbreviateFirst(combos[i]).Ok?
    ensures labels.Ok? ==> |labels.value| == |combos|
                           && forall i | 0 <= i < |combos| :: labels.value[i] == AbbreviateFirst(combos[i]).value
  {
    var spans;
    spans, combos := ExtractCombinationSpans(debug, code);
    ComboSpansShape(debug, code);
    assert forall i | 0 <= i < |combos| :: combos[i] in Elems(combos);
    var sets := seq(|combos|, i requires 0 <= i < |combos| => spans[combos[i]]);
    matrix := CombinationMatrix(sets);
    var names: seq<string> := [];
    for i := 0 to |combos|
      invariant |names| == i
      invariant forall k | 0 <= k < i :: AbbreviateFirst(combos[k]).Ok? && names[k] == AbbreviateFirst(combos[k]).value
    {
      var r := AbbreviateFirst(combos[i]);
      if r.Fail? {
        return combos, matrix, Fail(r.error);
      }
      names := names + [r.value];
    }
    labels := Ok(names);
  }
}
