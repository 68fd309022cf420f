/** The union evaluator over individual-synonym predictions: for every
    combination of two or more synonyms of a category, a span counts as
    predicted in a document when at least one member synonym predicted it. */
module EvaluateUnionIndiv {
  import opened Spans
  import opened Utils
  import opened Seqs
  import opened PyStr
  import opened Corpus
  import opened Matcher
  import opened Scoring
  import opened Combos

  /** `set.union(*sets) if sets else set()`. */
  function UnionOf(sets: seq<set<Span>>): set<Span> {
    if sets == [] then {} else UnionOf(sets[..|sets| - 1]) + sets[|sets| - 1]
  }

  /** A span is in the union exactly when some member's set holds it. */
  lemma {:induction false} UnionOfMembers(sets: seq<set<Span>>)
    ensures forall s :: s in UnionOf(sets) <==> exists m | 0 <= m < |sets| :: s in sets[m]
    decreases |sets|
  {
    if sets != [] {
      var n := |sets| - 1;
      UnionOfMembers(sets[..n]);
      forall s ensures s in UnionOf(sets) <==> exists m | 0 <= m < |sets| :: s in sets[m]
      {
        if s in UnionOf(sets[..n]) {
          var m :| 0 <= m < n && s in sets[..n][m];
          assert sets[m] == sets[..n][m];
        }
        if exists m | 0 <= m < |sets| :: s in sets[m] {
          var m :| 0 <= m < |sets| && s in sets[m];
          if m < n {
            assert sets[..n][m] == sets[m];
          }
        }
      }
    }
  }

  /** The union contains each member's set. */
  lemma UnionContainsMembers(sets: seq<set<Span>>, m: nat)
    requires m < |sets|
    ensures sets[m] <= UnionOf(sets)
  {
    UnionOfMembers(sets);
  }

  /** The combination's members' predicted sets for one document. */
  function MemberSets(debug: DebugData, code: string, combo: seq<string>, textId: string): (r: seq<set<Span>>)
    ensures |r| == |combo|
  {
    seq(|combo|, m requires 0 <= m < |combo| => PredSpans(Get(debug, Key(code, combo[m])), textId))
  }

  /** The effective predicted set of every document for a combination: the
      union of its members' sets. */
  function UnionPreds(debug: DebugData, corpus: seq<Document>, code: string, combo: seq<string>): (r: seq<set<Span>>)
    ensures |r| == |corpus|
  {
    seq(|corpus|, d requires 0 <= d < |corpus| => UnionOf(MemberSets(debug, code, combo, corpus[d].textId)))
  }

  /** The combination key a row reports, `"__".join(combo)`. */
  function ComboKey(combo: seq<string>): string {
    Join(combo, "__")
  }

  /** The combinations of a category: two or more synonyms, by size, each in
      `itertools.combinations` order. */
  function CategoryCombos(synonyms: seq<string>): seq<seq<string>> {
    CombosBetween(synonyms, 2, |synonyms|)
  }

  function ComboJobLists(et: EntityTypes): (r: seq<seq<Job>>)
    ensures |r| == |et|
  {
    seq(|et|, i requires 0 <= i < |et| => CodeJobs(et[i].0, CategoryCombos(et[i].1)))
  }

  /** All rows' jobs in order: categories in table order, then combinations. */
  function ComboJobs(et: EntityTypes): seq<Job> {
    Flatten(ComboJobLists(et))
  }

  /** The row of a combination job. */
  ghost predicate UnionRow(row: Row, debug: DebugData, corpus: seq<Document>, job: Job, threshold: real) {
    Scored(row, corpus, job.code, ComboKey(job.combo), UnionPreds(debug, corpus, job.code, job.combo),
           ScoreOf(InlineRatio), threshold)
  }

  ghost function UnionRowOk(debug: DebugData, corpus: seq<Document>, threshold: real): (Row, Job) -> bool {
    (row, job) => UnionRow(row, debug, corpus, job, threshold)
  }

  /** The inline ratio divides by zero on some document of the job. */
  predicate UnionRaises(debug: DebugData, corpus: seq<Document>, job: Job) {
    exists d | 0 <= d < |corpus| ::
      Raises(ScoreOf(InlineRatio), UnionPreds(debug, corpus, job.code, job.combo)[d], GoldSpans(corpus[d], job.code))
  }

  /** Some job of the list raises. */
  predicate SomeRaises(debug: DebugData, corpus: seq<Document>, jobs: seq<Job>) {
    exists j | 0 <= j < |jobs| :: UnionRaises(debug, corpus, jobs[j])
  }

  lemma RaisesAt(debug: DebugData, corpus: seq<Document>, jobs: seq<Job>, j: nat)
    requires j < |jobs| && UnionRaises(debug, corpus, jobs[j])
    ensures SomeRaises(debug, corpus, jobs)
  {
  }

  /** A job that raises in one category's block raises in the whole list. */
  lemma RaisesInBlock(debug: DebugData, corpus: seq<Document>, lists: seq<seq<Job>>, i: nat)
    requires i < |lists| && SomeRaises(debug, corpus, lists[i])
    ensures SomeRaises(debug, corpus, Flatten(lists))
  {
    var j :| 0 <= j < |lists[i]| && UnionRaises(debug, corpus, lists[i][j]);
    FlattenIndex(lists, i, j);
  }

  /** `spans_by_syn[syn]` holds the grouping of the synonym's predictions. */
  predicate Loaded(bySyn: map<string, map<string, set<Span>>>, debug: DebugData, code: string, syn: string) {
    syn in bySyn && bySyn[syn] == ByText(Get(debug, Key(code, syn)))
  }

  /** The loading loop: `spans_by_syn[syn]` groups the spans stored under
      `code__syn` by document. (Python adds into the existing grouping, so a
      synonym listed twice gets the same sets again.) */
  method LoadSpansBySyn(debug: DebugData, code: string, synonyms: seq<string>)
    returns (bySyn: map<string, map<string, set<Span>>>)
    ensures forall syn | syn in synonyms :: Loaded(bySyn, debug, code, syn)
  {
    bySyn := map[];
    for j := 0 to |synonyms|
      invariant forall syn | syn in synonyms[..j] :: Loaded(bySyn, debug, code, syn)
    {
      var grouped := GroupByText(Get(debug, Key(code, synonyms[j])));
      bySyn := bySyn[synonyms[j] := grouped];
      assert synonyms[..j + 1] == synonyms[..j] + [synonyms[j]];
    }
    assert synonyms[..|synonyms|] == synonyms;
  }

  /** `[spans_by_syn[syn].get(text_id, set()) for syn in combo]`. */
  function Gathered(bySyn: map<string, map<string, set<Span>>>, combo: seq<string>, textId: string): (r: seq<set<Span>>)
    requires forall m | 0 <= m < |combo| :: combo[m] in bySyn
    ensures |r| == |combo|
  {
    seq(|combo|, m requires 0 <= m < |combo| => Lookup(bySyn[combo[m]], textId))
  }

  /** Once loaded, the gathered sets are the members' predicted sets. */
  lemma GatheredMembers(debug: DebugData, code: string, bySyn: map<string, map<string, set<Span>>>,
                        combo: seq<string>, textId: string)
    requires forall m | 0 <= m < |combo| :: combo[m] in bySyn && Loaded(bySyn, debug, code, combo[m])
    ensures Gathered(bySyn, combo, textId) == MemberSets(debug, code, combo, textId)
  {
    forall m | 0 <= m < |combo|
      ensures Gathered(bySyn, combo, textId)[m] == MemberSets(debug, code, combo, textId)[m]
    {
      LookupByText(Get(debug, Key(code, combo[m])), textId);
    }
  }

  /** The `for text_id in corpus_map` loop: every corpus document, and only
      those, gets the union of its gathered sets. */
  method UnionByText(corpus: seq<Document>, bySyn: map<string, map<string, set<Span>>>, combo: seq<string>)
    returns (byText: map<string, set<Span>>)
    requires forall m | 0 <= m < |combo| :: combo[m] in bySyn
    ensures byText.Keys == CorpusIds(corpus)
    ensures forall t | t in byText :: byText[t] == UnionOf(Gathered(bySyn, combo, t))
  {
    byText := map[];
    for d := 0 to |corpus|
      invariant byText.Keys == CorpusIds(corpus[..d])
      invariant forall t | t in byText :: byText[t] == UnionOf(Gathered(bySyn, combo, t))
    {
      var t := corpus[d].textId;
      byText := byText[t := UnionOf(Gathered(bySyn, combo, t))];
      assert corpus[..d + 1] == corpus[..d] + [corpus[d]];
    }
    assert corpus[..|corpus|] == corpus;
  }

  /** The predicted sets handed to the matcher are the members' unions. */
  method CombinedPreds(debug: DebugData, corpus: seq<Document>, code: string, combo: seq<string>,
                       bySyn: map<string, map<string, set<Span>>>)
    returns (preds: seq<set<Span>>)
    requires forall m | 0 <= m < |combo| :: Loaded(bySyn, debug, code, combo[m])
    ensures preds == UnionPreds(debug, corpus, code, combo)
  {
    var byText := UnionByText(corpus, bySyn, combo);
    preds := seq(|corpus|, d requires 0 <= d < |corpus| => Lookup(byText, corpus[d].textId));
    forall d | 0 <= d < |corpus|
      ensures preds[d] == UnionPreds(debug, corpus, code, combo)[d]
    {
      assert corpus[d] in corpus;
      GatheredMembers(debug, code, bySyn, combo, corpus[d].textId);
    }
  }

  /** The body of the combination loop: the union scored on every document
      with the inline ratio and rolled up into one row. */
  method EvaluateCombo(debug: DebugData, corpus: seq<Document>, code: string, synonyms: seq<string>, combo: seq<string>,
                       bySyn: map<string, map<string, set<Span>>>, tn: nat, threshold: real)
    returns (ok: bool, row: Row)
    requires combo in CategoryCombos(synonyms)
    requires forall syn | syn in synonyms :: Loaded(bySyn, debug, code, syn)
    requires tn == TnCount(corpus, code)
    ensures ok ==> UnionRow(row, debug, corpus, Job(code, combo), threshold)
    ensures !ok ==> UnionRaises(debug, corpus, Job(code, combo))
  {
    forall m | 0 <= m < |combo|
      ensures Loaded(bySyn, debug, code, combo[m])
    {
      CombosBetweenSound(synonyms, 2, |synonyms|, combo);
      SubseqMember(combo, synonyms, m);
    }
    var preds := CombinedPreds(debug, corpus, code, combo, bySyn);
    ok, row := ScoreRow(corpus, code, ComboKey(combo), preds, ScoreOf(InlineRatio), threshold, tn);
  }

  /** The `j`-th combination of a category, loaded and scored. */
  method EvaluateComboAt(debug: DebugData, corpus: seq<Document>, code: string, synonyms: seq<string>,
                         bySyn: map<string, map<string, set<Span>>>, tn: nat, threshold: real, j: nat)
    returns (ok: bool, row: Row)
    requires j < |CategoryCombos(synonyms)|
    requires forall syn | syn in synonyms :: Loaded(bySyn, debug, code, syn)
    requires tn == TnCount(corpus, code)
    ensures ok ==> UnionRowOk(debug, corpus, threshold)(row, CodeJobs(code, CategoryCombos(synonyms))[j])
    ensures !ok ==> UnionRaises(debug, corpus, CodeJobs(code, CategoryCombos(synonyms))[j])
  {
    var combo := CategoryCombos(synonyms)[j];
    ok, row := EvaluateCombo(debug, corpus, code, synonyms, combo, bySyn, tn, threshold);
    assert CodeJobs(code, CategoryCombos(synonyms))[j] == Job(code, combo);
  }

  /** The combination loop of one category; `ok` is false when a
      `ZeroDivisionError` ends the evaluation. */
  method EvaluateCategory(debug: DebugData, corpus: seq<Document>, code: string, synonyms: seq<string>,
                          tn: nat, threshold: real)
    returns (ok: bool, rows: seq<Row>)
    requires tn == TnCount(corpus, code)
    ensures ok ==> All(UnionRowOk(debug, corpus, threshold), rows, CodeJobs(code, CategoryCombos(synonyms)))
    ensures !ok ==> SomeRaises(debug, corpus, CodeJobs(code, CategoryCombos(synonyms)))
  {
    var bySyn := LoadSpansBySyn(debug, code, synonyms);
    ghost var jobs := CodeJobs(code, CategoryCombos(synonyms));
    ok, rows := true, [];
    for j := 0 to |CategoryCombos(synonyms)|
      invariant All(UnionRowOk(debug, corpus, threshold), rows, jobs[..j])
    {
      var comboOk, row := EvaluateComboAt(debug, corpus, code, synonyms, bySyn, tn, threshold, j);
      if !comboOk {
        RaisesAt(debug, corpus, jobs, j);
        ok := false;
        return;
      }
      AllNext(UnionRowOk(debug, corpus, threshold), rows, jobs, row, j);
      rows := rows + [row];
    }
    assert jobs[..|jobs|] == jobs;
  }

  /** `evaluate_union`: one row per (category, combination), in table order,
      unless the inline ratio raises. */
  method EvaluateUnion(debug: DebugData, corpus: seq<Document>, entityTypes: EntityTypes, threshold: real)
    returns (ok: bool, rows: seq<Row>)
    ensures ok ==> |rows| == |ComboJobs(entityTypes)|
    ensures ok ==> forall k | 0 <= k < |rows| :: UnionRow(rows[k], debug, corpus, ComboJobs(entityTypes)[k], threshold)
    ensures !ok ==> SomeRaises(debug, corpus, ComboJobs(entityTypes))
  {
    ok, rows := true, [];
    ghost var lists := ComboJobLists(entityTypes);
    for i := 0 to |entityTypes|
      invariant All(UnionRowOk(debug, corpus, threshold), rows, Flatten(lists[..i]))
    {
      var code, synonyms := entityTypes[i].0, entityTypes[i].1;
      var tn := CountTrueNegatives(corpus, code);
      var categoryOk, block := EvaluateCategory(debug, corpus, code, synonyms, tn, threshold);
      if !categoryOk {
        ok := false;
        assert lists[i] == CodeJobs(code, CategoryCombos(synonyms));
        RaisesInBlock(debug, corpus, lists, i);
        return;
      }
      AllConcat(UnionRowOk(debug, corpus, threshold), rows, Flatten(lists[..i]), block, lists[i]);
      FlattenNext(lists, i);
      rows := rows + block;
    }
    assert lists[..|lists|] == lists;
    AllIndex(UnionRowOk(debug, corpus, threshold), rows, ComboJobs(entityTypes));
  }

  /** A category with n synonyms yields 2^n - n - 1 rows. */
  lemma CategoryRowCount(synonyms: seq<string>)
    ensures |CategoryCombos(synonyms)| == Pow2(|synonyms|) - |synonyms| - 1
  {
    SizesFromTwo(synonyms);
  }

  /** A combination's union contains every member's predicted set. */
  lemma UnionCoversMembers(debug: DebugData, corpus: seq<Document>, code: string, combo: seq<string>, d: nat, m: nat)
    requires d < |corpus| && m < |combo|
    ensures PredSpans(Get(debug, Key(code, combo[m])), corpus[d].textId) <= UnionPreds(debug, corpus, code, combo)[d]
  {
    UnionContainsMembers(MemberSets(debug, code, combo, corpus[d].textId), m);
  }
}
