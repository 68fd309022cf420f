/** The union evaluator over combined prompts: every combination of two or
    more synonyms of a category was sent to the model as one label list, and
    its predictions are scored twice, with exact-match and with
    exact-plus-partial true positives. */
module EvaluateUnion {
  import opened Spans
  import opened Utils
  import opened Seqs
  import opened Corpus
  import opened Scoring
  import opened Matcher
  import opened EvaluateUnionIndiv

  /** One result row: category, combination key, the exact and the partial
      metrics, and the six counters they come from. */
  datatype DualRow = DualRow(entityType: string, combo: string, exact: Metrics, partial: Metrics,
                             tpEx: nat, fpEx: nat, fnEx: nat, tpPa: nat, fpPa: nat, fnPa: nat)

  /** The predicted sets of a combination: per document, the distinct spans
      stored under `code__syn1__syn2…`. */
  function ComboPreds(debug: DebugData, corpus: seq<Document>, code: string, combo: seq<string>): (r: seq<set<Span>>)
    ensures |r| == |corpus|
  {
    PerDoc(corpus, Get(debug, Key(code, ComboKey(combo))))
  }

  /** What a row reports for a category scored against per-document predicted
      sets: the exact counter is the number of predicted spans that are gold
      spans; exact and partial hits, with the false positives, make up the
      predicted spans, and with the false negatives the gold spans; both
      metric sets share the false positives and false negatives left after
      the partial pass, and differ only in their true positives. */
  ghost predicate DualScored(row: DualRow, corpus: seq<Document>, code: string, name: string, preds: seq<set<Span>>,
                             threshold: real)
    requires |preds| == |corpus|
  {
    && row.entityType == code && row.combo == name
    && row.tpEx == ExactTotal(corpus, code, preds)
    && row.tpEx + row.tpPa + row.fpPa == PredTotal(preds)
    && row.tpEx + row.tpPa + row.fnPa == GoldTotal(corpus, code)
    && row.fpEx == row.fpPa && row.fnEx == row.fnPa
    && row.exact == Prf1(row.tpEx, row.fpEx, row.fnEx)
    && row.partial == Prf1(row.tpEx + row.tpPa, row.fpPa, row.fnPa)
    && exists partners ::
         Matched(ScoreOf(SharedJaccard), threshold, corpus, code, preds, partners) && row.tpEx + row.tpPa == PairTotal(partners)
  }

  /** The row of a combination job. */
  ghost predicate ComboRow(row: DualRow, debug: DebugData, corpus: seq<Document>, job: Job, threshold: real) {
    DualScored(row, corpus, job.code, ComboKey(job.combo), ComboPreds(debug, corpus, job.code, job.combo), threshold)
  }

  ghost function ComboRowOk(debug: DebugData, corpus: seq<Document>, threshold: real): (DualRow, Job) -> bool {
    (row, job) => ComboRow(row, debug, corpus, job, threshold)
  }

  /** The body of the combination loop: the combination's predictions grouped
      by document, matched on every document with the shared `jaccard`, and
      rolled up into the exact and the partial metrics. */
  method EvaluateCombo(debug: DebugData, corpus: seq<Document>, code: string, combo: seq<string>, threshold: real)
    returns (row: DualRow)
    ensures ComboRow(row, debug, corpus, Job(code, combo), threshold)
  {
    var comboKey := ComboKey(combo);
    var preds := GroupedPerDoc(corpus, Get(debug, Key(code, comboKey)));
    var tpEx, tpPa, fp, fn, partners := ScoreCorpusShared(corpus, code, preds, threshold);
    row := DualRow(code, comboKey, Prf1(tpEx, fp, fn), Prf1(tpEx + tpPa, fp, fn), tpEx, fp, fn, tpPa, fp, fn);
  }

  /** The `j`-th combination of a category. */
  method EvaluateComboAt(debug: DebugData, corpus: seq<Document>, code: string, synonyms: seq<string>,
                         threshold: real, j: nat)
    returns (row: DualRow)
    requires j < |CategoryCombos(synonyms)|
    ensures ComboRowOk(debug, corpus, threshold)(row, CodeJobs(code, CategoryCombos(synonyms))[j])
  {
    var combo := CategoryCombos(synonyms)[j];
    row := EvaluateCombo(debug, corpus, code, combo, threshold);
    assert CodeJobs(code, CategoryCombos(synonyms))[j] == Job(code, combo);
  }

  /** The combination loops of one category: sizes 2 to n, each in
      `itertools.combinations` order. */
  method EvaluateCategory(debug: DebugData, corpus: seq<Document>, code: string, synonyms: seq<string>, threshold: real)
    returns (rows: seq<DualRow>)
    ensures All(ComboRowOk(debug, corpus, threshold), rows, CodeJobs(code, CategoryCombos(synonyms)))
  {
    ghost var jobs := CodeJobs(code, CategoryCombos(synonyms));
    rows := [];
    for j := 0 to |CategoryCombos(synonyms)|
      invariant All(ComboRowOk(debug, corpus, threshold), rows, jobs[..j])
    {
      var row := EvaluateComboAt(debug, corpus, code, synonyms, threshold, j);
      AllNext(ComboRowOk(debug, corpus, threshold), rows, jobs, row, j);
      rows := rows + [row];
    }
    assert jobs[..|jobs|] == jobs;
  }

  /** `evaluate_union`: one row per (category, combination), in table order. */
  method EvaluateUnion(debug: DebugData, corpus: seq<Document>, entityTypes: EntityTypes, threshold: real)
    returns (rows: seq<DualRow>)
    ensures |rows| == |ComboJobs(entityTypes)|
    ensures forall k | 0 <= k < |rows| :: ComboRow(rows[k], debug, corpus, ComboJobs(entityTypes)[k], threshold)
  {
    rows := [];
    ghost var lists := ComboJobLists(entityTypes);
    for i := 0 to |entityTypes|
      invariant All(ComboRowOk(debug, corpus, threshold), rows, Flatten(lists[..i]))
    {
      var code, synonyms := entityTypes[i].0, entityTypes[i].1;
      var block := EvaluateCategory(debug, corpus, code, synonyms, threshold);
      assert lists[i] == CodeJobs(code, CategoryCombos(synonyms));
      AllConcat(ComboRowOk(debug, corpus, threshold), rows, Flatten(lists[..i]), block, lists[i]);
      FlattenNext(lists, i);
      rows := rows + block;
    }
    assert lists[..|lists|] == lists;
    AllIndex(ComboRowOk(debug, corpus, threshold), rows, ComboJobs(entityTypes));
  }

  /** Counting partial matches as hits never lowers precision or recall: the
      partial metrics dominate the exact ones. */
  lemma PartialAtLeastExact(row: DualRow, corpus: seq<Document>, code: string, name: string, preds: seq<set<Span>>,
                            threshold: real)
    requires |preds| == |corpus| && DualScored(row, corpus, code, name, preds, threshold)
    ensures row.exact.precision <= row.partial.precision
    ensures row.exact.recall <= row.partial.recall
  {
    Prf1Monotone(row.tpEx, row.tpEx + row.tpPa, row.fpPa, row.fnPa);
  }

  /** Predicted spans that all sit on gold spans are all exact hits. */
  lemma {:induction false} ExactWhenContained(corpus: seq<Document>, code: string, preds: seq<set<Span>>)
    requires |preds| == |corpus|
    requires forall d | 0 <= d < |corpus| :: preds[d] <= GoldSpans(corpus[d], code)
    ensures ExactTotal(corpus, code, preds) == PredTotal(preds)
    decreases |corpus|
  {
    if corpus != [] {
      var n := |corpus| - 1;
      forall d | 0 <= d < n
        ensures preds[..n][d] <= GoldSpans(corpus[..n][d], code)
      {
        assert preds[..n][d] == preds[d] && corpus[..n][d] == corpus[d];
      }
      ExactWhenContained(corpus[..n], code, preds[..n]);
      assert preds[n] * GoldSpans(corpus[n], code) == preds[n];
    }
  }

  /** When every prediction is an exact gold span no partial match happens,
      and the exact and partial metrics coincide. */
  lemma NoPartialWhenContained(row: DualRow, corpus: seq<Document>, code: string, name: string, preds: seq<set<Span>>,
                            threshold: real)
    requires |preds| == |corpus| && DualScored(row, corpus, code, name, preds, threshold)
    requires forall d | 0 <= d < |corpus| :: preds[d] <= GoldSpans(corpus[d], code)
    ensures row.tpPa == 0 && row.fpPa == 0
    ensures row.exact == row.partial
  {
    ExactWhenContained(corpus, code, preds);
  }
}
