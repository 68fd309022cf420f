/** The per-synonym evaluator: every synonym of every category is scored on
    its own predictions against the category's gold spans. */
module EvaluationIndiv {
  import opened Spans
  import opened Utils
  import opened Seqs
  import opened Corpus
  import opened Scoring
  import opened Matcher

  /** The jobs of each category: one per synonym, in declaration order. */
  function SynonymJobLists(et: EntityTypes): (r: seq<seq<Job>>)
    ensures |r| == |et|
    ensures forall i | 0 <= i < |et| :: r[i] == CodeJobs(et[i].0, Singletons(et[i].1))
  {
    seq(|et|, i requires 0 <= i < |et| => CodeJobs(et[i].0, Singletons(et[i].1)))
  }

  /** All rows' jobs in order: categories in table order, then synonyms. */
  function SynonymJobs(et: EntityTypes): seq<Job> {
    Flatten(SynonymJobLists(et))
  }

  /** The predicted sets of a synonym: per document, the distinct spans stored
      under `code__synonym` for that document. */
  function SynonymPreds(debug: DebugData, corpus: seq<Document>, code: string, synonym: string): (r: seq<set<Span>>)
    ensures |r| == |corpus|
  {
    PerDoc(corpus, Get(debug, Key(code, synonym)))
  }

  /** The row of a single-synonym job. */
  ghost predicate SynonymRow(row: Row, debug: DebugData, corpus: seq<Document>, job: Job, threshold: real) {
    |job.combo| == 1
    && Scored(row, corpus, job.code, job.combo[0], SynonymPreds(debug, corpus, job.code, job.combo[0]),
              ScoreOf(SharedJaccard), threshold)
  }

  ghost function SynonymRowOk(debug: DebugData, corpus: seq<Document>, threshold: real): (Row, Job) -> bool {
    (row, job) => SynonymRow(row, debug, corpus, job, threshold)
  }

  /** The body of the synonym loop: the synonym's predictions scored on
      every document and rolled up into one row. */
  method EvaluateSynonym(debug: DebugData, corpus: seq<Document>, code: string, synonym: string,
                         tn: nat, threshold: real)
    returns (row: Row)
    requires tn == TnCount(corpus, code)
    ensures SynonymRow(row, debug, corpus, Job(code, [synonym]), threshold)
  {
    var preds := SynonymPreds(debug, corpus, code, synonym);
    row := ScoreRowShared(corpus, code, synonym, preds, threshold, tn);
  }

  /** The synonym loop of one category: one row per synonym, in order, all
      with the category's TN. */
  method EvaluateCategory(debug: DebugData, corpus: seq<Document>, code: string, synonyms: seq<string>,
                          tn: nat, threshold: real)
    returns (rows: seq<Row>)
    requires tn == TnCount(corpus, code)
    ensures All(SynonymRowOk(debug, corpus, threshold), rows, CodeJobs(code, Singletons(synonyms)))
  {
    rows := [];
    ghost var jobs := CodeJobs(code, Singletons(synonyms));
    for j := 0 to |synonyms|
      invariant All(SynonymRowOk(debug, corpus, threshold), rows, jobs[..j])
    {
      var row := EvaluateSynonym(debug, corpus, code, synonyms[j], tn, threshold);
      assert jobs[j] == Job(code, [synonyms[j]]);
      AllNext(SynonymRowOk(debug, corpus, threshold), rows, jobs, row, j);
      rows := rows + [row];
    }
    assert jobs[..|synonyms|] == jobs;
  }

  /** `evaluate_individual_synonyms`: one row per (category, synonym), in
      table order, each scored by the matcher with the shared `jaccard`. */
  method EvaluateIndividualSynonyms(debug: DebugData, corpus: seq<Document>, entityTypes: EntityTypes, threshold: real)
    returns (rows: seq<Row>)
    ensures |rows| == |SynonymJobs(entityTypes)|
    ensures forall k | 0 <= k < |rows| :: SynonymRow(rows[k], debug, corpus, SynonymJobs(entityTypes)[k], threshold)
  {
    rows := [];
    ghost var lists := SynonymJobLists(entityTypes);
    for i := 0 to |entityTypes|
      invariant All(SynonymRowOk(debug, corpus, threshold), rows, Flatten(lists[..i]))
    {
      var code, synonyms := entityTypes[i].0, entityTypes[i].1;
      var tn := CountTrueNegatives(corpus, code);
      var block := EvaluateCategory(debug, corpus, code, synonyms, tn, threshold);
      AllConcat(SynonymRowOk(debug, corpus, threshold), rows, Flatten(lists[..i]), block, lists[i]);
      FlattenNext(lists, i);
      rows := rows + block;
    }
    assert lists[..|lists|] == lists;
    AllIndex(SynonymRowOk(debug, corpus, threshold), rows, SynonymJobs(entityTypes));
  }
}
