/** The corpus-level roll-up the aggregate evaluators share: per document, the
    two-phase matcher on the predicted and gold sets, with TP/FP/FN summed over
    the corpus, and the true-negative count of a category. */
module Scoring {
  import opened Spans
  import opened Utils
  import opened Seqs
  import opened Corpus
  import opened Matcher

  /** One result row: category, label (a synonym or a combination key),
      metrics and confusion counts. */
  datatype Row = Row(entityType: string, name: string, metrics: Metrics, tp: nat, fp: nat, fn: nat, tn: nat)

  /** Per document, `partners[d]` is a matching the two passes can build:
      the document's predictions paired one-to-one with its gold spans, every
      exact hit with itself and every other pair passing the threshold, and
      no unpaired prediction passing against an unpaired gold span. */
  ghost predicate Matched(score: ScoreFn, threshold: real, corpus: seq<Document>, code: string,
                          preds: seq<set<Span>>, partners: seq<map<Span, Span>>) {
    && |partners| == |corpus| == |preds|
    && forall d | 0 <= d < |corpus| :: DocMatched(score, threshold, preds[d], GoldSpans(corpus[d], code), partners[d])
  }

  ghost predicate DocMatched(score: ScoreFn, threshold: real, pred: set<Span>, gold: set<Span>, partner: map<Span, Span>) {
    Pairing(score, threshold, pred, gold, partner) && Maximal(score, threshold, pred, gold, partner)
  }

  /** The number of pairs over all documents. */
  function PairTotal(partners: seq<map<Span, Span>>): nat {
    if partners == [] then 0 else PairTotal(partners[..|partners| - 1]) + |partners[|partners| - 1]|
  }

  /** What a row reports for a category scored against per-document predicted
      sets: its true positives are the pairs of a matching the two passes
      can build on every document (`Matched`), so every exact hit is a TP and
      every prediction left out had no passing gold span left; TP + FP is the
      number of predicted spans, TP + FN the number of gold spans, the metrics
      come from the counts and TN is the category's count, whatever the
      predictions. */
  ghost predicate Scored(row: Row, corpus: seq<Document>, code: string, name: string, preds: seq<set<Span>>,
                         score: ScoreFn, threshold: real)
    requires |preds| == |corpus|
  {
    && row.entityType == code && row.name == name
    && row.tp + row.fp == PredTotal(preds)
    && row.tp + row.fn == GoldTotal(corpus, code)
    && ExactTotal(corpus, code, preds) <= row.tp
    && row.metrics == Prf1(row.tp, row.fp, row.fn)
    && row.tn == TnCount(corpus, code)
    && exists partners :: Matched(score, threshold, corpus, code, preds, partners) && row.tp == PairTotal(partners)
  }

  /** The TN loop: Σ over documents of the distinct other-category gold spans. */
  method CountTrueNegatives(corpus: seq<Document>, code: string) returns (tn: nat)
    ensures tn == TnCount(corpus, code)
  {
    tn := 0;
    for i := 0 to |corpus|
      invariant tn == TnCount(corpus[..i], code)
    {
      assert corpus[..i + 1][..i] == corpus[..i];
      tn := tn + |OtherGoldSpans(corpus[i], code)|;
    }
    assert corpus[..|corpus|] == corpus;
  }

  /** The document loop of an evaluator: the matcher on every document, its
      exact and partial true positives, false positives and false negatives
      summed. `ok` is false when the scorer raised on some document. */
  method ScoreCorpus(corpus: seq<Document>, code: string, preds: seq<set<Span>>, score: ScoreFn, threshold: real)
    returns (ok: bool, exact: nat, partial: nat, fp: nat, fn: nat, ghost partners: seq<map<Span, Span>>)
    requires |preds| == |corpus|
    ensures !ok ==> exists i | 0 <= i < |corpus| :: Raises(score, preds[i], GoldSpans(corpus[i], code))
    ensures ok ==> exact == ExactTotal(corpus, code, preds)
    ensures ok ==> exact + partial + fp == PredTotal(preds)
    ensures ok ==> exact + partial + fn == GoldTotal(corpus, code)
    ensures ok ==> Matched(score, threshold, corpus, code, preds, partners) && exact + partial == PairTotal(partners)
  {
    ok, exact, partial, fp, fn, partners := true, 0, 0, 0, 0, [];
    for i := 0 to |corpus|
      invariant Rolled(score, threshold, corpus, code, preds, i, exact, partial, fp, fn, partners)
    {
      var gold := GoldSpans(corpus[i], code);
      var docOk, t, partner := Match(preds[i], gold, score, threshold);
      if !docOk {
        ok := false;
        return;
      }
      RolledSnoc(score, threshold, corpus, code, preds, i, exact, partial, fp, fn, partners, t, partner);
      exact, partial, fp, fn := exact + t.exact, partial + t.partial, fp + t.fp, fn + t.fn;
      partners := partners + [partner];
    }
    assert corpus[..|corpus|] == corpus;
    assert preds[..|preds|] == preds;
  }

  /** The invariant of the document loop once the first `n` documents are
      scored. */
  ghost predicate Rolled(score: ScoreFn, threshold: real, corpus: seq<Document>, code: string, preds: seq<set<Span>>,
                         n: nat, exact: nat, partial: nat, fp: nat, fn: nat, partners: seq<map<Span, Span>>) {
    && n <= |corpus| == |preds| && |partners| == n
    && exact == ExactTotal(corpus[..n], code, preds[..n])
    && exact + partial + fp == PredTotal(preds[..n])
    && exact + partial + fn == GoldTotal(corpus[..n], code)
    && exact + partial == PairTotal(partners)
    && forall d | 0 <= d < n :: DocMatched(score, threshold, preds[d], GoldSpans(corpus[d], code), partners[d])
  }

  /** Adding one document's tally and matching keeps the loop invariant. */
  lemma RolledSnoc(score: ScoreFn, threshold: real, corpus: seq<Document>, code: string, preds: seq<set<Span>>,
                   n: nat, exact: nat, partial: nat, fp: nat, fn: nat, partners: seq<map<Span, Span>>,
                   t: Tally, partner: map<Span, Span>)
    requires Rolled(score, threshold, corpus, code, preds, n, exact, partial, fp, fn, partners) && n < |corpus|
    requires DocMatched(score, threshold, preds[n], GoldSpans(corpus[n], code), partner)
    requires t.exact == |preds[n] * GoldSpans(corpus[n], code)| && t.exact + t.partial == |partner|
    requires t.exact + t.partial + t.fp == |preds[n]| && t.exact + t.partial + t.fn == |GoldSpans(corpus[n], code)|
    ensures Rolled(score, threshold, corpus, code, preds, n + 1, exact + t.exact, partial + t.partial,
                   fp + t.fp, fn + t.fn, partners + [partner])
  {
    assert corpus[..n + 1][..n] == corpus[..n];
    assert preds[..n + 1][..n] == preds[..n];
    assert (partners + [partner])[..n] == partners;
  }

  /** With the shared `jaccard` the document loop always finishes. */
  method ScoreCorpusShared(corpus: seq<Document>, code: string, preds: seq<set<Span>>, threshold: real)
    returns (exact: nat, partial: nat, fp: nat, fn: nat, ghost partners: seq<map<Span, Span>>)
    requires |preds| == |corpus|
    ensures exact == ExactTotal(corpus, code, preds)
    ensures exact + partial + fp == PredTotal(preds)
    ensures exact + partial + fn == GoldTotal(corpus, code)
    ensures Matched(ScoreOf(SharedJaccard), threshold, corpus, code, preds, partners)
    ensures exact + partial == PairTotal(partners)
  {
    var ok;
    ok, exact, partial, fp, fn, partners := ScoreCorpus(corpus, code, preds, ScoreOf(SharedJaccard), threshold);
    forall i | 0 <= i < |corpus|
      ensures !Raises(ScoreOf(SharedJaccard), preds[i], GoldSpans(corpus[i], code))
    {
      SharedNeverRaises(preds[i], GoldSpans(corpus[i], code));
    }
  }

  /** The document loop followed by `prf1` and the result row, with the
      category's TN: the row is the scored row unless the scorer raised on
      some document. */
  method ScoreRow(corpus: seq<Document>, code: string, name: string, preds: seq<set<Span>>, score: ScoreFn,
                  threshold: real, tn: nat)
    returns (ok: bool, row: Row)
    requires |preds| == |corpus| && tn == TnCount(corpus, code)
    ensures ok ==> Scored(row, corpus, code, name, preds, score, threshold)
    ensures !ok ==> exists i | 0 <= i < |corpus| :: Raises(score, preds[i], GoldSpans(corpus[i], code))
  {
    var exact, partial, fp, fn;
    ghost var partners;
    ok, exact, partial, fp, fn, partners := ScoreCorpus(corpus, code, preds, score, threshold);
    var tp := exact + partial;
    row := Row(code, name, Prf1(tp, fp, fn), tp, fp, fn, tn);
  }

  /** With the shared `jaccard` the row is always the scored row. */
  method ScoreRowShared(corpus: seq<Document>, code: string, name: string, preds: seq<set<Span>>, threshold: real, tn: nat)
    returns (row: Row)
    requires |preds| == |corpus| && tn == TnCount(corpus, code)
    ensures Scored(row, corpus, code, name, preds, ScoreOf(SharedJaccard), threshold)
  {
    var exact, partial, fp, fn, partners := ScoreCorpusShared(corpus, code, preds, threshold);
    var tp := exact + partial;
    row := Row(code, name, Prf1(tp, fp, fn), tp, fp, fn, tn);
  }

  /** A scored row cannot drop a passing pair: with one document holding one
      prediction and one gold span that score at least the threshold, the
      prediction is a true positive, exact or not. */
  lemma PassingPairCounted(row: Row, corpus: seq<Document>, code: string, name: string, preds: seq<set<Span>>,
                           score: ScoreFn, threshold: real, p: Span, g: Span)
    requires |corpus| == 1 && preds == [{p}] && GoldSpans(corpus[0], code) == {g}
    requires Passes(score, p, g, threshold)
    requires Scored(row, corpus, code, name, preds, score, threshold)
    ensures row.tp == 1 && row.fp == 0 && row.fn == 0
  {
    var partners :| Matched(score, threshold, corpus, code, preds, partners) && row.tp == PairTotal(partners);
    SinglePair(score, threshold, p, g, partners[0]);
    assert partners[..0] == [] && preds[..0] == [] && corpus[..0] == [];
    assert PairTotal(partners) == 1;
    assert PredTotal(preds) == 1 && GoldTotal(corpus, code) == 1;
  }

  /** A matching of one prediction with one gold span it passes against
      pairs them. */
  lemma SinglePair(score: ScoreFn, threshold: real, p: Span, g: Span, partner: map<Span, Span>)
    requires Passes(score, p, g, threshold) && DocMatched(score, threshold, {p}, {g}, partner)
    ensures |partner| == 1
  {
    assert !Fails(score, p, g, threshold);
    assert p in partner || g in partner.Values;
    if g in partner.Values {
      var k :| k in partner && partner[k] == g;
      assert k == p;
    }
    assert partner.Keys == {p};
  }

  /** One evaluation a result row is produced for: a category and the
      synonyms whose predictions it scores. */
  datatype Job = Job(code: string, combo: seq<string>)

  /** The jobs of one category, in the order of its label list. */
  function CodeJobs(code: string, combos: seq<seq<string>>): (r: seq<Job>)
    ensures |r| == |combos|
    ensures forall j | 0 <= j < |combos| :: r[j] == Job(code, combos[j])
  {
    seq(|combos|, j requires 0 <= j < |combos| => Job(code, combos[j]))
  }

  /** Each synonym on its own. */
  function Singletons(s: seq<string>): (r: seq<seq<string>>)
    ensures |r| == |s|
    ensures forall j | 0 <= j < |s| :: r[j] == [s[j]]
  {
    seq(|s|, j requires 0 <= j < |s| => [s[j]])
  }
}
