/** The trace extractor: for every gold document and every category found in
    the gold data, one record per true positive, false positive and false
    negative, and one record counting the true negatives. Unlike the
    aggregate evaluators, its partial phase gives each prediction the
    remaining gold span of highest Jaccard score. */
module Trace {
  import opened Wrappers
  import opened Spans
  import opened Utils
  import opened Seqs
  import opened PyStr
  import opened Corpus

  /** One predicted entity of a prediction document. */
  datatype PredEntity = PredEntity(code: string, span: Span, entity: string, score: Option<real>)

  /** One prediction document; a document without `"entities"` has none. */
  datatype PredDoc = PredDoc(textId: string, text: string, entities: seq<PredEntity>)

  datatype Status = TP | FP | FN | TN

  /** The trace records, one constructor per record shape. */
  datatype Trace =
    | ExactHit(textId: string, span: Span, entityText: string, goldEntity: string,
               predictedText: string, predictedEntity: string, code: string, score: Option<real>)
    | PartialHit(textId: string, span: Span, entityText: string, goldEntity: string, predictedSpan: Span,
                 predictedText: string, predictedEntity: string, jaccardScore: real, code: string,
                 score: Option<real>)
    | Spurious(textId: string, span: Span, entityText: string, predictedEntity: string, code: string,
               score: Option<real>)
    | Missed(textId: string, span: Span, entityText: string, goldEntity: string, code: string)
    | Negatives(textId: string, code: string, count: nat)

  /** The record's `"status"` field. */
  function StatusOf(t: Trace): Status {
    if t.ExactHit? || t.PartialHit? then TP
    else if t.Spurious? then FP
    else if t.Missed? then FN
    else TN
  }

  /** The number of records of a status for a document and a category. */
  function Count(traces: seq<Trace>, id: string, code: string, st: Status): nat {
    if traces == [] then 0
    else
      var t := traces[|traces| - 1];
      Count(traces[..|traces| - 1], id, code, st)
        + (if t.textId == id && t.code == code && StatusOf(t) == st then 1 else 0)
  }

  lemma {:induction false} CountAppend(a: seq<Trace>, b: seq<Trace>, id: string, code: string, st: Status)
    ensures Count(a + b, id, code, st) == Count(a, id, code, st) + Count(b, id, code, st)
    decreases |b|
  {
    if b == [] {
      assert a + b == a;
    } else {
      var n := |b| - 1;
      assert (a + b)[..|a + b| - 1] == a + b[..n];
      CountAppend(a, b[..n], id, code, st);
    }
  }

  /** Records of other documents or categories do not count. */
  lemma {:induction false} CountAbsent(a: seq<Trace>, id: string, code: string, st: Status)
    requires forall k | 0 <= k < |a| :: a[k].textId != id || a[k].code != code
    ensures Count(a, id, code, st) == 0
    decreases |a|
  {
    if a != [] {
      CountAbsent(a[..|a| - 1], id, code, st);
    }
  }

  /** Records all of one document, category and status. */
  predicate Uniform(a: seq<Trace>, id: string, code: string, st: Status) {
    forall k | 0 <= k < |a| :: a[k].textId == id && a[k].code == code && StatusOf(a[k]) == st
  }

  lemma {:induction false} UniformCount(a: seq<Trace>, id: string, code: string, st: Status, st': Status)
    requires Uniform(a, id, code, st)
    ensures Count(a, id, code, st') == if st' == st then |a| else 0
    decreases |a|
  {
    if a != [] {
      UniformCount(a[..|a| - 1], id, code, st, st');
    }
  }

  /** The records of a document and a category, in their order. */
  function Block(traces: seq<Trace>, id: string, code: string): (blk: seq<Trace>)
    ensures |blk| <= |traces|
  {
    if traces == [] then []
    else
      var t := traces[|traces| - 1];
      Block(traces[..|traces| - 1], id, code) + (if t.textId == id && t.code == code then [t] else [])
  }

  lemma {:induction false} BlockAppend(a: seq<Trace>, b: seq<Trace>, id: string, code: string)
    ensures Block(a + b, id, code) == Block(a, id, code) + Block(b, id, code)
    decreases |b|
  {
    if b == [] {
      assert a + b == a;
    } else {
      var n := |b| - 1;
      assert (a + b)[..|a + b| - 1] == a + b[..n];
      BlockAppend(a, b[..n], id, code);
    }
  }

  /** A list with no record of the document and category has an empty block. */
  lemma {:induction false} BlockAbsent(a: seq<Trace>, id: string, code: string)
    requires forall k | 0 <= k < |a| :: a[k].textId != id || a[k].code != code
    ensures Block(a, id, code) == []
    decreases |a|
  {
    if a != [] {
      BlockAbsent(a[..|a| - 1], id, code);
    }
  }

  /** A list all of the document and category is its own block. */
  lemma {:induction false} BlockWhole(a: seq<Trace>, id: string, code: string)
    requires forall k | 0 <= k < |a| :: a[k].textId == id && a[k].code == code
    ensures Block(a, id, code) == a
    decreases |a|
  {
    if a != [] {
      BlockWhole(a[..|a| - 1], id, code);
    }
  }

  /** The Jaccard score of two spans' position sets, with the shared
      `jaccard` (0.0 when both are empty). */
  function Similarity(p: Span, g: Span): (r: real)
    ensures 0.0 <= r <= 1.0
  {
    Jaccard(SpanToSet(p), SpanToSet(g))
  }

  /** A gold span a prediction may be paired with: at least the threshold,
      and above the initial best score 0.0. */
  predicate Eligible(p: Span, g: Span, threshold: real) {
    Similarity(p, g) >= threshold && Similarity(p, g) > 0.0
  }

  /** The inner loop of the partial phase: the first candidate of strictly
      greatest score among those reaching the threshold. The chosen span is
      returned as its index in the candidate list. */
  method BestGold(p: Span, cands: seq<Span>, threshold: real) returns (best: Option<nat>, bestScore: real)
    ensures best.None? ==> forall j | 0 <= j < |cands| :: !Eligible(p, cands[j], threshold)
    ensures best.Some? ==> best.value < |cands| && Eligible(p, cands[best.value], threshold)
                           && bestScore == Similarity(p, cands[best.value])
    ensures best.Some? ==> forall j | 0 <= j < |cands| && Eligible(p, cands[j], threshold) ::
                             Similarity(p, cands[j]) <= bestScore
    ensures best.Some? ==> forall j | 0 <= j < best.value && Eligible(p, cands[j], threshold) ::
                             Similarity(p, cands[j]) < bestScore
  {
    best, bestScore := None, 0.0;
    for k := 0 to |cands|
      invariant best.None? ==> bestScore == 0.0 && forall j | 0 <= j < k :: !Eligible(p, cands[j], threshold)
      invariant best.Some? ==> best.value < k && Eligible(p, cands[best.value], threshold)
                               && bestScore == Similarity(p, cands[best.value])
      invariant best.Some? ==> forall j | 0 <= j < k && Eligible(p, cands[j], threshold) ::
                                 Similarity(p, cands[j]) <= bestScore
      invariant best.Some? ==> forall j | 0 <= j < best.value && Eligible(p, cands[j], threshold) ::
                                 Similarity(p, cands[j]) < bestScore
    {
      var score := Jaccard(SpanToSet(p), SpanToSet(cands[k]));
      if score >= threshold && score > bestScore {
        best, bestScore := Some(k), score;
      }
    }
  }

  /** `g` is the first of the candidates, in their order, of strictly
      greatest score among those reaching the threshold. */
  predicate BestAmong(p: Span, g: Span, cands: seq<Span>, threshold: real) {
    && g in cands && Eligible(p, g, threshold)
    && (forall j | 0 <= j < |cands| && Eligible(p, cands[j], threshold) :: Similarity(p, cands[j]) <= Similarity(p, g))
    && (forall i, j | 0 <= j < i < |cands| && cands[i] == g && Eligible(p, cands[j], threshold) ::
          Similarity(p, cands[j]) < Similarity(p, g))
  }

  /** The candidate `BestGold` returns is the best one, when the candidates
      have no repeats. */
  lemma ChosenIsBest(p: Span, cands: seq<Span>, b: nat, bestScore: real, threshold: real)
    requires Distinct(cands) && b < |cands| && Eligible(p, cands[b], threshold)
    requires bestScore == Similarity(p, cands[b])
    requires forall j | 0 <= j < |cands| && Eligible(p, cands[j], threshold) :: Similarity(p, cands[j]) <= bestScore
    requires forall j | 0 <= j < b && Eligible(p, cands[j], threshold) :: Similarity(p, cands[j]) < bestScore
    ensures BestAmong(p, cands[b], cands, threshold)
  {
    forall i, j | 0 <= j < i < |cands| && cands[i] == cands[b] && Eligible(p, cands[j], threshold)
      ensures Similarity(p, cands[j]) < Similarity(p, cands[b])
    {
      assert i == b;
    }
  }

  /** At most one candidate is the best one. */
  lemma BestAmongUnique(p: Span, g: Span, g': Span, cands: seq<Span>, threshold: real)
    requires BestAmong(p, g, cands, threshold) && BestAmong(p, g', cands, threshold)
    ensures g == g'
  {
    var i :| 0 <= i < |cands| && cands[i] == g;
    var i' :| 0 <= i' < |cands| && cands[i'] == g';
    assert !(i < i') && !(i' < i);
  }

  /** Removing one element of a list without repeats removes it from the set
      of elements and keeps the rest without repeats. */
  lemma RemoveAt(xs: seq<Span>, k: nat)
    requires k < |xs| && Distinct(xs)
    ensures Distinct(xs[..k] + xs[k + 1..])
    ensures Elems(xs[..k] + xs[k + 1..]) == Elems(xs) - {xs[k]}
  {
    RemoveAtDistinct(xs, k);
    RemoveAtElems(xs, k);
  }

  lemma RemoveAtDistinct(xs: seq<Span>, k: nat)
    requires k < |xs| && Distinct(xs)
    ensures Distinct(xs[..k] + xs[k + 1..])
  {
    var ys := xs[..k] + xs[k + 1..];
    forall i, j | 0 <= i < j < |ys| ensures ys[i] != ys[j] {
      var i' := if i < k then i else i + 1;
      var j' := if j < k then j else j + 1;
      assert ys[i] == xs[i'] && ys[j] == xs[j'];
    }
  }

  lemma RemoveAtElems(xs: seq<Span>, k: nat)
    requires k < |xs| && Distinct(xs)
    ensures Elems(xs[..k] + xs[k + 1..]) == Elems(xs) - {xs[k]}
  {
    var ys := xs[..k] + xs[k + 1..];
    forall x ensures x in Elems(ys) <==> x in Elems(xs) - {xs[k]} {
      if x in Elems(ys) {
        var i :| 0 <= i < |ys| && ys[i] == x;
        var i' := if i < k then i else i + 1;
        assert ys[i] == xs[i'];
      }
      if x in Elems(xs) - {xs[k]} {
        var i :| 0 <= i < |xs| && xs[i] == x;
        if i < k {
          assert ys[i] == x;
        } else {
          assert ys[i - 1] == x;
        }
      }
    }
  }

  /** `[ent for ent in gold_doc["entities"] if ent["code_entity"] == code]` */
  function GoldOf(ents: seq<GoldEntity>, code: string): seq<GoldEntity> {
    if ents == [] then []
    else
      var r := GoldOf(ents[..|ents| - 1], code);
      if ents[|ents| - 1].code == code then r + [ents[|ents| - 1]] else r
  }

  /** `[ent for ent in pred_doc.get("entities", []) if ent["code_entity"] == code]` */
  function PredOf(ents: seq<PredEntity>, code: string): seq<PredEntity> {
    if ents == [] then []
    else
      var r := PredOf(ents[..|ents| - 1], code);
      if ents[|ents| - 1].code == code then r + [ents[|ents| - 1]] else r
  }

  function GoldKey(): GoldEntity -> Span { (e: GoldEntity) => e.span }
  function PredKey(): PredEntity -> Span { (e: PredEntity) => e.span }

  /** `gold_map`, keyed by span, the last entity of a span winning. */
  function GoldMap(ents: seq<GoldEntity>): map<Span, GoldEntity> { Index(ents, GoldKey()) }

  /** `pred_map` */
  function PredMap(ents: seq<PredEntity>): map<Span, PredEntity> { Index(ents, PredKey()) }

  /** The keys of `gold_map` in insertion order. */
  function GoldKeys(ents: seq<GoldEntity>): seq<Span> { FirstSeen(KeyList(ents, GoldKey())) }

  /** The keys of `pred_map` in insertion order. */
  function PredKeys(ents: seq<PredEntity>): seq<Span> { FirstSeen(KeyList(ents, PredKey())) }

  /** The distinct predicted spans of a category in a prediction document. */
  function PredSpansOf(doc: PredDoc, code: string): set<Span> {
    set e | e in doc.entities && e.code == code :: e.span
  }

  /** `other_gold_spans`: the spans of the other categories' entities, one per
      entity, repeats included. */
  function OtherSpans(ents: seq<GoldEntity>, code: string): seq<Span> {
    if ents == [] then []
    else
      var r := OtherSpans(ents[..|ents| - 1], code);
      if ents[|ents| - 1].code != code then r + [ents[|ents| - 1].span] else r
  }

  /** The category's gold entities carry exactly the document's gold spans. */
  lemma {:induction false} GoldOfSpans(ents: seq<GoldEntity>, code: string)
    ensures Elems(KeyList(GoldOf(ents, code), GoldKey())) == CodeSpans(ents, code, true)
    decreases |ents|
  {
    if ents != [] {
      var n := |ents| - 1;
      GoldOfSpans(ents[..n], code);
      var r := GoldOf(ents[..n], code);
      if ents[n].code == code {
        assert KeyList(r + [ents[n]], GoldKey()) == KeyList(r, GoldKey()) + [ents[n].span];
        assert Elems(KeyList(r, GoldKey()) + [ents[n].span]) == Elems(KeyList(r, GoldKey())) + {ents[n].span};
      }
    }
  }

  /** The category's predicted entities carry exactly its predicted spans. */
  lemma {:induction false} PredOfSpans(ents: seq<PredEntity>, code: string)
    ensures Elems(KeyList(PredOf(ents, code), PredKey())) == set e | e in ents && e.code == code :: e.span
    decreases |ents|
  {
    if ents != [] {
      var n := |ents| - 1;
      PredOfSpans(ents[..n], code);
      var r := PredOf(ents[..n], code);
      assert ents == ents[..n] + [ents[n]];
      if ents[n].code == code {
        assert KeyList(r + [ents[n]], PredKey()) == KeyList(r, PredKey()) + [ents[n].span];
        assert Elems(KeyList(r, PredKey()) + [ents[n].span]) == Elems(KeyList(r, PredKey())) + {ents[n].span};
      }
    }
  }

  /** `gold_doc["text"][span[0]:span[1]]` */
  function TextAt(text: string, s: Span): string {
    PySlice(text, s.start, s.end)
  }

  /** The record of an exact hit on `s`. */
  function ExactTrace(id: string, gdoc: Document, pdoc: PredDoc, code: string, g: GoldEntity, p: PredEntity, s: Span): Trace {
    ExactHit(id, s, TextAt(gdoc.text, s), g.entity, TextAt(pdoc.text, s), p.entity, code, p.score)
  }

  /** The record of a partial hit pairing prediction `ps` with gold `gs`. */
  function PartialTrace(id: string, gdoc: Document, pdoc: PredDoc, code: string, g: GoldEntity, p: PredEntity,
                        ps: Span, gs: Span): Trace {
    PartialHit(id, gs, TextAt(gdoc.text, gs), g.entity, ps, TextAt(pdoc.text, ps), p.entity, Similarity(ps, gs), code, p.score)
  }

  /** The record of an unmatched prediction. */
  function SpuriousTrace(id: string, pdoc: PredDoc, code: string, p: PredEntity, s: Span): Trace {
    Spurious(id, s, TextAt(pdoc.text, s), p.entity, code, p.score)
  }

  /** The record of an unmatched gold span. */
  function MissedTrace(id: string, gdoc: Document, code: string, g: GoldEntity, s: Span): Trace {
    Missed(id, s, TextAt(gdoc.text, s), g.entity, code)
  }

  /** What the phases work with: the document, category and maps, and the
      threshold. */
  datatype Context = Context(id: string, gdoc: Document, pdoc: PredDoc, code: string,
                             gmap: map<Span, GoldEntity>, pmap: map<Span, PredEntity>, threshold: real)

  /** The spans of the records, except the true-negative count. */
  function SpanSet(out: seq<Trace>): set<Span> {
    set t | t in out && !t.Negatives? :: t.span
  }

  /** A record of phase 1: an exact hit on a span of `exact`, built from the
      two maps' entities for that span. */
  predicate ExactRecord(t: Trace, c: Context, exact: set<Span>) {
    t.ExactHit? && t.span in exact && t.span in c.gmap && t.span in c.pmap
    && t == ExactTrace(c.id, c.gdoc, c.pdoc, c.code, c.gmap[t.span], c.pmap[t.span], t.span)
  }

  predicate ExactRecords(out: seq<Trace>, c: Context, exact: set<Span>) {
    forall k | 0 <= k < |out| :: ExactRecord(out[k], c, exact)
  }

  lemma SpanSetSnoc(out: seq<Trace>, t: Trace)
    requires !t.Negatives?
    ensures SpanSet(out + [t]) == SpanSet(out) + {t.span}
  {
  }

  /** Phase 1: one exact hit per span present in both maps, in set order. */
  method ExactPhase(c: Context, exact: set<Span>) returns (out: seq<Trace>)
    requires exact <= c.gmap.Keys && exact <= c.pmap.Keys
    ensures |out| == |exact| && SpanSet(out) == exact
    ensures ExactRecords(out, c, exact)
  {
    out := [];
    var left := exact;
    while left != {}
      invariant left <= exact
      invariant |out| + |left| == |exact|
      invariant SpanSet(out) == exact - left
      invariant ExactRecords(out, c, exact)
      decreases left
    {
      var s :| s in left;
      var t := ExactTrace(c.id, c.gdoc, c.pdoc, c.code, c.gmap[s], c.pmap[s], s);
      SpanSetSnoc(out, t);
      assert ExactRecord(t, c, exact);
      assert |left - {s}| == |left| - 1;
      out := out + [t];
      left := left - {s};
    }
  }

  /** A record of phase 2: a partial hit pairing an eligible prediction and
      gold span, built from the two maps' entities. */
  predicate PartialRecord(t: Trace, c: Context, matchedPred: set<Span>, matchedGold: set<Span>) {
    t.PartialHit? && t.predictedSpan in matchedPred && t.span in matchedGold
    && t.predictedSpan in c.pmap && t.span in c.gmap
    && Eligible(t.predictedSpan, t.span, c.threshold)
    && t == PartialTrace(c.id, c.gdoc, c.pdoc, c.code, c.gmap[t.span], c.pmap[t.predictedSpan], t.predictedSpan, t.span)
  }

  /** The phase-2 records: each pairs its prediction with the best gold span
      of `golds` not taken by an earlier record, in the order of `golds`. */
  predicate PartialRecords(out: seq<Trace>, c: Context, matchedPred: set<Span>, matchedGold: set<Span>, golds: seq<Span>) {
    forall k | 0 <= k < |out| :: PartialAt(out, k, c, matchedPred, matchedGold, golds)
  }

  /** The record at index `k` pairs its prediction with the best gold span of
      `golds` that no record before it took. */
  predicate PartialAt(out: seq<Trace>, k: int, c: Context, matchedPred: set<Span>, matchedGold: set<Span>, golds: seq<Span>) {
    && 0 <= k < |out|
    && PartialRecord(out[k], c, matchedPred, matchedGold)
    && BestAmong(out[k].predictedSpan, out[k].span, FilterOut(golds, SpanSet(out[..k])), c.threshold)
  }

  /** No prediction left unmatched has an eligible gold span left unmatched. */
  predicate Exhausted(preds: set<Span>, golds: set<Span>, threshold: real) {
    forall p, g | p in preds && g in golds :: !Eligible(p, g, threshold)
  }

  /** The gold spans a list of (prediction, gold) pairs takes. */
  function Taken(pairs: seq<(Span, Span)>): set<Span> {
    set q | q in pairs :: q.1
  }

  /** Phase 2 as a specification, independent of the loop's variables: the
      predictions, in list order, each take the best eligible gold span of
      `golds` that no earlier prediction took, or nothing when none is left.
      Which pairs come out depends on the order of `preds`. */
  ghost function PartialPairs(preds: seq<Span>, golds: seq<Span>, threshold: real): seq<(Span, Span)> {
    if preds == [] then []
    else
      var pairs := PartialPairs(preds[..|preds| - 1], golds, threshold);
      var p := preds[|preds| - 1];
      var left := FilterOut(golds, Taken(pairs));
      if exists g :: BestAmong(p, g, left, threshold) then
        var g :| BestAmong(p, g, left, threshold);
        pairs + [(p, g)]
      else
        pairs
  }

  /** The records of `out` are partial hits carrying the pairs of `pairs`, in
      order. */
  predicate Follows(out: seq<Trace>, pairs: seq<(Span, Span)>) {
    |out| == |pairs|
    && forall k | 0 <= k < |out| :: out[k].PartialHit? && (out[k].predictedSpan, out[k].span) == pairs[k]
  }

  lemma FollowsTaken(out: seq<Trace>, pairs: seq<(Span, Span)>)
    requires Follows(out, pairs)
    ensures SpanSet(out) == Taken(pairs)
  {
    forall s ensures s in SpanSet(out) <==> s in Taken(pairs) {
      if s in SpanSet(out) {
        var t :| t in out && !t.Negatives? && t.span == s;
        var k :| 0 <= k < |out| && out[k] == t;
        assert pairs[k] in pairs;
      }
      if s in Taken(pairs) {
        var q :| q in pairs && q.1 == s;
        var k :| 0 <= k < |pairs| && pairs[k] == q;
        assert out[k] in out;
      }
    }
  }

  /** A prediction paired with the best gold span left extends the
      specification by that pair. */
  lemma PairedFollows(out: seq<Trace>, t: Trace, handled: seq<Span>, golds: seq<Span>, p: Span, g: Span, threshold: real)
    requires Follows(out, PartialPairs(handled, golds, threshold))
    requires t.PartialHit? && t.predictedSpan == p && t.span == g
    requires BestAmong(p, g, FilterOut(golds, SpanSet(out)), threshold)
    ensures Follows(out + [t], PartialPairs(handled + [p], golds, threshold))
  {
    FollowsTaken(out, PartialPairs(handled, golds, threshold));
    PairsTake(handled, p, golds, g, threshold);
  }


  /** A prediction with no eligible gold span left leaves the specification
      unchanged. */
  lemma SkippedFollows(out: seq<Trace>, handled: seq<Span>, golds: seq<Span>, p: Span, threshold: real)
    requires Follows(out, PartialPairs(handled, golds, threshold))
    requires forall j | 0 <= j < |FilterOut(golds, SpanSet(out))| :: !Eligible(p, FilterOut(golds, SpanSet(out))[j], threshold)
    ensures Follows(out, PartialPairs(handled + [p], golds, threshold))
  {
    var left := FilterOut(golds, SpanSet(out));
    FollowsTaken(out, PartialPairs(handled, golds, threshold));
    forall g | g in left ensures !Eligible(p, g, threshold) {
      var j :| 0 <= j < |left| && left[j] == g;
    }
    PairsSkip(handled, p, golds, threshold);
  }

  /** A prediction whose best eligible gold span among those left is `g`
      adds the pair (`p`, `g`). */
  lemma PairsTake(preds: seq<Span>, p: Span, golds: seq<Span>, g: Span, threshold: real)
    requires BestAmong(p, g, FilterOut(golds, Taken(PartialPairs(preds, golds, threshold))), threshold)
    ensures PartialPairs(preds + [p], golds, threshold) == PartialPairs(preds, golds, threshold) + [(p, g)]
  {
    var pairs := PartialPairs(preds, golds, threshold);
    var left := FilterOut(golds, Taken(pairs));
    assert (preds + [p])[..|preds|] == preds;
    assert exists g' :: BestAmong(p, g', left, threshold);
    var r := PartialPairs(preds + [p], golds, threshold);
    assert r == pairs + [r[|pairs|]] && BestAmong(p, r[|pairs|].1, left, threshold);
    BestAmongUnique(p, g, r[|pairs|].1, left, threshold);
  }

  /** A prediction with no eligible gold span left adds no pair. */
  lemma PairsSkip(preds: seq<Span>, p: Span, golds: seq<Span>, threshold: real)
    requires forall g | g in FilterOut(golds, Taken(PartialPairs(preds, golds, threshold))) :: !Eligible(p, g, threshold)
    ensures PartialPairs(preds + [p], golds, threshold) == PartialPairs(preds, golds, threshold)
  {
    assert (preds + [p])[..|preds|] == preds;
  }

  /** The order of the predictions decides the pairs: with threshold 0.7,
      (0, 10) then (0, 8) against gold (0, 9), (2, 10) gives one partial hit,
      as (0, 10) takes (0, 9) and (0, 8) scores 0.6 with (2, 10); the
      opposite order gives two. */
  lemma PartialOrderMatters()
    ensures PartialPairs([Span(0, 10), Span(0, 8)], [Span(0, 9), Span(2, 10)], 0.7) == [(Span(0, 10), Span(0, 9))]
    ensures PartialPairs([Span(0, 8), Span(0, 10)], [Span(0, 9), Span(2, 10)], 0.7)
            == [(Span(0, 8), Span(0, 9)), (Span(0, 10), Span(2, 10))]
  {
    var a, b, g1, g2 := Span(0, 10), Span(0, 8), Span(0, 9), Span(2, 10);
    ExampleScores();
    BestOfTwo(a, g1, g2, 0.7);
    TakenThenSkipped(a, b, g1, g2, 0.7);
    BestOfTwo(b, g1, g2, 0.7);
    BestOfOne(a, g2, 0.7);
    TakenTwice(b, a, g1, g2, 0.7);
  }

  /** The scores of the example's four pairs. */
  lemma ExampleScores()
    ensures Similarity(Span(0, 10), Span(0, 9)) == 0.9 && Similarity(Span(0, 10), Span(2, 10)) == 0.8
    ensures Similarity(Span(0, 8), Span(0, 9)) == 8.0 / 9.0 && Similarity(Span(0, 8), Span(2, 10)) == 0.6
  {
    SpanJaccard(Span(0, 10), Span(0, 9));
    SpanJaccard(Span(0, 10), Span(2, 10));
    SpanJaccard(Span(0, 8), Span(0, 9));
    SpanJaccard(Span(0, 8), Span(2, 10));
  }

  lemma BestOfTwo(p: Span, g1: Span, g2: Span, threshold: real)
    requires g1 != g2 && Eligible(p, g1, threshold) && Similarity(p, g2) <= Similarity(p, g1)
    ensures BestAmong(p, g1, [g1, g2], threshold)
  {
  }

  lemma BestOfOne(p: Span, g: Span, threshold: real)
    requires Eligible(p, g, threshold)
    ensures BestAmong(p, g, [g], threshold)
  {
  }


  /** Two gold spans: the first prediction takes `g1`, and the second has
      nothing eligible left. */
  lemma TakenThenSkipped(p1: Span, p2: Span, g1: Span, g2: Span, threshold: real)
    requires g1 != g2 && BestAmong(p1, g1, [g1, g2], threshold) && !Eligible(p2, g2, threshold)
    ensures PartialPairs([p1, p2], [g1, g2], threshold) == [(p1, g1)]
  {
    var golds := [g1, g2];
    FirstTaken(p1, g1, g2, threshold);
    SecondLeft(p1, g1, g2);
    assert [p1] + [p2] == [p1, p2];
    PairsSkip([p1], p2, golds, threshold);
  }

  /** Two gold spans: the first prediction takes `g1`, the second `g2`. */
  lemma TakenTwice(p1: Span, p2: Span, g1: Span, g2: Span, threshold: real)
    requires g1 != g2 && BestAmong(p1, g1, [g1, g2], threshold) && BestAmong(p2, g2, [g2], threshold)
    ensures PartialPairs([p1, p2], [g1, g2], threshold) == [(p1, g1), (p2, g2)]
  {
    SecondTaken(p1, p2, g1, g2, threshold);
    assert [p1] + [p2] == [p1, p2];
  }

  lemma SecondTaken(p1: Span, p2: Span, g1: Span, g2: Span, threshold: real)
    requires g1 != g2 && BestAmong(p1, g1, [g1, g2], threshold) && BestAmong(p2, g2, [g2], threshold)
    ensures PartialPairs([p1] + [p2], [g1, g2], threshold) == [(p1, g1), (p2, g2)]
  {
    FirstTaken(p1, g1, g2, threshold);
    SecondLeft(p1, g1, g2);
    PairsTake([p1], p2, [g1, g2], g2, threshold);
  }

  /** Of two gold spans, the first prediction takes `g1`. */
  lemma FirstTaken(p1: Span, g1: Span, g2: Span, threshold: real)
    requires BestAmong(p1, g1, [g1, g2], threshold)
    ensures PartialPairs([p1], [g1, g2], threshold) == [(p1, g1)]
  {
    var golds := [g1, g2];
    var none := PartialPairs([], golds, threshold);
    assert none == [];
    assert Taken(none) == {};
    FilterOutNone(golds, {});
    PairsTake([], p1, golds, g1, threshold);
    assert [] + [p1] == [p1];
  }

  /** Taking `g1` of two distinct gold spans leaves `g2`. */
  lemma SecondLeft(p1: Span, g1: Span, g2: Span)
    requires g1 != g2
    ensures FilterOut([g1, g2], Taken([(p1, g1)])) == [g2]
  {
    assert Taken([(p1, g1)]) == {g1};
    FilterOutOne([g1, g2], 0);
    assert [g1, g2][..0] + [g1, g2][1..] == [g2];
  }

  /** The variables of the phase-2 loop: the records so far, the matched
      predictions and gold spans, and `unmatched_gold` as it shrinks. */
  datatype PartialState = PartialState(out: seq<Trace>, matchedPred: set<Span>, matchedGold: set<Span>, remaining: seq<Span>)

  /** The loop invariant once the predictions in `done` were handled. */
  ghost predicate Progress(c: Context, golds: seq<Span>, done: set<Span>, st: PartialState) {
    && st.remaining == FilterOut(golds, st.matchedGold)
    && st.matchedPred <= done && st.matchedGold <= Elems(golds)
    && |st.out| == |st.matchedPred| == |st.matchedGold| && SpanSet(st.out) == st.matchedGold
    && PartialRecords(st.out, c, st.matchedPred, st.matchedGold, golds)
    && Exhausted(done - st.matchedPred, Elems(st.remaining), c.threshold)
  }

  /** One turn of the phase-2 loop, for prediction `p`. */
  method PartialStep(c: Context, golds: seq<Span>, done: set<Span>, ghost handled: seq<Span>, p: Span, st: PartialState)
    returns (st': PartialState)
    requires Distinct(golds) && Elems(golds) <= c.gmap.Keys && p in c.pmap && p !in done
    requires Progress(c, golds, done, st) && Follows(st.out, PartialPairs(handled, golds, c.threshold))
    ensures Progress(c, golds, done + {p}, st')
    ensures Follows(st'.out, PartialPairs(handled + [p], golds, c.threshold))
  {
    FilterOutElems(golds, st.matchedGold);
    var best, bestScore := BestGold(p, st.remaining, c.threshold);
    if best.Some? {
      var b := best.value;
      var g := st.remaining[b];
      assert g in Elems(st.remaining);
      ChosenIsBest(p, st.remaining, b, bestScore, c.threshold);
      RemoveFiltered(golds, st.matchedGold, b);
      var mp, mg := st.matchedPred + {p}, st.matchedGold + {g};
      var t := PartialTrace(c.id, c.gdoc, c.pdoc, c.code, c.gmap[g], c.pmap[p], p, g);
      st' := PartialState(st.out + [t], mp, mg, st.remaining[..b] + st.remaining[b + 1..]);
      PairedProgress(c, golds, done, p, st, g, st');
      PairedFollows(st.out, t, handled, golds, p, g, c.threshold);
    } else {
      st' := st;
      SkippedFollows(st.out, handled, golds, p, c.threshold);
      forall g | g in Elems(st.remaining) ensures !Eligible(p, g, c.threshold) {
        var j :| 0 <= j < |st.remaining| && st.remaining[j] == g;
      }
    }
  }

  /** Pairing `p` with `g` and dropping `g` from the remaining gold spans
      keeps the invariant. */
  lemma PairedProgress(c: Context, golds: seq<Span>, done: set<Span>, p: Span, st: PartialState, g: Span,
                       st': PartialState)
    requires p in c.pmap && g in c.gmap && p !in done && g in Elems(st.remaining)
    requires BestAmong(p, g, st.remaining, c.threshold)
    requires Progress(c, golds, done, st)
    requires st'.remaining == FilterOut(golds, st.matchedGold + {g})
    requires st' == PartialState(st.out + [PartialTrace(c.id, c.gdoc, c.pdoc, c.code, c.gmap[g], c.pmap[p], p, g)],
                                 st.matchedPred + {p}, st.matchedGold + {g}, st'.remaining)
    ensures Progress(c, golds, done + {p}, st')
  {
    FilterOutElems(golds, st.matchedGold);
    FilterOutElems(golds, st.matchedGold + {g});
    var t := st'.out[|st.out|];
    assert st'.out == st.out + [t];
    SpanSetSnoc(st.out, t);
    assert PartialRecord(t, c, st'.matchedPred, st'.matchedGold);
    PartialRecordsSnoc(st.out, t, c, st.matchedPred, st.matchedGold, st'.matchedPred, st'.matchedGold, golds);
    assert p !in st.matchedPred && g !in st.matchedGold;
    ExhaustedStep(done, st.matchedPred, p, Elems(st.remaining), Elems(st'.remaining), c.threshold);
  }

  /** Matching one more prediction and taking away gold spans keeps the
      unmatched pairs ineligible. */
  lemma ExhaustedStep(done: set<Span>, mp: set<Span>, p: Span, golds: set<Span>, golds': set<Span>, threshold: real)
    requires Exhausted(done - mp, golds, threshold) && golds' <= golds
    ensures Exhausted((done + {p}) - (mp + {p}), golds', threshold)
  {
    assert (done + {p}) - (mp + {p}) <= done - mp;
  }

  /** A new best-score record extends the phase-2 records. */
  lemma PartialRecordsSnoc(out: seq<Trace>, t: Trace, c: Context, mp: set<Span>, mg: set<Span>,
                           mp': set<Span>, mg': set<Span>, golds: seq<Span>)
    requires PartialRecords(out, c, mp, mg, golds) && mp <= mp' && mg <= mg'
    requires PartialRecord(t, c, mp', mg')
    requires BestAmong(t.predictedSpan, t.span, FilterOut(golds, SpanSet(out)), c.threshold)
    ensures PartialRecords(out + [t], c, mp', mg', golds)
  {
    var out' := out + [t];
    forall k | 0 <= k < |out'| ensures PartialAt(out', k, c, mp', mg', golds) {
      if k < |out| {
        assert out'[..k] == out[..k];
        assert PartialAt(out, k, c, mp, mg, golds);
      } else {
        assert out'[..k] == out;
      }
    }
  }

  /** Phase 2: every prediction left after phase 1, in `pred_map` order, takes
      the best eligible gold span still unmatched, which is then removed. */
  method PartialPhase(c: Context, unmatchedPred: seq<Span>, unmatchedGold: seq<Span>)
    returns (out: seq<Trace>, matchedPred: set<Span>, matchedGold: set<Span>)
    requires Distinct(unmatchedPred) && Distinct(unmatchedGold)
    requires Elems(unmatchedPred) <= c.pmap.Keys && Elems(unmatchedGold) <= c.gmap.Keys
    ensures matchedPred <= Elems(unmatchedPred) && matchedGold <= Elems(unmatchedGold)
    ensures |out| == |matchedPred| == |matchedGold| && SpanSet(out) == matchedGold
    ensures PartialRecords(out, c, matchedPred, matchedGold, unmatchedGold)
    ensures Exhausted(Elems(unmatchedPred) - matchedPred, Elems(unmatchedGold) - matchedGold, c.threshold)
    ensures Follows(out, PartialPairs(unmatchedPred, unmatchedGold, c.threshold))
  {
    FilterOutNone(unmatchedGold, {});
    var st := PartialState([], {}, {}, unmatchedGold);
    for i := 0 to |unmatchedPred|
      invariant Progress(c, unmatchedGold, Elems(unmatchedPred[..i]), st)
      invariant Follows(st.out, PartialPairs(unmatchedPred[..i], unmatchedGold, c.threshold))
    {
      var p := unmatchedPred[i];
      assert Elems(unmatchedPred[..i + 1]) == Elems(unmatchedPred[..i]) + {p};
      assert unmatchedPred[..i + 1] == unmatchedPred[..i] + [p];
      st := PartialStep(c, unmatchedGold, Elems(unmatchedPred[..i]), unmatchedPred[..i], p, st);
    }
    assert unmatchedPred[..|unmatchedPred|] == unmatchedPred;
    FilterOutElems(unmatchedGold, st.matchedGold);
    out, matchedPred, matchedGold := st.out, st.matchedPred, st.matchedGold;
  }

  /** The record of an unmatched prediction, from `pred_map`. */
  function SpuriousOf(c: Context, s: Span): Trace
    requires s in c.pmap
  {
    SpuriousTrace(c.id, c.pdoc, c.code, c.pmap[s], s)
  }

  /** The record of an unmatched gold span, from `gold_map`. */
  function MissedOf(c: Context, s: Span): Trace
    requires s in c.gmap
  {
    MissedTrace(c.id, c.gdoc, c.code, c.gmap[s], s)
  }

  /** One false-positive record per span of `spans`, in order. */
  predicate SpuriousRecords(out: seq<Trace>, c: Context, spans: seq<Span>) {
    |out| == |spans| && forall k | 0 <= k < |out| :: spans[k] in c.pmap && out[k] == SpuriousOf(c, spans[k])
  }

  /** One false-negative record per span of `spans`, in order. */
  predicate MissedRecords(out: seq<Trace>, c: Context, spans: seq<Span>) {
    |out| == |spans| && forall k | 0 <= k < |out| :: spans[k] in c.gmap && out[k] == MissedOf(c, spans[k])
  }

  /** Phase 3: a false positive per prediction not matched, in `pred_map` order. */
  method SpuriousPhase(c: Context, keys: seq<Span>, matched: set<Span>) returns (out: seq<Trace>)
    requires Elems(keys) <= c.pmap.Keys
    ensures SpuriousRecords(out, c, FilterOut(keys, matched))
  {
    out := [];
    for i := 0 to |keys|
      invariant SpuriousRecords(out, c, FilterOut(keys[..i], matched))
    {
      assert keys[..i + 1][..i] == keys[..i];
      if keys[i] !in matched {
        assert keys[i] in Elems(keys);
        out := out + [SpuriousOf(c, keys[i])];
      }
    }
    assert keys[..|keys|] == keys;
  }

  /** Phase 4: a false negative per gold span not matched, in `gold_map` order. */
  method MissedPhase(c: Context, keys: seq<Span>, matched: set<Span>) returns (out: seq<Trace>)
    requires Elems(keys) <= c.gmap.Keys
    ensures MissedRecords(out, c, FilterOut(keys, matched))
  {
    out := [];
    for i := 0 to |keys|
      invariant MissedRecords(out, c, FilterOut(keys[..i], matched))
    {
      assert keys[..i + 1][..i] == keys[..i];
      if keys[i] !in matched {
        assert keys[i] in Elems(keys);
        out := out + [MissedOf(c, keys[i])];
      }
    }
    assert keys[..|keys|] == keys;
  }

  /** An other-category span shares no position with any prediction. */
  predicate Clear(o: Span, preds: seq<Span>) {
    forall p | p in preds :: SpanToSet(o) * SpanToSet(p) == {}
  }

  /** Phase 5's count: the other-category gold spans, repeats included, that
      share no position with a prediction of the category. */
  function TnCountOf(others: seq<Span>, preds: seq<Span>): (n: nat)
    ensures n <= |others|
  {
    if others == [] then 0
    else TnCountOf(others[..|others| - 1], preds) + (if Clear(others[|others| - 1], preds) then 1 else 0)
  }

  /** Two spans share no position exactly when one ends before the other
      starts, or either is empty. */
  lemma DisjointSpans(o: Span, p: Span)
    ensures SpanToSet(o) * SpanToSet(p) == {} <==> Min(o.end, p.end) <= Max(o.start, p.start)
  {
    OverlapSets(o, p);
  }

  /** Without predictions every other-category span is a true negative. */
  lemma {:induction false} NoPredictionsAllNegative(others: seq<Span>)
    ensures TnCountOf(others, []) == |others|
    decreases |others|
  {
    if others != [] {
      NoPredictionsAllNegative(others[..|others| - 1]);
    }
  }

  /** The spans of the exact hits. */
  function ExactSpans(out: seq<Trace>): set<Span> {
    set t | t in out && t.ExactHit? :: t.span
  }

  /** Records of one document and category, none of them a TN count. */
  predicate Tagged(out: seq<Trace>, id: string, code: string) {
    forall k | 0 <= k < |out| :: out[k].textId == id && out[k].code == code && !out[k].Negatives?
  }

  predicate NoExactHit(out: seq<Trace>) {
    forall k | 0 <= k < |out| :: !out[k].ExactHit?
  }

  lemma ExactRecordsKind(out: seq<Trace>, c: Context, exact: set<Span>)
    requires ExactRecords(out, c, exact)
    ensures Uniform(out, c.id, c.code, TP) && Tagged(out, c.id, c.code)
    ensures forall k | 0 <= k < |out| :: out[k].ExactHit?
  {
    forall k | 0 <= k < |out| ensures out[k].ExactHit? && out[k].textId == c.id && out[k].code == c.code {
      assert ExactRecord(out[k], c, exact);
    }
  }

  lemma PartialRecordsKind(out: seq<Trace>, c: Context, mp: set<Span>, mg: set<Span>, golds: seq<Span>)
    requires PartialRecords(out, c, mp, mg, golds)
    ensures Uniform(out, c.id, c.code, TP) && Tagged(out, c.id, c.code) && NoExactHit(out)
  {
    forall k | 0 <= k < |out| ensures out[k].PartialHit? && out[k].textId == c.id && out[k].code == c.code {
      assert PartialAt(out, k, c, mp, mg, golds);
    }
  }

  lemma SpuriousRecordsKind(out: seq<Trace>, c: Context, spans: seq<Span>)
    requires SpuriousRecords(out, c, spans)
    ensures Uniform(out, c.id, c.code, FP) && Tagged(out, c.id, c.code) && NoExactHit(out)
  {
  }

  lemma MissedRecordsKind(out: seq<Trace>, c: Context, spans: seq<Span>)
    requires MissedRecords(out, c, spans)
    ensures Uniform(out, c.id, c.code, FN) && Tagged(out, c.id, c.code) && NoExactHit(out)
  {
  }

  lemma TaggedConcat(a: seq<Trace>, b: seq<Trace>, id: string, code: string)
    requires Tagged(a, id, code) && Tagged(b, id, code)
    ensures Tagged(a + b, id, code)
  {
    forall k | 0 <= k < |a + b| ensures (a + b)[k].textId == id && (a + b)[k].code == code && !(a + b)[k].Negatives? {
      if k >= |a| {
        assert (a + b)[k] == b[k - |a|];
      }
    }
  }

  lemma NoExactHitConcat(a: seq<Trace>, b: seq<Trace>)
    requires NoExactHit(a) && NoExactHit(b)
    ensures NoExactHit(a + b)
  {
    forall k | 0 <= k < |a + b| ensures !(a + b)[k].ExactHit? {
      if k >= |a| {
        assert (a + b)[k] == b[k - |a|];
      }
    }
  }

  /** Counting the records of the four phases. */
  lemma {:induction false} PhaseCounts(a: seq<Trace>, b: seq<Trace>, f: seq<Trace>, m: seq<Trace>, id: string, code: string)
    requires Uniform(a, id, code, TP) && Uniform(b, id, code, TP) && Uniform(f, id, code, FP) && Uniform(m, id, code, FN)
    ensures Count(a + b + f + m, id, code, TP) == |a| + |b|
    ensures Count(a + b + f + m, id, code, FP) == |f|
    ensures Count(a + b + f + m, id, code, FN) == |m|
    ensures Count(a + b + f + m, id, code, TN) == 0
  {
    forall st: Status
      ensures Count(a + b + f + m, id, code, st)
           == Count(a, id, code, st) + Count(b, id, code, st) + Count(f, id, code, st) + Count(m, id, code, st)
    {
      CountAppend(a, b, id, code, st);
      CountAppend(a + b, f, id, code, st);
      CountAppend(a + b + f, m, id, code, st);
    }
    forall st: Status
      ensures Count(a, id, code, st) == (if st == TP then |a| else 0)
      ensures Count(b, id, code, st) == (if st == TP then |b| else 0)
      ensures Count(f, id, code, st) == (if st == FP then |f| else 0)
      ensures Count(m, id, code, st) == (if st == FN then |m| else 0)
    {
      UniformCount(a, id, code, TP, st);
      UniformCount(b, id, code, TP, st);
      UniformCount(f, id, code, FP, st);
      UniformCount(m, id, code, FN, st);
    }
  }

  /** The spans left outside two disjoint parts of a set. */
  lemma CardRest(all: set<Span>, e: set<Span>, m: set<Span>)
    requires e <= all && m <= all - e
    ensures |all - (e + m)| == |all| - |e| - |m|
  {
    assert all == (all - e) + e;
    assert all - e == (all - (e + m)) + m;
  }

  /** A list of distinct keys, filtered of two disjoint parts of its
      elements, keeps the rest. */
  lemma FilteredCount(keys: seq<Span>, e: set<Span>, m: set<Span>)
    requires Distinct(keys) && e <= Elems(keys) && m <= Elems(keys) - e
    ensures |FilterOut(keys, e + m)| == |keys| - |e| - |m|
  {
    FilterOutCount(keys, e + m);
    DistinctCard(keys);
    CardRest(Elems(keys), e, m);
  }

  lemma ExactSpansOfPhases(a: seq<Trace>, rest: seq<Trace>)
    requires forall k | 0 <= k < |a| :: a[k].ExactHit?
    requires NoExactHit(rest)
    ensures ExactSpans(a + rest) == SpanSet(a)
  {
    forall s ensures s in ExactSpans(a + rest) <==> s in SpanSet(a) {
      if s in ExactSpans(a + rest) {
        var t :| t in a + rest && t.ExactHit? && t.span == s;
        var k :| 0 <= k < |a + rest| && (a + rest)[k] == t;
        if k >= |a| {
          assert rest[k - |a|] == t;
        }
      }
      if s in SpanSet(a) {
        var t :| t in a && !t.Negatives? && t.span == s;
        var k :| 0 <= k < |a| && a[k] == t;
        assert (a + rest)[k] == t;
      }
    }
  }

  lemma ExactOfFour(a: seq<Trace>, b: seq<Trace>, f: seq<Trace>, m: seq<Trace>)
    requires forall k | 0 <= k < |a| :: a[k].ExactHit?
    requires NoExactHit(b) && NoExactHit(f) && NoExactHit(m)
    ensures ExactSpans(a + b + f + m) == SpanSet(a)
  {
    NoExactHitConcat(b, f);
    NoExactHitConcat(b + f, m);
    ExactSpansOfPhases(a, b + f + m);
    assert a + b + f + m == a + (b + f + m);
  }

  /** Appending the true-negative record adds one TN and nothing else. */
  lemma NegativesAppended(out: seq<Trace>, id: string, code: string, tn: nat)
    ensures forall st: Status :: Count(out + [Negatives(id, code, tn)], id, code, st)
                               == Count(out, id, code, st) + (if st == TN then 1 else 0)
    ensures ExactSpans(out + [Negatives(id, code, tn)]) == ExactSpans(out)
  {
    var t := Negatives(id, code, tn);
    forall st: Status ensures Count(out + [t], id, code, st) == Count(out, id, code, st) + (if st == TN then 1 else 0) {
      assert (out + [t])[..|out|] == out;
    }
  }

  /** The keys of a category's maps, their insertion orders and its spans. */
  lemma MapKeys(gdoc: Document, pdoc: PredDoc, code: string)
    ensures GoldMap(GoldOf(gdoc.entities, code)).Keys == Elems(GoldKeys(GoldOf(gdoc.entities, code))) == GoldSpans(gdoc, code)
    ensures PredMap(PredOf(pdoc.entities, code)).Keys == Elems(PredKeys(PredOf(pdoc.entities, code))) == PredSpansOf(pdoc, code)
    ensures Distinct(GoldKeys(GoldOf(gdoc.entities, code))) && Distinct(PredKeys(PredOf(pdoc.entities, code)))
    ensures |GoldKeys(GoldOf(gdoc.entities, code))| == |GoldSpans(gdoc, code)|
    ensures |PredKeys(PredOf(pdoc.entities, code))| == |PredSpansOf(pdoc, code)|
    ensures GoldSpans(gdoc, code) == {} ==> GoldOf(gdoc.entities, code) == []
    ensures PredSpansOf(pdoc, code) == {} ==> PredOf(pdoc.entities, code) == []
  {
    var ge, pe := GoldOf(gdoc.entities, code), PredOf(pdoc.entities, code);
    IndexKeys(ge, GoldKey());
    IndexKeys(pe, PredKey());
    FirstSeenKeys(KeyList(ge, GoldKey()));
    FirstSeenKeys(KeyList(pe, PredKey()));
    GoldOfSpans(gdoc.entities, code);
    PredOfSpans(pdoc.entities, code);
    DistinctCard(GoldKeys(ge));
    DistinctCard(PredKeys(pe));
    if ge != [] {
      assert KeyList(ge, GoldKey())[0] in Elems(KeyList(ge, GoldKey()));
    }
    if pe != [] {
      assert KeyList(pe, PredKey())[0] in Elems(KeyList(pe, PredKey()));
    }
  }

  /** The facts about the four phases' records that the counts need. */
  ghost predicate PhaseOutputs(c: Context, gkeys: seq<Span>, pkeys: seq<Span>, exact: set<Span>, mp: set<Span>, mg: set<Span>,
                         a: seq<Trace>, b: seq<Trace>, f: seq<Trace>, m: seq<Trace>)
  {
    && Distinct(gkeys) && Distinct(pkeys)
    && Elems(gkeys) == c.gmap.Keys && Elems(pkeys) == c.pmap.Keys
    && exact == c.gmap.Keys * c.pmap.Keys
    && mp <= Elems(pkeys) - exact && mg <= Elems(gkeys) - exact
    && |a| == |exact| && SpanSet(a) == exact && ExactRecords(a, c, exact)
    && |b| == |mp| == |mg| && SpanSet(b) == mg
    && PartialRecords(b, c, mp, mg, FilterOut(gkeys, exact))
    && Follows(b, PartialPairs(FilterOut(pkeys, exact), FilterOut(gkeys, exact), c.threshold))
    && Exhausted((Elems(pkeys) - exact) - mp, (Elems(gkeys) - exact) - mg, c.threshold)
    && SpuriousRecords(f, c, FilterOut(pkeys, exact + mp))
    && MissedRecords(m, c, FilterOut(gkeys, exact + mg))
  }

  /** `out` is what the four phases write, one after the other: exact hits,
      best-score partial pairs, spurious predictions and missed gold spans. */
  ghost predicate PhaseRecords(out: seq<Trace>, c: Context, gkeys: seq<Span>, pkeys: seq<Span>) {
    exists mp: set<Span>, mg: set<Span>, a: seq<Trace>, b: seq<Trace>, f: seq<Trace>, m: seq<Trace> ::
      PhaseOutputs(c, gkeys, pkeys, c.gmap.Keys * c.pmap.Keys, mp, mg, a, b, f, m) && out == a + b + f + m
  }

  /** The four phases' records count every predicted span once as TP or FP and
      every gold span once as TP or FN. */
  lemma PhaseOutputCounts(c: Context, gkeys: seq<Span>, pkeys: seq<Span>, exact: set<Span>, mp: set<Span>, mg: set<Span>,
                          a: seq<Trace>, b: seq<Trace>, f: seq<Trace>, m: seq<Trace>)
    requires PhaseOutputs(c, gkeys, pkeys, exact, mp, mg, a, b, f, m)
    ensures Count(a + b + f + m, c.id, c.code, TP) + Count(a + b + f + m, c.id, c.code, FP) == |pkeys|
    ensures Count(a + b + f + m, c.id, c.code, TP) + Count(a + b + f + m, c.id, c.code, FN) == |gkeys|
    ensures Count(a + b + f + m, c.id, c.code, TN) == 0
  {
    ExactRecordsKind(a, c, exact);
    PartialRecordsKind(b, c, mp, mg, FilterOut(gkeys, exact));
    SpuriousRecordsKind(f, c, FilterOut(pkeys, exact + mp));
    MissedRecordsKind(m, c, FilterOut(gkeys, exact + mg));
    PhaseCounts(a, b, f, m, c.id, c.code);
    FilteredCount(pkeys, exact, mp);
    FilteredCount(gkeys, exact, mg);
  }

  /** The four phases' records belong to the document and category. */
  lemma PhaseOutputsTagged(c: Context, gkeys: seq<Span>, pkeys: seq<Span>, exact: set<Span>, mp: set<Span>, mg: set<Span>,
                           a: seq<Trace>, b: seq<Trace>, f: seq<Trace>, m: seq<Trace>)
    requires PhaseOutputs(c, gkeys, pkeys, exact, mp, mg, a, b, f, m)
    ensures Tagged(a + b + f + m, c.id, c.code)
  {
    ExactRecordsKind(a, c, exact);
    PartialRecordsKind(b, c, mp, mg, FilterOut(gkeys, exact));
    SpuriousRecordsKind(f, c, FilterOut(pkeys, exact + mp));
    MissedRecordsKind(m, c, FilterOut(gkeys, exact + mg));
    TaggedConcat(a, b, c.id, c.code);
    TaggedConcat(a + b, f, c.id, c.code);
    TaggedConcat(a + b + f, m, c.id, c.code);
  }

  /** The exact hits among the four phases' records are the spans both maps
      hold. */
  lemma PhaseOutputsExact(c: Context, gkeys: seq<Span>, pkeys: seq<Span>, exact: set<Span>, mp: set<Span>, mg: set<Span>,
                          a: seq<Trace>, b: seq<Trace>, f: seq<Trace>, m: seq<Trace>)
    requires PhaseOutputs(c, gkeys, pkeys, exact, mp, mg, a, b, f, m)
    ensures ExactSpans(a + b + f + m) == c.gmap.Keys * c.pmap.Keys
  {
    ExactRecordsKind(a, c, exact);
    PartialRecordsKind(b, c, mp, mg, FilterOut(gkeys, exact));
    SpuriousRecordsKind(f, c, FilterOut(pkeys, exact + mp));
    MissedRecordsKind(m, c, FilterOut(gkeys, exact + mg));
    ExactOfFour(a, b, f, m);
  }

  /** The records of phases 1 to 4 for one document and category, from the
      maps and their key orders. */
  method MatchPhases(c: Context, gkeys: seq<Span>, pkeys: seq<Span>) returns (out: seq<Trace>)
    requires Distinct(gkeys) && Distinct(pkeys)
    requires Elems(gkeys) == c.gmap.Keys && Elems(pkeys) == c.pmap.Keys
    ensures Tagged(out, c.id, c.code)
    ensures Count(out, c.id, c.code, TP) + Count(out, c.id, c.code, FP) == |pkeys|
    ensures Count(out, c.id, c.code, TP) + Count(out, c.id, c.code, FN) == |gkeys|
    ensures Count(out, c.id, c.code, TN) == 0
    ensures ExactSpans(out) == c.gmap.Keys * c.pmap.Keys
    ensures PhaseRecords(out, c, gkeys, pkeys)
  {
    var exact := c.gmap.Keys * c.pmap.Keys;
    var exactOut := ExactPhase(c, exact);
    FilterOutElems(pkeys, exact);
    FilterOutElems(gkeys, exact);
    var partialOut, mp, mg := PartialPhase(c, FilterOut(pkeys, exact), FilterOut(gkeys, exact));
    var fpOut := SpuriousPhase(c, pkeys, exact + mp);
    var fnOut := MissedPhase(c, gkeys, exact + mg);
    assert PhaseOutputs(c, gkeys, pkeys, exact, mp, mg, exactOut, partialOut, fpOut, fnOut);
    PhaseOutputCounts(c, gkeys, pkeys, exact, mp, mg, exactOut, partialOut, fpOut, fnOut);
    PhaseOutputsTagged(c, gkeys, pkeys, exact, mp, mg, exactOut, partialOut, fpOut, fnOut);
    PhaseOutputsExact(c, gkeys, pkeys, exact, mp, mg, exactOut, partialOut, fpOut, fnOut);
    out := exactOut + partialOut + fpOut + fnOut;
  }

  /** The phase-5 record: one true-negative record holding the count of
      other-category spans clear of every prediction, when that count is
      positive. */
  function NegativesOf(id: string, code: string, others: seq<Span>, preds: seq<Span>): seq<Trace> {
    var n := TnCountOf(others, preds);
    if n > 0 then [Negatives(id, code, n)] else []
  }

  /** Phase 5: when other-category gold spans exist and some of them share
      no position with any prediction, one true-negative record with that
      count is appended; nothing else changes. */
  method AddNegatives(out: seq<Trace>, id: string, code: string, others: seq<Span>, preds: seq<Span>)
    returns (res: seq<Trace>)
    requires Tagged(out, id, code)
    ensures res == out + NegativesOf(id, code, others, preds)
    ensures forall k | 0 <= k < |res| :: res[k].textId == id && res[k].code == code
    ensures forall k | 0 <= k < |res| && res[k].Negatives? :: 0 < res[k].count <= |others|
    ensures res != out <==> TnCountOf(others, preds) > 0
    ensures forall st: Status :: Count(res, id, code, st) == Count(out, id, code, st) + (if st == TN && res != out then 1 else 0)
    ensures ExactSpans(res) == ExactSpans(out)
  {
    res := out;
    if others != [] {
      var tn := TnCountOf(others, preds);
      if tn > 0 {
        NegativesAppended(out, id, code, tn);
        res := out + [Negatives(id, code, tn)];
      }
    }
  }

  /** The five phases for one document and one category: a pair with neither
      gold nor predictions gets no record; otherwise the records are those
      `CodeRecords` describes (exact hits, best-score partial pairs, spurious
      and missed spans, then the true-negative count record of
      `NegativesOf`), so the true and false positives account for every
      distinct predicted span, the true positives and false negatives for
      every distinct gold span, every span in both is an exact hit, and a
      true-negative record, when there is one, holds a positive count no
      larger than the number of other-category entities. */
  method TraceCode(id: string, gdoc: Document, pdoc: PredDoc, code: string, threshold: real)
    returns (out: seq<Trace>)
    ensures forall k | 0 <= k < |out| :: out[k].textId == id && out[k].code == code
    ensures GoldSpans(gdoc, code) == {} && PredSpansOf(pdoc, code) == {} ==> out == []
    ensures Count(out, id, code, TP) + Count(out, id, code, FP) == |PredSpansOf(pdoc, code)|
    ensures Count(out, id, code, TP) + Count(out, id, code, FN) == |GoldSpans(gdoc, code)|
    ensures ExactSpans(out) == GoldSpans(gdoc, code) * PredSpansOf(pdoc, code)
    ensures Count(out, id, code, TN) <= 1
    ensures forall k | 0 <= k < |out| && out[k].Negatives? :: 0 < out[k].count <= |OtherSpans(gdoc.entities, code)|
    ensures CodeCounted(out, id, gdoc, pdoc, code, threshold)
  {
    var goldEnts := GoldOf(gdoc.entities, code);
    var predEnts := PredOf(pdoc.entities, code);
    MapKeys(gdoc, pdoc, code);
    if goldEnts == [] && predEnts == [] {
      assert CodeRecords([], id, gdoc, pdoc, code, threshold);
      TracedCounted([], id, gdoc, pdoc, code, threshold);
      return [];
    }
    var c := Context(id, gdoc, pdoc, code, GoldMap(goldEnts), PredMap(predEnts), threshold);
    var pkeys := PredKeys(predEnts);
    out := MatchPhases(c, GoldKeys(goldEnts), pkeys);
    ghost var phases := out;
    out := AddNegatives(out, id, code, OtherSpans(gdoc.entities, code), pkeys);
    PhasesThenNegatives(out, phases, id, gdoc, pdoc, code, threshold);
    TracedCounted(out, id, gdoc, pdoc, code, threshold);
  }

  /** The phases' records followed by the true-negative record make up the
      records of the document and category. */
  lemma PhasesThenNegatives(out: seq<Trace>, phases: seq<Trace>, id: string, gdoc: Document, pdoc: PredDoc,
                            code: string, threshold: real)
    requires GoldOf(gdoc.entities, code) != [] || PredOf(pdoc.entities, code) != []
    requires PhaseRecords(phases, Context(id, gdoc, pdoc, code, GoldMap(GoldOf(gdoc.entities, code)),
                                          PredMap(PredOf(pdoc.entities, code)), threshold),
                          GoldKeys(GoldOf(gdoc.entities, code)), PredKeys(PredOf(pdoc.entities, code)))
    requires out == phases + NegativesOf(id, code, OtherSpans(gdoc.entities, code), PredKeys(PredOf(pdoc.entities, code)))
    ensures CodeRecords(out, id, gdoc, pdoc, code, threshold)
  {
    assert out[..|phases|] == phases;
  }

  /** The records of a document and category are those of the five phases:
      none when neither side has an entity of the category, otherwise the
      records `PhaseRecords` describes over the gold and predicted span maps
      and their first-seen key orders, followed by the record of
      `NegativesOf`. */
  ghost predicate CodeRecords(out: seq<Trace>, id: string, gdoc: Document, pdoc: PredDoc, code: string, threshold: real) {
    var ge, pe := GoldOf(gdoc.entities, code), PredOf(pdoc.entities, code);
    if ge == [] && pe == [] then out == []
    else
      var c := Context(id, gdoc, pdoc, code, GoldMap(ge), PredMap(pe), threshold);
      var tn := NegativesOf(id, code, OtherSpans(gdoc.entities, code), PredKeys(pe));
      && |tn| <= |out| && out[|out| - |tn|..] == tn
      && PhaseRecords(out[..|out| - |tn|], c, GoldKeys(ge), PredKeys(pe))
  }

  /** The records and the four counts of a document and category agree in
      two record lists. */
  predicate SameCounts(a: seq<Trace>, b: seq<Trace>, id: string, code: string) {
    && Block(a, id, code) == Block(b, id, code)
    && Count(a, id, code, TP) == Count(b, id, code, TP)
    && Count(a, id, code, FP) == Count(b, id, code, FP)
    && Count(a, id, code, FN) == Count(b, id, code, FN)
    && Count(a, id, code, TN) == Count(b, id, code, TN)
  }

  /** No record of the list belongs to the document and category. */
  predicate Avoids(a: seq<Trace>, id: string, code: string) {
    forall k | 0 <= k < |a| :: a[k].textId != id || a[k].code != code
  }

  lemma AppendAvoiding(a: seq<Trace>, b: seq<Trace>, id: string, code: string)
    requires Avoids(b, id, code)
    ensures SameCounts(a + b, a, id, code)
  {
    forall st: Status ensures Count(a + b, id, code, st) == Count(a, id, code, st) {
      CountAppend(a, b, id, code, st);
      CountAbsent(b, id, code, st);
    }
    BlockAppend(a, b, id, code);
    BlockAbsent(b, id, code);
  }

  lemma PrependAvoiding(a: seq<Trace>, b: seq<Trace>, id: string, code: string)
    requires Avoids(a, id, code)
    ensures SameCounts(a + b, b, id, code)
  {
    forall st: Status ensures Count(a + b, id, code, st) == Count(b, id, code, st) {
      CountAppend(a, b, id, code, st);
      CountAbsent(a, id, code, st);
    }
    BlockAppend(a, b, id, code);
    BlockAbsent(a, id, code);
  }

  /** No record at all for the document and category. */
  predicate NoneCounted(out: seq<Trace>, id: string, code: string) {
    Block(out, id, code) == []
    && Count(out, id, code, TP) == 0 && Count(out, id, code, FP) == 0
    && Count(out, id, code, FN) == 0 && Count(out, id, code, TN) == 0
  }

  /** The false-negative records of the gold entities of a category, in
      their order. */
  function MissedRecordsOf(id: string, gdoc: Document, ents: seq<GoldEntity>, code: string): (out: seq<Trace>)
    ensures |out| <= |ents|
  {
    if ents == [] then []
    else
      var e := ents[|ents| - 1];
      MissedRecordsOf(id, gdoc, ents[..|ents| - 1], code)
        + (if e.code == code then [MissedTrace(id, gdoc, code, e, e.span)] else [])
  }

  /** A document without predictions: one false negative per gold entity of
      the category, in order, and nothing else. */
  predicate MissedCounted(out: seq<Trace>, id: string, gdoc: Document, ents: seq<GoldEntity>, code: string) {
    Block(out, id, code) == MissedRecordsOf(id, gdoc, ents, code)
    && Count(out, id, code, FN) == CountWhere(ents, code, true)
    && Count(out, id, code, TP) == 0 && Count(out, id, code, FP) == 0 && Count(out, id, code, TN) == 0
  }

  /** A document and category run through the five phases: its records are
      those `CodeRecords` states, every span in both gold and predictions is
      an exact hit, every distinct predicted span is a TP or an FP, every
      distinct gold span a TP or an FN, and there is at most one TN record. */
  ghost predicate CodeCounted(out: seq<Trace>, id: string, gdoc: Document, pdoc: PredDoc, code: string, threshold: real) {
    && (forall blk | blk == Block(out, id, code) :: CodeRecords(blk, id, gdoc, pdoc, code, threshold))
    && ExactSpans(Block(out, id, code)) == GoldSpans(gdoc, code) * PredSpansOf(pdoc, code)
    && Count(out, id, code, TP) + Count(out, id, code, FP) == |PredSpansOf(pdoc, code)|
    && Count(out, id, code, TP) + Count(out, id, code, FN) == |GoldSpans(gdoc, code)|
    && Count(out, id, code, TN) <= 1
  }

  /** `{str(doc["text_id"]).strip(): doc for doc in ground_truth}` */
  function GoldIndex(gt: seq<Document>): map<string, Document> {
    Index(gt, (d: Document) => Strip(d.textId))
  }

  /** `{str(doc["text_id"]).strip(): doc for doc in predictions}` */
  function PredIndex(preds: seq<PredDoc>): map<string, PredDoc> {
    Index(preds, (d: PredDoc) => Strip(d.textId))
  }

  /** `all_entity_codes`: the categories of the gold entities. */
  function GoldCodes(gt: seq<Document>): set<string> {
    set d, e | d in gt && e in d.entities :: e.code
  }

  /** What the records say about one document id and one category: nothing
      for an id without gold document or a category absent from the gold
      data; one FN per gold entity, in order, for a document without
      predictions; the five phases' records and counts otherwise. */
  ghost predicate DocCounted(out: seq<Trace>, id: string, gt: seq<Document>, preds: seq<PredDoc>, code: string,
                             threshold: real) {
    if id !in GoldIndex(gt) then NoneCounted(out, id, code)
    else if id !in PredIndex(preds) then MissedCounted(out, id, GoldIndex(gt)[id], GoldIndex(gt)[id].entities, code)
    else if code in GoldCodes(gt) then CodeCounted(out, id, GoldIndex(gt)[id], PredIndex(preds)[id], code, threshold)
    else NoneCounted(out, id, code)
  }

  /** A document without predictions: every gold entity, in order, becomes a
      false negative of its own category. */
  method MissedDoc(id: string, gdoc: Document) returns (out: seq<Trace>)
    ensures |out| == |gdoc.entities|
    ensures forall k | 0 <= k < |out| ::
              out[k] == MissedTrace(id, gdoc, gdoc.entities[k].code, gdoc.entities[k], gdoc.entities[k].span)
    ensures forall code :: MissedCounted(out, id, gdoc, gdoc.entities, code)
  {
    out := [];
    for i := 0 to |gdoc.entities|
      invariant |out| == i
      invariant forall k | 0 <= k < i ::
                  out[k] == MissedTrace(id, gdoc, gdoc.entities[k].code, gdoc.entities[k], gdoc.entities[k].span)
      invariant forall code :: MissedCounted(out, id, gdoc, gdoc.entities[..i], code)
    {
      var e := gdoc.entities[i];
      var t := MissedTrace(id, gdoc, e.code, e, e.span);
      var next, ents := out + [t], gdoc.entities[..i + 1];
      assert ents == gdoc.entities[..i] + [e];
      forall code ensures MissedCounted(next, id, gdoc, ents, code) {
        MissedSnoc(out, id, gdoc, gdoc.entities[..i], e, code);
      }
      out := next;
    }
    assert gdoc.entities[..|gdoc.entities|] == gdoc.entities;
  }

  /** One more gold entity of a document without predictions adds its FN
      record and keeps every category's counts. */
  lemma MissedSnoc(out: seq<Trace>, id: string, gdoc: Document, ents: seq<GoldEntity>, e: GoldEntity, code: string)
    requires MissedCounted(out, id, gdoc, ents, code)
    ensures MissedCounted(out + [MissedTrace(id, gdoc, e.code, e, e.span)], id, gdoc, ents + [e], code)
  {
    var next, ents' := out + [MissedTrace(id, gdoc, e.code, e, e.span)], ents + [e];
    assert next[..|out|] == out;
    assert ents'[..|ents|] == ents;
  }

  /** Appending the block of a new category keeps the counts of the
      categories already done and adds those of the new one. */
  lemma CodeBlockAppend(b: seq<Trace>, blk: seq<Trace>, id: string, gdoc: Document, pdoc: PredDoc,
                        code: string, done: set<string>, threshold: real)
    requires forall k | 0 <= k < |b| :: b[k].textId == id && b[k].code in done
    requires forall k | 0 <= k < |blk| :: blk[k].textId == id && blk[k].code == code
    requires code !in done
    requires forall c | c in done :: CodeCounted(b, id, gdoc, pdoc, c, threshold)
    requires CodeCounted(blk, id, gdoc, pdoc, code, threshold)
    ensures forall c | c in done + {code} :: CodeCounted(b + blk, id, gdoc, pdoc, c, threshold)
  {
    forall c | c in done + {code} ensures CodeCounted(b + blk, id, gdoc, pdoc, c, threshold) {
      if c == code {
        PrependAvoiding(b, blk, id, c);
        assert CodeCounted(blk, id, gdoc, pdoc, c, threshold);
      } else {
        AppendAvoiding(b, blk, id, c);
        assert CodeCounted(b, id, gdoc, pdoc, c, threshold);
      }
    }
  }

  /** The records `TraceCode` returns are counted as `CodeCounted` states. */
  lemma TracedCounted(blk: seq<Trace>, id: string, gdoc: Document, pdoc: PredDoc, code: string, threshold: real)
    requires forall k | 0 <= k < |blk| :: blk[k].textId == id && blk[k].code == code
    requires Count(blk, id, code, TP) + Count(blk, id, code, FP) == |PredSpansOf(pdoc, code)|
    requires Count(blk, id, code, TP) + Count(blk, id, code, FN) == |GoldSpans(gdoc, code)|
    requires ExactSpans(blk) == GoldSpans(gdoc, code) * PredSpansOf(pdoc, code)
    requires Count(blk, id, code, TN) <= 1
    requires CodeRecords(blk, id, gdoc, pdoc, code, threshold)
    ensures CodeCounted(blk, id, gdoc, pdoc, code, threshold)
  {
    BlockWhole(blk, id, code);
  }

  /** The categories loop for a document with both gold and predictions. */
  method CodesTraces(id: string, gdoc: Document, pdoc: PredDoc, codes: set<string>, threshold: real)
    returns (b: seq<Trace>)
    ensures forall k | 0 <= k < |b| :: b[k].textId == id && b[k].code in codes
    ensures forall c | c in codes :: CodeCounted(b, id, gdoc, pdoc, c, threshold)
  {
    b := [];
    var left := codes;
    ghost var done: set<string> := {};
    while left != {}
      invariant done + left == codes && done !! left
      invariant forall k | 0 <= k < |b| :: b[k].textId == id && b[k].code in done
      invariant forall c | c in done :: CodeCounted(b, id, gdoc, pdoc, c, threshold)
      decreases left
    {
      var code :| code in left;
      b := AppendCode(b, id, gdoc, pdoc, code, done, threshold);
      done := done + {code};
      left := left - {code};
    }
  }

  /** One turn of the categories loop: the records of a new category are
      appended, and the categories done before keep their records. */
  method AppendCode(b: seq<Trace>, id: string, gdoc: Document, pdoc: PredDoc, code: string,
                    ghost done: set<string>, threshold: real) returns (b': seq<Trace>)
    requires forall k | 0 <= k < |b| :: b[k].textId == id && b[k].code in done
    requires code !in done
    requires forall c | c in done :: CodeCounted(b, id, gdoc, pdoc, c, threshold)
    ensures forall k | 0 <= k < |b'| :: b'[k].textId == id && b'[k].code in done + {code}
    ensures forall c | c in done + {code} :: CodeCounted(b', id, gdoc, pdoc, c, threshold)
  {
    var blk := TraceCode(id, gdoc, pdoc, code, threshold);
    CodeBlockAppend(b, blk, id, gdoc, pdoc, code, done, threshold);
    b' := b + blk;
  }

  /** The categories of a gold document's entities are gold categories. */
  lemma MissedCodes(gt: seq<Document>, gdoc: Document, b: seq<Trace>)
    requires gdoc in gt && |b| == |gdoc.entities|
    requires forall k | 0 <= k < |b| :: b[k].code == gdoc.entities[k].code
    ensures forall k | 0 <= k < |b| :: b[k].code in GoldCodes(gt)
  {
    forall k | 0 <= k < |b| ensures b[k].code in GoldCodes(gt) {
      assert gdoc.entities[k] in gdoc.entities;
    }
  }

  /** The records of a document without predictions, as `DocCounted` states. */
  lemma MissedDocCounted(b: seq<Trace>, id: string, gt: seq<Document>, preds: seq<PredDoc>, threshold: real)
    requires id in GoldIndex(gt) && id !in PredIndex(preds)
    requires forall k | 0 <= k < |b| :: b[k].textId == id && b[k].code in GoldCodes(gt)
    requires forall code :: MissedCounted(b, id, GoldIndex(gt)[id], GoldIndex(gt)[id].entities, code)
    ensures DocBlock(b, id, gt, preds, threshold)
  {
    forall code ensures DocCounted(b, id, gt, preds, code, threshold) {
      assert MissedCounted(b, id, GoldIndex(gt)[id], GoldIndex(gt)[id].entities, code);
    }
  }

  /** The records of a document with predictions, as `DocCounted` states. */
  lemma BothDocCounted(b: seq<Trace>, id: string, gt: seq<Document>, preds: seq<PredDoc>, threshold: real)
    requires id in GoldIndex(gt) && id in PredIndex(preds)
    requires forall k | 0 <= k < |b| :: b[k].textId == id && b[k].code in GoldCodes(gt)
    requires forall c | c in GoldCodes(gt) :: CodeCounted(b, id, GoldIndex(gt)[id], PredIndex(preds)[id], c, threshold)
    ensures DocBlock(b, id, gt, preds, threshold)
  {
    forall code ensures DocCounted(b, id, gt, preds, code, threshold) {
      if code !in GoldCodes(gt) {
        AppendAvoiding([], b, id, code);
        assert [] + b == b;
      } else {
        assert CodeCounted(b, id, GoldIndex(gt)[id], PredIndex(preds)[id], code, threshold);
      }
    }
  }

  /** The records of one document id, in the order the source appends them. */
  method DocTraces(id: string, gt: seq<Document>, preds: seq<PredDoc>, threshold: real) returns (b: seq<Trace>)
    ensures DocBlock(b, id, gt, preds, threshold)
  {
    var gold, pred := GoldIndex(gt), PredIndex(preds);
    if id !in gold {
      return [];
    }
    var gdoc := gold[id];
    if id !in pred {
      IndexKeys(gt, (d: Document) => Strip(d.textId));
      b := MissedDoc(id, gdoc);
      MissedCodes(gt, gdoc, b);
      MissedDocCounted(b, id, gt, preds, threshold);
      return;
    }
    b := CodesTraces(id, gdoc, pred[id], GoldCodes(gt), threshold);
    BothDocCounted(b, id, gt, preds, threshold);
  }

  /** The records `b` of the document id `id`: none without a gold
      document, each of a gold category, counted as `DocCounted` states. */
  ghost predicate DocBlock(b: seq<Trace>, id: string, gt: seq<Document>, preds: seq<PredDoc>, threshold: real) {
    && (b != [] ==> id in GoldIndex(gt))
    && (forall k | 0 <= k < |b| :: b[k].textId == id && b[k].code in GoldCodes(gt))
    && (forall code :: DocCounted(b, id, gt, preds, code, threshold))
  }

  /** The loop state of `extract_all_entity_traces`: every record belongs to
      a handled id that has a gold document, and every handled id is
      counted. */
  ghost predicate Handled(traces: seq<Trace>, done: set<string>, gt: seq<Document>, preds: seq<PredDoc>, threshold: real) {
    && (forall k | 0 <= k < |traces| ::
          traces[k].textId in done && traces[k].textId in GoldIndex(gt) && traces[k].code in GoldCodes(gt))
    && (forall id, code | id in done :: DocCounted(traces, id, gt, preds, code, threshold))
  }

  /** Appending the block of a new document id keeps the loop state. */
  lemma DocBlockAppend(traces: seq<Trace>, b: seq<Trace>, id: string, done: set<string>,
                       gt: seq<Document>, preds: seq<PredDoc>, threshold: real)
    requires Handled(traces, done, gt, preds, threshold) && id !in done
    requires DocBlock(b, id, gt, preds, threshold)
    ensures Handled(traces + b, done + {id}, gt, preds, threshold)
  {
    forall x, code | x in done + {id} ensures DocCounted(traces + b, x, gt, preds, code, threshold) {
      if x == id {
        PrependAvoiding(traces, b, id, code);
        assert DocCounted(b, id, gt, preds, code, threshold);
      } else {
        AppendAvoiding(traces, b, x, code);
        assert DocCounted(traces, x, gt, preds, code, threshold);
      }
    }
    forall k | 0 <= k < |traces + b|
      ensures (traces + b)[k].textId in done + {id} && (traces + b)[k].textId in GoldIndex(gt)
              && (traces + b)[k].code in GoldCodes(gt)
    {
      if k >= |traces| {
        assert (traces + b)[k] == b[k - |traces|];
      }
    }
  }

  /** `extract_all_entity_traces`: the ids of both inputs in set order, the
      records of each id with a gold document. Every record belongs to a
      gold document and a gold category, and for every id and category the
      counts are those `DocCounted` states. */
  method ExtractAllEntityTraces(predictions: seq<PredDoc>, groundTruth: seq<Document>, threshold: real)
    returns (traces: seq<Trace>)
    ensures forall k | 0 <= k < |traces| ::
              traces[k].textId in GoldIndex(groundTruth) && traces[k].code in GoldCodes(groundTruth)
    ensures forall id, code :: DocCounted(traces, id, groundTruth, predictions, code, threshold)
  {
    var ids := GoldIndex(groundTruth).Keys + PredIndex(predictions).Keys;
    traces := [];
    var left := ids;
    ghost var done: set<string> := {};
    while left != {}
      invariant done + left == ids && done !! left
      invariant Handled(traces, done, groundTruth, predictions, threshold)
      decreases left
    {
      var id :| id in left;
      var b := DocTraces(id, groundTruth, predictions, threshold);
      DocBlockAppend(traces, b, id, done, groundTruth, predictions, threshold);
      traces := traces + b;
      done := done + {id};
      left := left - {id};
    }
    AllHandled(traces, ids, groundTruth, predictions, threshold);
  }

  /** Once every id of either input is handled, every id is counted: an id
      of neither input has no records. */
  lemma AllHandled(traces: seq<Trace>, ids: set<string>, gt: seq<Document>, preds: seq<PredDoc>, threshold: real)
    requires ids == GoldIndex(gt).Keys + PredIndex(preds).Keys
    requires Handled(traces, ids, gt, preds, threshold)
    ensures forall k | 0 <= k < |traces| :: traces[k].textId in GoldIndex(gt) && traces[k].code in GoldCodes(gt)
    ensures forall id, code :: DocCounted(traces, id, gt, preds, code, threshold)
  {
    forall id, code ensures DocCounted(traces, id, gt, preds, code, threshold) {
      if id !in ids {
        PrependAvoiding(traces, [], id, code);
        assert traces + [] == traces;
      }
    }
  }
}
