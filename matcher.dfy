/** The two-phase gold/prediction matcher the aggregate evaluators write out
    inline: exact matches first, then a first-fit partial match of each
    leftover prediction against the leftover gold spans. Python iterates
    sets in an order fixed by hashing; here every such iteration picks an
    arbitrary element, so each property below holds for every order. */
module Matcher {
  import opened Wrappers
  import opened Spans
  import opened Utils

  /** How a partial-match score is computed: through `utils.jaccard`, or with
      the inline ratio `len(a & b) / len(a | b)`, which divides by zero when
      both spans cover no position. */
  datatype Scorer = SharedJaccard | InlineRatio

  /** The Jaccard score of two spans' position sets; `None` is the
      `ZeroDivisionError` of the inline ratio. */
  function Score(scorer: Scorer, p: Span, g: Span): (r: Option<real>)
    ensures r.None? <==> scorer == InlineRatio && Width(p) == 0 && Width(g) == 0
    ensures r.Some? ==> r.value == Jaccard(SpanToSet(p), SpanToSet(g))
  {
    match scorer
    case SharedJaccard => Some(Jaccard(SpanToSet(p), SpanToSet(g)))
    case InlineRatio =>
      var u := SpanToSet(p) + SpanToSet(g);
      if |u| == 0 then None
      else Some((|SpanToSet(p) * SpanToSet(g)| as real) / (|u| as real))
  }

  /** Wherever the inline ratio is defined, both scorers agree. */
  lemma ScorersAgree(p: Span, g: Span)
    requires Width(p) > 0 || Width(g) > 0
    ensures Score(InlineRatio, p, g) == Score(SharedJaccard, p, g)
  {
  }

  /** A partial-match scoring function; `None` stands for a raised
      `ZeroDivisionError`. The matcher is written once over any such function
      and each evaluator passes its own. */
  type ScoreFn = (Span, Span) -> Option<real>

  /** The scorer as a function value. */
  function ScoreOf(scorer: Scorer): (f: ScoreFn)
    ensures forall p, g :: f(p, g) == Score(scorer, p, g)
  {
    (p, g) => Score(scorer, p, g)
  }

  /** The score is defined and reaches the threshold. */
  predicate Passes(score: ScoreFn, p: Span, g: Span, threshold: real) {
    score(p, g).Some? && score(p, g).value >= threshold
  }

  /** The score is defined and stays below the threshold. */
  predicate Fails(score: ScoreFn, p: Span, g: Span, threshold: real) {
    score(p, g).Some? && score(p, g).value < threshold
  }

  /** Some prediction that is not gold and some gold span that is not
      predicted have no defined score, so the partial pass may raise. */
  predicate Raises(score: ScoreFn, pred: set<Span>, gold: set<Span>) {
    exists p, g :: p in pred && g in gold && p !in gold && g !in pred && score(p, g).None?
  }

  /** Only the inline ratio raises, and only on two spans that both cover no
      position. */
  lemma RaisesOnlyOnEmptySpans(scorer: Scorer, pred: set<Span>, gold: set<Span>)
    requires Raises(ScoreOf(scorer), pred, gold)
    ensures scorer == InlineRatio
    ensures exists p, g :: p in pred && g in gold && p !in gold && g !in pred && Width(p) == 0 && Width(g) == 0
  {
    var p, g :| p in pred && g in gold && p !in gold && g !in pred && ScoreOf(scorer)(p, g).None?;
    assert Score(scorer, p, g).None?;
  }
  /** Per-document counters: exact-pass TPs, partial-pass TPs, FPs, FNs. */
  datatype Tally = Tally(exact: nat, partial: nat, fp: nat, fn: nat)

  /** `partner` pairs predictions with gold spans one-to-one (as many gold
      spans are paired as predictions): every span in both sets is paired
      with itself, and every other pair passes the threshold. */
  predicate Pairing(score: ScoreFn, threshold: real, pred: set<Span>, gold: set<Span>, partner: map<Span, Span>) {
    partner.Keys <= pred && partner.Values <= gold
    && pred * gold <= partner.Keys
    && |partner.Values| == |partner.Keys|
    && (forall p :: p in partner ==>
          if p in gold then partner[p] == p
          else partner[p] !in pred && Passes(score, p, partner[p], threshold))
  }

  /** In a pairing no gold span is used twice. */
  lemma {:induction false} PairingOneToOne(score: ScoreFn, threshold: real, pred: set<Span>, gold: set<Span>,
                                           partner: map<Span, Span>, p: Span, q: Span)
    requires Pairing(score, threshold, pred, gold, partner)
    requires p in partner && q in partner && p != q
    ensures partner[p] != partner[q]
  {
    var rest := partner - {q};
    ValuesBound(rest);
    assert rest.Keys == partner.Keys - {q};
    forall k | k in partner && k != q
      ensures partner[k] in rest.Values
    {
      assert rest[k] == partner[k];
    }
    var lost := partner.Values - rest.Values;
    assert |rest.Values| == |partner.Values * rest.Values| + |rest.Values - partner.Values|;
    assert |lost| > 0;
    var v :| v in lost;
    var k :| k in partner && partner[k] == v;
  }

  /** A map has at most as many distinct values as keys. */
  lemma {:induction false} ValuesBound(m: map<Span, Span>)
    ensures |m.Values| <= |m.Keys|
    decreases |m.Keys|
  {
    if m.Keys != {} {
      var k :| k in m;
      var rest := m - {k};
      ValuesBound(rest);
      assert m.Values <= rest.Values + {m[k]} by {
        forall v | v in m.Values ensures v in rest.Values + {m[k]} {
          var j :| j in m && m[j] == v;
          if j != k {
            assert rest[j] == v;
          }
        }
      }
      assert rest.Keys == m.Keys - {k};
    } else {
      assert m.Values == {};
    }
  }

  /** No unpaired prediction could still be paired with an unpaired gold span. */
  predicate Maximal(score: ScoreFn, threshold: real, pred: set<Span>, gold: set<Span>, partner: map<Span, Span>) {
    forall p, g :: p in pred && g in gold && p !in partner && g !in partner.Values ==> Fails(score, p, g, threshold)
  }

  /** The exact pass: every predicted span that is also gold is paired with
      itself and counted once. */
  method ExactPass(pred: set<Span>, gold: set<Span>) returns (partner: map<Span, Span>, exact: nat)
    ensures partner.Keys == pred * gold && partner.Values == pred * gold
    ensures forall p :: p in partner ==> partner[p] == p
    ensures exact == |pred * gold|
  {
    var matched: set<Span> := {};
    exact := 0;
    var done: set<Span> := {};
    var todo := pred;
    while todo != {}
      invariant todo !! done && todo + done == pred
      invariant matched == done * gold
      invariant exact == |matched|
      decreases |todo|
    {
      var p :| p in todo;
      assert p !in matched;
      if p in gold {
        assert (done + {p}) * gold == matched + {p};
        exact := exact + 1;
        matched := matched + {p};
      } else {
        assert (done + {p}) * gold == matched;
      }
      todo, done := todo - {p}, done + {p};
    }
    partner := map p | p in matched :: p;
    IdentityValues(matched);
  }

  lemma IdentityValues(s: set<Span>)
    ensures (map p | p in s :: p).Values == s
  {
    var m := map p | p in s :: p;
    forall v | v in s ensures v in m.Values {
      assert m[v] == v;
    }
  }

  /** The inner scan of the partial pass: walk the unmatched gold spans and
      stop (`break`) at the first whose score reaches the threshold. `ok` is
      false when a score raised `ZeroDivisionError`. */
  method FirstFit(p: Span, cands: set<Span>, score: ScoreFn, threshold: real)
    returns (ok: bool, found: bool, chosen: Span)
    ensures !ok ==> exists g :: g in cands && score(p, g).None?
    ensures ok && found ==> chosen in cands && Passes(score, p, chosen, threshold)
    ensures ok && !found ==> forall g :: g in cands ==> Fails(score, p, g, threshold)
  {
    ok, found, chosen := true, false, p;
    var rest := cands;
    while rest != {}
      invariant rest <= cands
      invariant forall g :: g in cands - rest ==> Fails(score, p, g, threshold)
      decreases |rest|
    {
      var g :| g in rest;
      var s := score(p, g);
      if s.None? {
        ok := false;
        return;
      }
      if s.value >= threshold {
        found, chosen := true, g;
        return;
      }
      rest := rest - {g};
    }
  }

  /** Pairing a new prediction with a new gold span adds that gold span to the
      paired ones. */
  lemma ExtendPartner(partner: map<Span, Span>, p: Span, g: Span)
    requires p !in partner && g !in partner.Values
    ensures partner[p := g].Values == partner.Values + {g}
    ensures |partner[p := g].Keys| == |partner.Keys| + 1
  {
    var m := partner[p := g];
    forall v | v in partner.Values ensures v in m.Values {
      var k :| k in partner && partner[k] == v;
      assert m[k] == v;
    }
    assert m[p] == g;
    assert m.Keys == partner.Keys + {p};
  }

  /** What the partial pass has built so far: the pairs made, the gold spans
      they use (`matched_gold`), the predictions still to visit, and the
      partial-pass count. */
  datatype PassState = PassState(partner: map<Span, Span>, matchedGold: set<Span>, pending: set<Span>, partial: nat)

  /** The partial pass's invariant: the pairs made so far form a pairing,
      and no prediction already visited and left unpaired could be paired
      with a gold span that is still free. */
  ghost predicate Progress(score: ScoreFn, threshold: real, pred: set<Span>, gold: set<Span>, s: PassState) {
    s.pending <= pred && s.pending !! s.partner.Keys
    && Pairing(score, threshold, pred, gold, s.partner)
    && s.partner.Values == s.matchedGold
    && |s.partner.Keys| == |pred * gold| + s.partial == |s.matchedGold|
    && (forall f, g :: f in pred && f !in s.partner && f !in s.pending && g in gold && g !in s.matchedGold ==>
          Fails(score, f, g, threshold))
  }

  /** One iteration of the partial pass, for the prediction `p`. */
  method PartialStep(p: Span, pred: set<Span>, gold: set<Span>, score: ScoreFn, threshold: real, s: PassState)
    returns (ok: bool, s': PassState)
    requires Progress(score, threshold, pred, gold, s) && p in s.pending
    ensures !ok ==> Raises(score, pred, gold)
    ensures ok ==> Progress(score, threshold, pred, gold, s') && s'.pending == s.pending - {p}
  {
    var fits, found, chosen := FirstFit(p, gold - s.matchedGold, score, threshold);
    if !fits {
      ok, s' := false, s;
      return;
    }
    ok := true;
    if found {
      s' := PassState(s.partner[p := chosen], s.matchedGold + {chosen}, s.pending - {p}, s.partial + 1);
      PairedStep(score, threshold, pred, gold, s, p, chosen);
    } else {
      s' := s.(pending := s.pending - {p});
    }
  }

  /** Pairing the visited prediction with a free gold span that passes keeps
      the partial pass's invariant. */
  lemma PairedStep(score: ScoreFn, threshold: real, pred: set<Span>, gold: set<Span>, s: PassState, p: Span, g: Span)
    requires Progress(score, threshold, pred, gold, s) && p in s.pending
    requires g in gold - s.matchedGold && Passes(score, p, g, threshold)
    ensures Progress(score, threshold, pred, gold,
                     PassState(s.partner[p := g], s.matchedGold + {g}, s.pending - {p}, s.partial + 1))
  {
    ExtendPartner(s.partner, p, g);
    PairingExtends(score, threshold, pred, gold, s.partner, s.matchedGold, p, g);
  }

  /** Adding a passing pair of a free prediction and a free gold span keeps a
      pairing. */
  lemma PairingExtends(score: ScoreFn, threshold: real, pred: set<Span>, gold: set<Span>,
                       partner: map<Span, Span>, matchedGold: set<Span>, p: Span, g: Span)
    requires Pairing(score, threshold, pred, gold, partner) && partner.Values == matchedGold
    requires pred * gold <= matchedGold
    requires p in pred && p !in partner && g in gold && g !in matchedGold && Passes(score, p, g, threshold)
    ensures Pairing(score, threshold, pred, gold, partner[p := g])
  {
    var m := partner[p := g];
    ExtendPartner(partner, p, g);
    assert p !in gold && g !in pred;
  }

  /** Match the predictions of one document against its gold spans. `ok` is
      false when the inline ratio raised `ZeroDivisionError`; otherwise
      `partner` is the matching built and `t` its counts. */
  method Match(pred: set<Span>, gold: set<Span>, score: ScoreFn, threshold: real)
    returns (ok: bool, t: Tally, partner: map<Span, Span>)
    ensures !ok ==> Raises(score, pred, gold)
    ensures ok ==> Pairing(score, threshold, pred, gold, partner)
    ensures ok ==> Maximal(score, threshold, pred, gold, partner)
    ensures ok ==> t.exact == |pred * gold| && t.exact + t.partial == |partner|
    ensures ok ==> t.exact + t.partial + t.fp == |pred| && t.exact + t.partial + t.fn == |gold|
  {
    ok, t, partner := true, Tally(0, 0, 0, 0), map[];
    var exactPairs, exact := ExactPass(pred, gold);
    var s := PassState(exactPairs, exactPairs.Values, pred - exactPairs.Keys, 0);
    while s.pending != {}
      invariant Progress(score, threshold, pred, gold, s)
      decreases |s.pending|
    {
      var p :| p in s.pending;
      ok, s := PartialStep(p, pred, gold, score, threshold, s);
      if !ok {
        return;
      }
    }
    partner := s.partner;
    t := Tally(exact, s.partial, |pred - partner.Keys|, |gold - s.matchedGold|);
  }

  /** The shared `jaccard` never raises, so matching with it always finishes. */
  lemma SharedNeverRaises(pred: set<Span>, gold: set<Span>)
    ensures !Raises(ScoreOf(SharedJaccard), pred, gold)
  {
  }
}
