/** Character spans and the sets of positions they cover. */
module Spans {

  /** A mention's character offsets `(start, end)`, end exclusive. Nothing in
      the scripts checks `start < end`, so a span may cover no position. */
  datatype Span = Span(start: int, end: int)

  function Max(a: int, b: int): int { if a < b then b else a }
  function Min(a: int, b: int): int { if a < b then a else b }

  /** The number of positions a span covers. */
  function Width(s: Span): nat {
    if s.end > s.start then s.end - s.start else 0
  }

  /** `a <= i < b`, named so that quantifiers over `i` have a trigger. */
  predicate Between(a: int, i: int, b: int) { a <= i < b }

  /** The integers `a, ..., b - 1`: Python's `set(range(a, b))`. */
  function Range(a: int, b: int): set<int> {
    set i | a <= i < b && Between(a, i, b)
  }

  /** `set(range(a, b))` has `b - a` elements, or none when `b <= a`. */
  lemma {:induction false} RangeCard(a: int, b: int)
    ensures |Range(a, b)| == if b > a then b - a else 0
    decreases b - a
  {
    if b > a {
      assert Range(a, b) == Range(a, b - 1) + {b - 1};
      RangeCard(a, b - 1);
    } else {
      assert Range(a, b) == {};
    }
  }

  /** `_span_to_set`: the positions `start, ..., end - 1`, empty when `end <= start`. */
  function SpanToSet(s: Span): (r: set<int>)
    ensures forall i :: i in r <==> s.start <= i < s.end
    ensures |r| == Width(s)
    ensures r == {} <==> s.end <= s.start
  {
    RangeCard(s.start, s.end);
    assert s.start < s.end ==> s.start in Range(s.start, s.end);
    Range(s.start, s.end)
  }

  /** The span covering exactly the positions two spans share. */
  function Common(p: Span, g: Span): Span {
    Span(Max(p.start, g.start), Min(p.end, g.end))
  }

  /** The positions two spans share are those of `Common(p, g)`; their count and
      the count of the positions either covers follow from the widths. */
  lemma OverlapSets(p: Span, g: Span)
    ensures SpanToSet(p) * SpanToSet(g) == SpanToSet(Common(p, g))
    ensures |SpanToSet(p) * SpanToSet(g)| == Width(Common(p, g))
    ensures |SpanToSet(p) + SpanToSet(g)| == Width(p) + Width(g) - Width(Common(p, g))
  {
    assert SpanToSet(p) * SpanToSet(g) == SpanToSet(Common(p, g));
  }
}
