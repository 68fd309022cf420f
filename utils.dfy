/** The two metric helpers every evaluator shares (`jaccard`, `prf1`), and the
    other Jaccard variant the overlap scripts define (`compute_jaccard`).
    Ratios are exact reals; the scripts' `round(...)` is presentation only. */
module Utils {
  import opened Spans

  /** `jaccard(a, b)`: |a ∩ b| / |a ∪ b|, and 0.0 when both sets are empty. */
  function Jaccard<T>(a: set<T>, b: set<T>): (r: real)
    ensures 0.0 <= r <= 1.0
    ensures r == 1.0 <==> a == b && a != {}
    ensures r == 0.0 <==> a * b == {}
  {
    if a != {} || b != {} then
      IntersectionBelowUnion(a, b);
      UnitRatio(|a * b|, |a + b|);
      (|a * b| as real) / (|a + b| as real)
    else 0.0
  }

  /** `compute_jaccard(a, b)`: the same ratio, but 1.0 when both sets are empty. */
  function ComputeJaccard<T>(a: set<T>, b: set<T>): (r: real)
    ensures 0.0 <= r <= 1.0
    ensures r == 1.0 <==> a == b
    ensures r == 0.0 <==> a * b == {} && a + b != {}
  {
    if a == {} && b == {} then 1.0
    else
      IntersectionBelowUnion(a, b);
      UnitRatio(|a * b|, |a + b|);
      (|a * b| as real) / (|a + b| as real)
  }

  /** A ratio of counts, the smaller over the larger, lies in [0, 1] and is 1
      only for equal counts. */
  lemma UnitRatio(x: nat, y: nat)
    requires 0 < y && x <= y
    ensures 0.0 <= x as real / y as real <= 1.0
    ensures x as real / y as real == 1.0 <==> x == y
    ensures x as real / y as real == 0.0 <==> x == 0
  {
    var q := x as real / y as real;
    assert q * (y as real) == x as real;
  }

  /** The intersection is never larger than the union, and is as large only
      when the two sets are equal. */
  lemma IntersectionBelowUnion<T>(a: set<T>, b: set<T>)
    ensures |a * b| <= |a + b|
    ensures |a * b| == |a + b| <==> a == b
    ensures a + b != {} ==> |a + b| > 0
  {
    if a == b {
      assert a * b == a + b;
    }
    assert |a + b| == |a - b| + |b - a| + |a * b| by {
      assert a + b == (a - b) + (b - a) + (a * b);
      assert (a - b) * (b - a) == {} && ((a - b) + (b - a)) * (a * b) == {};
    }
    if |a * b| == |a + b| {
      assert |a - b| == 0 && |b - a| == 0;
      assert a - b == {} && b - a == {};
    }
  }

  /** The two variants agree except on two empty sets. */
  lemma JaccardVariantsAgree<T>(a: set<T>, b: set<T>)
    ensures a != {} || b != {} ==> Jaccard(a, b) == ComputeJaccard(a, b)
    ensures a == {} && b == {} ==> Jaccard(a, b) == 0.0 && ComputeJaccard(a, b) == 1.0
  {
  }

  lemma JaccardSymmetric<T>(a: set<T>, b: set<T>)
    ensures Jaccard(a, b) == Jaccard(b, a)
    ensures ComputeJaccard(a, b) == ComputeJaccard(b, a)
  {
    assert a * b == b * a && a + b == b + a;
  }

  /** The Jaccard score of two spans' position sets, from their widths alone. */
  lemma SpanJaccard(p: Span, g: Span)
    ensures var o := Width(Common(p, g));
      Jaccard(SpanToSet(p), SpanToSet(g))
        == if Width(p) + Width(g) > 0 then o as real / (Width(p) + Width(g) - o) as real else 0.0
  {
    OverlapSets(p, g);
  }

  /** `jaccard(set(range(0, 5)), set(range(1, 5)))` is 4/5, and two disjoint
      non-empty ranges score 0. */
  lemma JaccardRangeExamples()
    ensures Jaccard(SpanToSet(Span(0, 5)), SpanToSet(Span(1, 5))) == 0.8
    ensures Jaccard(SpanToSet(Span(0, 5)), SpanToSet(Span(10, 15))) == 0.0
  {
    SpanJaccard(Span(0, 5), Span(1, 5));
    SpanJaccard(Span(0, 5), Span(10, 15));
  }

  /** Precision, recall and F1 as `prf1` returns them. */
  datatype Metrics = Metrics(precision: real, recall: real, f1: real)

  /** `prf1(tp, fp, fn)`: each ratio is 0 where its denominator is 0. */
  function Prf1(tp: int, fp: int, fn: int): (m: Metrics)
    ensures tp == 0 ==> m == Metrics(0.0, 0.0, 0.0)
    ensures 0 <= tp && 0 <= fp && 0 <= fn ==>
      0.0 <= m.precision <= 1.0 && 0.0 <= m.recall <= 1.0 && 0.0 <= m.f1 <= 1.0
    ensures 0 < tp && 0 <= fp && 0 <= fn ==>
      m.precision == tp as real / (tp + fp) as real
      && m.recall == tp as real / (tp + fn) as real
      && m.f1 == (2 * tp) as real / (2 * tp + fp + fn) as real
  {
    var p := if tp + fp != 0 then tp as real / (tp + fp) as real else 0.0;
    var r := if tp + fn != 0 then tp as real / (tp + fn) as real else 0.0;
    var f := if p + r != 0.0 then 2.0 * p * r / (p + r) else 0.0;
    if 0 < tp && 0 <= fp && 0 <= fn then
      F1Closed(tp as real, fp as real, fn as real, p, r, f);
      Metrics(p, r, f)
    else
      Metrics(p, r, f)
  }

  /** The harmonic mean of t/(t+a) and t/(t+b) is 2t/(2t+a+b). */
  lemma F1Closed(t: real, a: real, b: real, p: real, r: real, f: real)
    requires t > 0.0 && a >= 0.0 && b >= 0.0
    requires p == t / (t + a) && r == t / (t + b)
    requires f == if p + r != 0.0 then 2.0 * p * r / (p + r) else 0.0
    ensures p + r != 0.0 && f == 2.0 * t / (2.0 * t + a + b)
    ensures 0.0 < p <= 1.0 && 0.0 < r <= 1.0 && 0.0 < f <= 1.0
  {
    var A, B := t + a, t + b;
    QuotientTimes(t, A, p);
    QuotientTimes(t, B, r);
    var S := p + r;
    SumOfQuotients(p, r, A, B, t);
    ProductOfQuotients(p, r, A, B, t);
    assert S > 0.0;
    HarmonicMean(f, S, p * r, A * B, t, A + B);
    assert 2.0 * t + a + b == A + B;
    RatioAtMostOne(t, a);
    RatioAtMostOne(t, b);
  }

  lemma QuotientTimes(t: real, d: real, q: real)
    requires t > 0.0 && d > 0.0 && q == t / d
    ensures q * d == t && q > 0.0
  {
  }

  lemma SumOfQuotients(p: real, r: real, A: real, B: real, t: real)
    requires p * A == t && r * B == t
    ensures (p + r) * (A * B) == t * (A + B)
  {
    calc {
      (p + r) * (A * B);
      (p * A) * B + (r * B) * A;
      t * B + t * A;
    }
  }

  lemma ProductOfQuotients(p: real, r: real, A: real, B: real, t: real)
    requires p * A == t && r * B == t
    ensures (p * r) * (A * B) == t * t
  {
    calc {
      (p * r) * (A * B);
      (p * A) * (r * B);
    }
  }

  /** With S·AB = t·D and P·AB = t², the quotient 2P/S is 2t/D. */
  lemma HarmonicMean(f: real, S: real, P: real, AB: real, t: real, D: real)
    requires S > 0.0 && t > 0.0 && D > 0.0
    requires f == 2.0 * P / S
    requires S * AB == t * D && P * AB == t * t
    ensures f == 2.0 * t / D
  {
    assert f * S == 2.0 * P;
    assert f * t * D == 2.0 * t * t by {
      calc {
        f * t * D;
        f * (S * AB);
        (f * S) * AB;
        2.0 * (P * AB);
      }
    }
    assert f * D == 2.0 * t;
  }

  lemma RatioAtMostOne(t: real, c: real)
    requires t > 0.0 && c >= 0.0
    ensures 0.0 < t / (t + c) <= 1.0
  {
    var q := t / (t + c);
    assert q * (t + c) == t;
  }

  /** Scoring more true positives against the same false positives and false
      negatives never lowers precision or recall. */
  lemma {:induction false} Prf1Monotone(t1: int, t2: int, fp: int, fn: int)
    requires 0 <= t1 <= t2 && 0 <= fp && 0 <= fn
    ensures Prf1(t1, fp, fn).precision <= Prf1(t2, fp, fn).precision
    ensures Prf1(t1, fp, fn).recall <= Prf1(t2, fp, fn).recall
  {
    if t1 > 0 {
      RatioMonotone(t1 as real, t2 as real, fp as real);
      RatioMonotone(t1 as real, t2 as real, fn as real);
    }
  }

  lemma RatioMonotone(x: real, y: real, c: real)
    requires 0.0 < x <= y && 0.0 <= c
    ensures x / (x + c) <= y / (y + c)
  {
    MulNonneg(y - x, c);
    assert x * (y + c) <= y * (x + c);
    LeByCross(x, x + c, y, y + c);
  }

  /** `a/p <= b/q` follows from `a*q <= b*p` when both denominators are positive. */
  lemma LeByCross(a: real, p: real, b: real, q: real)
    requires p > 0.0 && q > 0.0 && a * q <= b * p
    ensures a / p <= b / q
  {
    var u, v := a / p, b / q;
    var pq := p * q;
    MulPos(p, q);
    assert a * q == u * pq;
    assert b * p == v * pq;
    if u > v {
      MulPos(u - v, pq);
    }
  }

  lemma MulNonneg(a: real, b: real)
    requires a >= 0.0 && b >= 0.0
    ensures a * b >= 0.0
  {
  }

  lemma MulPos(a: real, b: real)
    requires a > 0.0 && b > 0.0
    ensures a * b > 0.0
  {
  }
}
