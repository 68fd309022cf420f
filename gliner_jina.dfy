/** The candidate spans of the hand-written GLiNER model: every token span
    `(start, end)`, both ends inclusive, no wider than `max_length` tokens,
    listed by start and then by end. */
module GlinerJina {

  function Min(a: int, b: int): int {
    if a <= b then a else b
  }

  function Max(a: int, b: int): int {
    if a <= b then b else a
  }

  type Span = (int, int)

  /** `[(start, end) for end in range(start, min(seq_len, start + max_length))]` */
  function Row(start: int, seqLen: int, maxLength: int): seq<Span> {
    var stop := Min(seqLen, start + maxLength);
    seq(Max(0, stop - start), i requires 0 <= i => (start, start + i))
  }

  /** The pairs of the starts `start`, `start + 1`, ..., `seq_len - 1`. */
  function SpansFrom(start: int, seqLen: int, maxLength: int): seq<Span>
    decreases seqLen - start
  {
    if start >= seqLen then [] else Row(start, seqLen, maxLength) + SpansFrom(start + 1, seqLen, maxLength)
  }

  /** `generate_spans(seq_len, max_length)` */
  function GenerateSpans(seqLen: int, maxLength: int := 10): seq<Span> {
    SpansFrom(0, seqLen, maxLength)
  }

  /** A span of at most `maxLength` tokens inside a text of `seqLen` tokens. */
  predicate Candidate(p: Span, seqLen: int, maxLength: int) {
    0 <= p.0 <= p.1 < seqLen && p.1 - p.0 < maxLength
  }

  /** `p` comes strictly before `q` by start, then by end. */
  predicate Before(p: Span, q: Span) {
    p.0 < q.0 || (p.0 == q.0 && p.1 < q.1)
  }

  /** Every pair comes strictly before the pairs listed after it. */
  predicate Increasing(r: seq<Span>) {
    forall i, j | 0 <= i < j < |r| :: Before(r[i], r[j])
  }

  lemma RowMembers(start: int, seqLen: int, maxLength: int)
    ensures forall p | p in Row(start, seqLen, maxLength) ::
              p.0 == start && start <= p.1 < seqLen && p.1 - start < maxLength
    ensures forall p: Span | p.0 == start && start <= p.1 < seqLen && p.1 - start < maxLength ::
              p in Row(start, seqLen, maxLength)
  {
    var r := Row(start, seqLen, maxLength);
    forall p: Span | p.0 == start && start <= p.1 < seqLen && p.1 - start < maxLength ensures p in r {
      assert r[p.1 - start] == p;
    }
  }

  lemma {:induction false} SpansFromMembers(start: int, seqLen: int, maxLength: int)
    ensures forall p :: p in SpansFrom(start, seqLen, maxLength) <==>
              start <= p.0 && p.0 <= p.1 < seqLen && p.1 - p.0 < maxLength
    decreases seqLen - start
  {
    if start < seqLen {
      RowMembers(start, seqLen, maxLength);
      SpansFromMembers(start + 1, seqLen, maxLength);
    }
  }

  /** A pair is generated exactly when it is a candidate span: both ends
      inside the text, start not after end, and fewer than `max_length`
      tokens apart. */
  lemma GeneratedIffCandidate(seqLen: int, maxLength: int)
    ensures forall p :: p in GenerateSpans(seqLen, maxLength) <==> Candidate(p, seqLen, maxLength)
  {
    SpansFromMembers(0, seqLen, maxLength);
  }

  lemma {:induction false} SpansFromOrdered(start: int, seqLen: int, maxLength: int)
    ensures Increasing(SpansFrom(start, seqLen, maxLength))
    decreases seqLen - start
  {
    if start < seqLen {
      var row, rest := Row(start, seqLen, maxLength), SpansFrom(start + 1, seqLen, maxLength);
      SpansFromOrdered(start + 1, seqLen, maxLength);
      SpansFromMembers(start + 1, seqLen, maxLength);
      var r := row + rest;
      forall i, j | 0 <= i < j < |r| ensures Before(r[i], r[j]) {
        if j < |row| {
          assert r[i] == row[i] == (start, start + i);
          assert r[j] == row[j] == (start, start + j);
        } else if i < |row| {
          assert r[i] == row[i] && row[i] in row;
          assert r[j] == rest[j - |row|] && rest[j - |row|] in rest;
          assert r[i].0 == start < r[j].0;
        } else {
          assert r[i] == rest[i - |row|] && r[j] == rest[j - |row|];
          assert Before(rest[i - |row|], rest[j - |row|]);
        }
      }
    }
  }

  /** The pairs are listed by start, then by end, so none is repeated. */
  lemma GeneratedOrdered(seqLen: int, maxLength: int)
    ensures Increasing(GenerateSpans(seqLen, maxLength))
    ensures var r := GenerateSpans(seqLen, maxLength);
            forall i, j | 0 <= i < j < |r| :: r[i] != r[j]
  {
    SpansFromOrdered(0, seqLen, maxLength);
  }

  /** `sum(min(max_length, k) for k in 1..remaining)` in closed form. */
  function Triangle(remaining: nat, maxLength: nat): nat {
    if remaining <= maxLength then remaining * (remaining + 1) / 2
    else maxLength * (maxLength + 1) / 2 + (remaining - maxLength) * maxLength
  }

  lemma TriangleStep(k: nat, m: nat)
    ensures Triangle(k + 1, m) == Triangle(k, m) + Min(m, k + 1)
  {
    if k + 1 <= m {
      assert (k + 1) * (k + 2) == k * (k + 1) + 2 * (k + 1);
    }
  }

  lemma {:induction false} SpansFromCount(start: int, seqLen: int, maxLength: int)
    requires start <= seqLen
    ensures |SpansFrom(start, seqLen, maxLength)| == Triangle(seqLen - start, Max(0, maxLength))
    decreases seqLen - start
  {
    if start < seqLen {
      SpansFromCount(start + 1, seqLen, maxLength);
      TriangleStep(seqLen - start - 1, Max(0, maxLength));
    }
  }

  /** With a text of `n` tokens and spans of at most `m` tokens, there are
      `n(n+1)/2` pairs when `n <= m` and `m(m+1)/2 + (n-m)m` otherwise:
      `min(m, n - s)` pairs for each start `s`. An empty text or a
      non-positive width gives none. */
  lemma GeneratedCount(seqLen: int, maxLength: int)
    ensures |GenerateSpans(seqLen, maxLength)|
            == if seqLen <= 0 || maxLength <= 0 then 0 else Triangle(seqLen, maxLength)
  {
    if seqLen > 0 {
      SpansFromCount(0, seqLen, maxLength);
    }
  }
}
