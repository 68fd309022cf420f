/** The regular-expression tokenizer of the span dataset converter and the
    mapping of a character span to the tokens it covers. The pattern is
    `\n\n|\n|[A-Za-z0-9_]+|[^\w\s]`; the Unicode classes `\w` and `\s` are
    parameters. */
module FnData {
  import opened Wrappers

  /** A character of the ASCII class `[A-Za-z0-9_]`. */
  predicate AsciiWord(c: char) {
    ('A' <= c <= 'Z') || ('a' <= c <= 'z') || ('0' <= c <= '9') || c == '_'
  }

  /** The longest prefix of ASCII word characters. */
  function WordRun(s: string): (r: nat)
    ensures r <= |s|
    ensures forall k | 0 <= k < r :: AsciiWord(s[k])
    ensures r < |s| ==> !AsciiWord(s[r])
  {
    if s == [] || !AsciiWord(s[0]) then 0 else 1 + WordRun(s[1..])
  }

  /** The character classes `\w` and `\s` of the regular-expression engine. */
  datatype Classes = Classes(word: char -> bool, space: char -> bool)

  /** The length of the match at position `i`, trying the alternatives in
      order, or `None` when none matches there and the scan moves on. */
  function TokenLen(text: string, i: nat, cls: Classes): (r: Option<nat>)
    requires i < |text|
    ensures r.Some? ==> 0 < r.value && i + r.value <= |text|
  {
    if i + 1 < |text| && text[i] == '\n' && text[i + 1] == '\n' then Some(2)
    else if text[i] == '\n' then Some(1)
    else if AsciiWord(text[i]) then Some(WordRun(text[i..]))
    else if !cls.word(text[i]) && !cls.space(text[i]) then Some(1)
    else None
  }

  /** The offsets `finditer` reports from position `i` on. */
  function Offsets(text: string, i: nat, cls: Classes): seq<(int, int)>
    decreases |text| - i
  {
    if i >= |text| then []
    else
      match TokenLen(text, i, cls)
      case None => Offsets(text, i + 1, cls)
      case Some(n) => [(i, i + n)] + Offsets(text, i + n, cls)
  }

  /** Offsets that are non-empty, lie in `[lo, hi]`, and follow each other
      without overlapping. */
  predicate Ordered(offs: seq<(int, int)>, lo: int, hi: int) {
    && (forall k | 0 <= k < |offs| :: lo <= offs[k].0 < offs[k].1 <= hi)
    && (forall k | 0 <= k < |offs| - 1 :: offs[k].1 <= offs[k + 1].0)
  }

  /** The tokens are non-empty, in bounds, in increasing order and do not
      overlap. */
  lemma {:induction false} OffsetsOrdered(text: string, i: nat, cls: Classes)
    ensures Ordered(Offsets(text, i, cls), i, |text|)
    decreases |text| - i
  {
    if i < |text| {
      match TokenLen(text, i, cls)
      case None =>
        OffsetsOrdered(text, i + 1, cls);
      case Some(n) =>
        OffsetsOrdered(text, i + n, cls);
    }
  }

  /** The tokens the offsets cut out of the text. */
  function Slices(text: string, offs: seq<(int, int)>): seq<string>
    requires Ordered(offs, 0, |text|)
  {
    seq(|offs|, k requires 0 <= k < |offs| => text[offs[k].0..offs[k].1])
  }

  /** The state of `tokenize` after scanning up to position `i`: the offsets
      found so far followed by those still to come are all of them, and each
      token is the text its offsets cut out. */
  predicate Scanned(text: string, cls: Classes, i: nat, tokens: seq<string>, offsets: seq<(int, int)>) {
    && i <= |text|
    && offsets + Offsets(text, i, cls) == Offsets(text, 0, cls)
    && Ordered(offsets, 0, i)
    && |tokens| == |offsets|
    && forall k | 0 <= k < |offsets| :: tokens[k] == text[offsets[k].0..offsets[k].1]
  }

  lemma SkipStep(text: string, cls: Classes, i: nat, tokens: seq<string>, offsets: seq<(int, int)>)
    requires Scanned(text, cls, i, tokens, offsets) && i < |text| && TokenLen(text, i, cls).None?
    ensures Scanned(text, cls, i + 1, tokens, offsets)
  {
  }

  lemma TakeStep(text: string, cls: Classes, i: nat, tokens: seq<string>, offsets: seq<(int, int)>, n: nat)
    requires Scanned(text, cls, i, tokens, offsets) && i < |text| && TokenLen(text, i, cls) == Some(n)
    ensures Scanned(text, cls, i + n, tokens + [text[i..i + n]], offsets + [(i, i + n)])
  {
    assert offsets + Offsets(text, i, cls) == (offsets + [(i, i + n)]) + Offsets(text, i + n, cls);
  }

  /** `tokenize`: the tokens and their offsets, end exclusive. */
  method Tokenize(text: string, cls: Classes) returns (tokens: seq<string>, offsets: seq<(int, int)>)
    ensures offsets == Offsets(text, 0, cls)
    ensures Ordered(offsets, 0, |text|) && tokens == Slices(text, offsets)
  {
    tokens, offsets := [], [];
    var i := 0;
    while i < |text|
      invariant Scanned(text, cls, i, tokens, offsets)
      decreases |text| - i
    {
      match TokenLen(text, i, cls)
      case None =>
        SkipStep(text, cls, i, tokens, offsets);
        i := i + 1;
      case Some(n) =>
        TakeStep(text, cls, i, tokens, offsets, n);
        tokens := tokens + [text[i..i + n]];
        offsets := offsets + [(i, i + n)];
        i := i + n;
    }
    assert offsets + [] == offsets;
  }

  /** A token starting at a blank line is the two newlines. */
  lemma BlankLineFirst(text: string, i: nat, cls: Classes)
    requires i + 1 < |text| && text[i] == '\n' && text[i + 1] == '\n'
    ensures Offsets(text, i, cls)[0] == (i, i + 2)
  {
  }

  /** Every other character is a token of its own when it is neither a word
      nor a space character, and is skipped when it is one of them but not
      an ASCII word character or a newline. */
  lemma SingleCharacters(text: string, i: nat, cls: Classes)
    requires i < |text| && text[i] != '\n' && !AsciiWord(text[i])
    ensures !cls.word(text[i]) && !cls.space(text[i]) ==> Offsets(text, i, cls)[0] == (i, i + 1)
    ensures cls.word(text[i]) || cls.space(text[i]) ==> Offsets(text, i, cls) == Offsets(text, i + 1, cls)
  {
  }

  /** ASCII word characters belong to `\w`. */
  predicate WordClassOk(cls: Classes) {
    forall c: char | AsciiWord(c) :: cls.word(c)
  }

  /** The token `t` lies in the text and, when it starts with an ASCII word
      character, is a maximal run of them: it holds only such characters and
      neither the character before it nor the one after it is one. */
  predicate MaximalIfWord(text: string, t: (int, int)) {
    && 0 <= t.0 < t.1 <= |text|
    && (AsciiWord(text[t.0]) ==>
          && (forall k | t.0 <= k < t.1 :: AsciiWord(text[k]))
          && (t.1 == |text| || !AsciiWord(text[t.1]))
          && (t.0 == 0 || !AsciiWord(text[t.0 - 1])))
  }

  /** Every word token is a maximal run of ASCII word characters. */
  lemma {:induction false} WordTokensMaximal(text: string, i: nat, cls: Classes)
    requires WordClassOk(cls)
    requires i < |text| && AsciiWord(text[i]) && i > 0 ==> !AsciiWord(text[i - 1])
    ensures forall t | t in Offsets(text, i, cls) :: MaximalIfWord(text, t)
    decreases |text| - i
  {
    if i < |text| {
      match TokenLen(text, i, cls)
      case None =>
        WordTokensMaximal(text, i + 1, cls);
      case Some(n) =>
        if AsciiWord(text[i]) {
          forall k | i <= k < i + n ensures AsciiWord(text[k]) {
            assert text[i..][k - i] == text[k];
          }
          if i + n < |text| {
            assert text[i..][n] == text[i + n];
          }
        } else {
          assert n == 1 || text[i] == '\n';
          assert n == 2 ==> text[i + 1] == '\n';
        }
        assert MaximalIfWord(text, (i, i + n));
        WordTokensMaximal(text, i + n, cls);
    }
  }

  /** The first index whose token starts at or after `c`. */
  function StartTok(offs: seq<(int, int)>, c: int): (r: Option<nat>)
    ensures r.Some? ==> r.value < |offs| && offs[r.value].0 >= c
    ensures forall k | 0 <= k < |offs| && (r.None? || k < r.value) :: offs[k].0 < c
  {
    if offs == [] then None
    else
      var n := |offs| - 1;
      var p := StartTok(offs[..n], c);
      if p.Some? then p else if offs[n].0 >= c then Some(n) else None
  }

  /** The last index whose token starts before `c` and ends at or before it. */
  function EndTok(offs: seq<(int, int)>, c: int): (r: Option<nat>)
    ensures r.Some? ==> r.value < |offs| && offs[r.value].0 < c && offs[r.value].1 <= c
    ensures forall k | 0 <= k < |offs| && (r.None? || k > r.value) :: !(offs[k].0 < c && offs[k].1 <= c)
  {
    if offs == [] then None
    else
      var n := |offs| - 1;
      if offs[n].0 < c && offs[n].1 <= c then Some(n) else EndTok(offs[..n], c)
  }

  /** `char_span_to_token_span`: the inclusive token span, or `ValueError`
      when either end finds no token. */
  function TokenSpan(cStart: int, cEnd: int, offs: seq<(int, int)>): Result<(nat, nat)> {
    var s, e := StartTok(offs, cStart), EndTok(offs, cEnd);
    if s.None? || e.None? then Fail("ValueError") else Ok((s.value, e.value))
  }

  /** The scan of `char_span_to_token_span`. */
  method CharSpanToTokenSpan(cStart: int, cEnd: int, offs: seq<(int, int)>) returns (r: Result<(nat, nat)>)
    ensures r == TokenSpan(cStart, cEnd, offs)
  {
    var startTok: Option<nat> := None;
    var endTok: Option<nat> := None;
    for idx := 0 to |offs|
      invariant startTok == StartTok(offs[..idx], cStart)
      invariant endTok == EndTok(offs[..idx], cEnd)
    {
      assert offs[..idx + 1][..idx] == offs[..idx];
      var (tStart, tEnd) := offs[idx];
      if startTok.None? && tStart >= cStart {
        startTok := Some(idx);
      }
      if tStart < cEnd && tEnd <= cEnd {
        endTok := Some(idx);
      }
    }
    assert offs[..|offs|] == offs;
    if startTok.None? || endTok.None? {
      return Fail("ValueError");
    }
    r := Ok((startTok.value, endTok.value));
  }

  /** A character span that starts where token `a` starts and ends where
      token `b` ends maps back to tokens `a` through `b`. */
  lemma AlignedSpan(offs: seq<(int, int)>, lo: int, hi: int, a: nat, b: nat)
    requires Ordered(offs, lo, hi) && a <= b < |offs|
    ensures TokenSpan(offs[a].0, offs[b].1, offs) == Ok((a, b))
  {
    OrderedStarts(offs, lo, hi);
    var s := StartTok(offs, offs[a].0);
    var e := EndTok(offs, offs[b].1);
    assert !(offs[a].0 < offs[a].0);
    assert offs[b].0 < offs[b].1;
  }

  /** In ordered offsets, starts and ends grow strictly with the index. */
  lemma {:induction false} OrderedStarts(offs: seq<(int, int)>, lo: int, hi: int)
    requires Ordered(offs, lo, hi)
    ensures forall j, k | 0 <= j < k < |offs| :: offs[j].1 <= offs[k].0 && offs[j].0 < offs[k].0
    decreases |offs|
  {
    if |offs| > 1 {
      var n := |offs| - 1;
      OrderedStarts(offs[..n], lo, hi);
      forall j, k | 0 <= j < k < |offs| ensures offs[j].1 <= offs[k].0 && offs[j].0 < offs[k].0 {
        if k < n {
          assert offs[..n][j] == offs[j] && offs[..n][k] == offs[k];
        } else if j < n - 1 {
          assert offs[..n][j] == offs[j] && offs[..n][n - 1] == offs[n - 1];
        }
      }
    }
  }
}
