/** The small part of Python's `str` behaviour that the evaluation scripts rely on:
    whitespace stripping and splitting, splitting on and joining with a separator,
    `replace`, ASCII `lower`, `startswith`, clamped slicing, `str(n)` and `zfill`. */
module PyStr {

  /** The characters `str.isspace()` accepts: what `split()`, `strip()` and
      the regular-expression class `\s` treat as whitespace. */
  predicate IsSpace(c: char) {
    var n := c as int;
    (0x09 <= n <= 0x0D) || (0x1C <= n <= 0x20) || n == 0x85 || n == 0xA0 || n == 0x1680
    || (0x2000 <= n <= 0x200A) || n == 0x2028 || n == 0x2029 || n == 0x202F || n == 0x205F
    || n == 0x3000
  }

  predicate IsAsciiDigit(c: char) { '0' <= c <= '9' }

  predicate NoSpace(s: string) { forall i :: 0 <= i < |s| ==> !IsSpace(s[i]) }

  /** `s.lstrip()` */
  function LStrip(s: string): (r: string)
    ensures |r| <= |s| && r == s[|s| - |r|..]
    ensures r == [] || !IsSpace(r[0])
    ensures forall i :: 0 <= i < |s| - |r| ==> IsSpace(s[i])
  {
    if s == [] || !IsSpace(s[0]) then s else LStrip(s[1..])
  }

  /** `s.rstrip()` */
  function RStrip(s: string): (r: string)
    ensures |r| <= |s| && r == s[..|r|]
    ensures r == [] || !IsSpace(r[|r| - 1])
    ensures forall i :: |r| <= i < |s| ==> IsSpace(s[i])
  {
    if s == [] || !IsSpace(s[|s| - 1]) then s else RStrip(s[..|s| - 1])
  }

  /** `s.strip()` */
  function Strip(s: string): string {
    RStrip(LStrip(s))
  }

  /** The longest prefix of `s` holding no whitespace. */
  function Word(s: string): (r: string)
    ensures |r| <= |s| && r == s[..|r|] && NoSpace(r)
    ensures |r| < |s| ==> IsSpace(s[|r|])
  {
    if s == [] || IsSpace(s[0]) then [] else [s[0]] + Word(s[1..])
  }

  /** `s.split()`: the maximal runs of non-whitespace characters, in order. */
  function SplitWs(s: string): (r: seq<string>)
    ensures forall i :: 0 <= i < |r| ==> r[i] != [] && NoSpace(r[i])
    decreases |s|
  {
    var t := LStrip(s);
    if t == [] then [] else
      var w := Word(t);
      assert |w| > 0 by { assert !IsSpace(t[0]); }
      [w] + SplitWs(t[|w|..])
  }

  /** A word on its own splits into itself. */
  lemma SplitWsWord(w: string)
    requires w != [] && NoSpace(w)
    ensures SplitWs(w) == [w]
  {
    assert !IsSpace(w[0]);
    assert LStrip(w) == w;
    assert w + [] == w;
    WordOf(w, []);
    assert w[|w|..] == [];
    assert SplitWs([]) == [];
  }

  /** A word followed by a space and more text splits into that word and the
      split of the rest. */
  lemma SplitWsCons(w: string, rest: string)
    requires w != [] && NoSpace(w)
    ensures SplitWs(w + " " + rest) == [w] + SplitWs(rest)
  {
    var s := w + (" " + rest);
    assert s == w + " " + rest;
    assert !IsSpace(s[0]);
    assert LStrip(s) == s;
    WordOf(w, " " + rest);
    assert s[|w|..] == " " + rest;
    assert (" " + rest)[1..] == rest;
    assert LStrip(" " + rest) == LStrip(rest);
  }

  /** The first word of `w + t` is `w` when `t` is empty or starts with a space. */
  lemma {:induction false} WordOf(w: string, t: string)
    requires NoSpace(w) && (t == [] || IsSpace(t[0]))
    ensures Word(w + t) == w
    decreases |w|
  {
    if w != [] {
      assert (w + t)[1..] == w[1..] + t;
      WordOf(w[1..], t);
    } else {
      assert w + t == t;
    }
  }

  /** `sep` occurs in `s` at index `j`. */
  predicate OccursAt(s: string, sep: string, j: int) {
    0 <= j && j + |sep| <= |s| && s[j..j + |sep|] == sep
  }

  /** The index of the first occurrence of `sep` in `s`, or -1 (`s.find(sep)`). */
  function Find(s: string, sep: string): (r: int)
    requires |sep| > 0
    ensures r >= -1 && (r >= 0 ==> r <= |s| - |sep|)
    ensures r >= 0 ==> OccursAt(s, sep, r)
    ensures forall j :: 0 <= j && (r < 0 || j < r) ==> !OccursAt(s, sep, j)
    decreases |s|
  {
    if |s| < |sep| then -1
    else if s[..|sep|] == sep then 0
    else
      var k := Find(s[1..], sep);
      forall j | 1 <= j ensures OccursAt(s, sep, j) == OccursAt(s[1..], sep, j - 1) {
        if j + |sep| <= |s| {
          var a, b := s[j..j + |sep|], s[1..][j - 1..j - 1 + |sep|];
          assert forall k :: 0 <= k < |a| ==> a[k] == b[k];
        }
      }
      if k < 0 then -1 else k + 1
  }

  predicate Contains(s: string, sep: string)
    requires |sep| > 0
  {
    Find(s, sep) >= 0
  }

  /** A prefix that ends before the first occurrence of `sep` does not contain it. */
  lemma PrefixBeforeFind(s: string, sep: string, j: nat)
    requires |sep| > 0 && j <= |s|
    requires forall i :: 0 <= i < j ==> !OccursAt(s, sep, i)
    ensures !Contains(s[..j], sep)
  {
    var t := s[..j];
    var k := Find(t, sep);
    if k >= 0 {
      assert t[k..k + |sep|] == s[k..k + |sep|];
      assert OccursAt(s, sep, k);
    }
  }

  /** `s.split(sep)` for a non-empty separator: cut at every non-overlapping
      occurrence, scanning left to right. */
  function SplitOn(s: string, sep: string): (r: seq<string>)
    requires |sep| > 0
    ensures |r| >= 1
    ensures forall i :: 0 <= i < |r| ==> !Contains(r[i], sep)
    decreases |s|
  {
    var j := Find(s, sep);
    if j < 0 then [s]
    else
      PrefixBeforeFind(s, sep, j);
      [s[..j]] + SplitOn(s[j + |sep|..], sep)
  }

  /** `sep.join(parts)` */
  function Join(parts: seq<string>, sep: string): string
  {
    if parts == [] then []
    else if |parts| == 1 then parts[0]
    else parts[0] + sep + Join(parts[1..], sep)
  }

  /** Splitting on a separator and joining the pieces back with it gives the
      string back. */
  lemma {:induction false} JoinSplitOn(s: string, sep: string)
    requires |sep| > 0
    ensures Join(SplitOn(s, sep), sep) == s
    decreases |s|
  {
    var j := Find(s, sep);
    if j >= 0 {
      var rest := s[j + |sep|..];
      var parts := SplitOn(s, sep);
      assert parts == [s[..j]] + SplitOn(rest, sep);
      assert parts[1..] == SplitOn(rest, sep);
      assert Join(parts, sep) == s[..j] + sep + Join(SplitOn(rest, sep), sep);
      JoinSplitOn(rest, sep);
      assert s == s[..j] + s[j..j + |sep|] + rest;
    }
  }

  /** `s.split(sep, 1)[1]`, the text after the first occurrence of `sep`, when there is one. */
  function AfterFirst(s: string, sep: string): (r: string)
    requires |sep| > 0 && Contains(s, sep)
    ensures s == s[..Find(s, sep)] + sep + r
  {
    var j := Find(s, sep);
    assert s == s[..j] + s[j..j + |sep|] + s[j + |sep|..];
    s[j + |sep|..]
  }

  /** `s.replace(old, new)` for a non-empty `old`. */
  function Replace(s: string, pat: string, rep: string): (r: string)
    requires |pat| > 0
    decreases |s|
  {
    var j := Find(s, pat);
    if j < 0 then s else s[..j] + rep + Replace(s[j + |pat|..], pat, rep)
  }

  /** Replacing a single character by text that does not hold it removes every
      occurrence of it. */
  lemma {:induction false} ReplaceRemoves(s: string, c: char, rep: string)
    requires c !in rep
    ensures c !in Replace(s, [c], rep)
    decreases |s|
  {
    var j := Find(s, [c]);
    var stop := if j < 0 then |s| else j;
    forall i | 0 <= i < stop ensures s[i] != c {
      assert !OccursAt(s, [c], i);
      assert s[i..i + 1] == [s[i]];
    }
    if j >= 0 {
      ReplaceRemoves(s[j + 1..], c, rep);
      assert c !in s[..j];
    }
  }

  /** Replacing a character by text that does not hold `d` keeps `d` out if it
      was out. */
  lemma {:induction false} ReplaceKeepsOut(s: string, pat: string, rep: string, d: char)
    requires |pat| > 0 && d !in s && d !in rep
    ensures d !in Replace(s, pat, rep)
    decreases |s|
  {
    var j := Find(s, pat);
    if j >= 0 {
      ReplaceKeepsOut(s[j + |pat|..], pat, rep, d);
    }
  }

  /** `c.lower()` for ASCII letters; other characters are left as they are. */
  function LowerChar(c: char): (r: char)
    ensures 'A' <= c <= 'Z' ==> 'a' <= r <= 'z'
    ensures !('A' <= c <= 'Z') ==> r == c
  {
    if 'A' <= c <= 'Z' then (c as int + 32) as char else c
  }

  /** `s.lower()`, character by character. */
  function Lower(s: string): (r: string)
    ensures |r| == |s| && forall i :: 0 <= i < |s| ==> r[i] == LowerChar(s[i])
  {
    if s == [] then [] else [LowerChar(s[0])] + Lower(s[1..])
  }

  /** `s.startswith(p)` */
  predicate StartsWith(s: string, p: string) {
    |p| <= |s| && s[..|p|] == p
  }

  /** A Python slice bound: negative counts from the end, then clamped to `[0, n]`. */
  function ClampIndex(i: int, n: nat): (r: nat)
    ensures r <= n
  {
    if i < 0 then (if i + n < 0 then 0 else i + n) else if i > n then n else i
  }

  /** `s[i:j]` with Python's index rules: never fails, may be empty. */
  function PySlice(s: string, i: int, j: int): (r: string)
    ensures 0 <= i <= j <= |s| ==> r == s[i..j]
    ensures |r| <= |s|
  {
    var a := ClampIndex(i, |s|);
    var b := ClampIndex(j, |s|);
    if a < b then s[a..b] else []
  }

  function DigitChar(d: nat): (c: char)
    requires d < 10
    ensures IsAsciiDigit(c)
  {
    ('0' as int + d) as char
  }

  function DigitValue(c: char): (d: nat)
    requires IsAsciiDigit(c)
    ensures d < 10 && DigitChar(d) == c
  {
    (c as int - '0' as int)
  }

  /** `str(n)` for a natural number. */
  function NatToString(n: nat): (r: string)
    ensures r != [] && forall i :: 0 <= i < |r| ==> IsAsciiDigit(r[i])
  {
    if n < 10 then [DigitChar(n)] else NatToString(n / 10) + [DigitChar(n % 10)]
  }

  /** The number a string of ASCII digits denotes (leading zeros allowed). */
  function DecimalValue(s: string): nat
    requires forall i :: 0 <= i < |s| ==> IsAsciiDigit(s[i])
  {
    if s == [] then 0 else 10 * DecimalValue(s[..|s| - 1]) + DigitValue(s[|s| - 1])
  }

  lemma {:induction false} NatToStringValue(n: nat)
    ensures DecimalValue(NatToString(n)) == n
  {
    if n >= 10 {
      NatToStringValue(n / 10);
      var s := NatToString(n);
      assert s[..|s| - 1] == NatToString(n / 10);
    }
  }

  /** Leading zeros do not change the value of a digit string. */
  lemma {:induction false} LeadingZeroValue(s: string)
    requires forall i :: 0 <= i < |s| ==> IsAsciiDigit(s[i])
    ensures DecimalValue(['0'] + s) == DecimalValue(s)
    decreases |s|
  {
    if s != [] {
      var t := ['0'] + s;
      assert t[..|t| - 1] == ['0'] + s[..|s| - 1];
      LeadingZeroValue(s[..|s| - 1]);
    }
  }

  /** `s.zfill(width)` for a string without a sign: pad with '0' on the left. */
  function ZFill(s: string, width: int): (r: string)
    ensures |r| == if |s| >= width then |s| else width
    ensures r[|r| - |s|..] == s
    ensures forall i :: 0 <= i < |r| - |s| ==> r[i] == '0'
    decreases width - |s|
  {
    if |s| >= width then s else ['0'] + ZFill(s, width - 1)
  }

  /** Padding a digit string with zeros keeps it a digit string of the same value. */
  lemma {:induction false} ZFillDigits(s: string, width: int)
    requires forall i :: 0 <= i < |s| ==> IsAsciiDigit(s[i])
    ensures forall i :: 0 <= i < |ZFill(s, width)| ==> IsAsciiDigit(ZFill(s, width)[i])
    ensures DecimalValue(ZFill(s, width)) == DecimalValue(s)
    decreases width - |s|
  {
    if |s| < width {
      var z := ZFill(s, width - 1);
      ZFillDigits(s, width - 1);
      assert ZFill(s, width) == ['0'] + z;
      LeadingZeroValue(z);
    }
  }

  /** `str(n).zfill(w)` denotes `n` again: the padded counter can be read back. */
  lemma ZFillValue(n: nat, width: int)
    ensures forall i :: 0 <= i < |ZFill(NatToString(n), width)| ==> IsAsciiDigit(ZFill(NatToString(n), width)[i])
    ensures DecimalValue(ZFill(NatToString(n), width)) == n
  {
    NatToStringValue(n);
    ZFillDigits(NatToString(n), width);
  }
}
