/** `itertools.combinations(s, k)`: the k-element selections of a list, each
    keeping the list's order, enumerated in lexicographic order of positions. */
module Combos {

  /** The binomial coefficient, by Pascal's rule. */
  function Binom(n: nat, k: nat): nat {
    if k == 0 then 1 else if n == 0 then 0 else Binom(n - 1, k - 1) + Binom(n - 1, k)
  }

  function Pow2(n: nat): nat {
    if n == 0 then 1 else 2 * Pow2(n - 1)
  }

  /** `[x] + c` for every list `c`, in order. */
  function Prepend<T>(x: T, css: seq<seq<T>>): (r: seq<seq<T>>)
    ensures |r| == |css|
    ensures forall i | 0 <= i < |css| :: r[i] == [x] + css[i]
  {
    seq(|css|, i requires 0 <= i < |css| => [x] + css[i])
  }

  /** The selections that take the first element come first, then those that
      skip it: the order `itertools.combinations` yields. */
  function Combinations<T>(s: seq<T>, k: nat): (r: seq<seq<T>>)
    ensures |r| == Binom(|s|, k)
    decreases |s|
  {
    if k == 0 then [[]]
    else if s == [] then []
    else Prepend(s[0], Combinations(s[1..], k - 1)) + Combinations(s[1..], k)
  }

  /** `c` is obtained from `s` by deleting elements, keeping the order. */
  predicate IsSubseq<T(==)>(c: seq<T>, s: seq<T>)
    decreases |s|
  {
    c == [] || (s != [] && ((c[0] == s[0] && IsSubseq(c[1..], s[1..])) || IsSubseq(c, s[1..])))
  }

  /** Every element of a selection is an element of the list. */
  lemma {:induction false} SubseqMember<T>(c: seq<T>, s: seq<T>, m: nat)
    requires IsSubseq(c, s) && m < |c|
    ensures c[m] in s
    decreases |s|
  {
    if c[0] == s[0] && IsSubseq(c[1..], s[1..]) {
      if m > 0 {
        SubseqMember(c[1..], s[1..], m - 1);
      }
    } else {
      SubseqMember(c, s[1..], m);
    }
  }

  /** Every enumerated selection has `k` elements taken from `s` in order. */
  lemma {:induction false} CombinationsSound<T>(s: seq<T>, k: nat, c: seq<T>)
    requires c in Combinations(s, k)
    ensures |c| == k && IsSubseq(c, s)
    decreases |s|
  {
    if k == 0 {
    } else if s == [] {
    } else {
      var with, without := Combinations(s[1..], k - 1), Combinations(s[1..], k);
      if c in Prepend(s[0], with) {
        var i :| 0 <= i < |with| && c == [s[0]] + with[i];
        CombinationsSound(s[1..], k - 1, with[i]);
        assert c[1..] == with[i];
      } else {
        assert c in without;
        CombinationsSound(s[1..], k, c);
      }
    }
  }

  /** Every ordered `k`-element selection from `s` is enumerated. */
  lemma {:induction false} CombinationsComplete<T>(s: seq<T>, k: nat, c: seq<T>)
    requires |c| == k && IsSubseq(c, s)
    ensures c in Combinations(s, k)
    decreases |s|
  {
    if k == 0 {
      assert c == [];
    } else {
      assert s != [];
      var with, without := Combinations(s[1..], k - 1), Combinations(s[1..], k);
      assert Combinations(s, k) == Prepend(s[0], with) + without;
      if c[0] == s[0] && IsSubseq(c[1..], s[1..]) {
        CombinationsComplete(s[1..], k - 1, c[1..]);
        var i :| 0 <= i < |with| && with[i] == c[1..];
        assert c == [s[0]] + c[1..];
        assert Prepend(s[0], with)[i] == c;
      } else {
        assert IsSubseq(c, s[1..]);
        CombinationsComplete(s[1..], k, c);
      }
    }
  }

  /** Σ Binom(n, k) for `lo <= k <= hi`. */
  function BinomSum(n: nat, lo: nat, hi: int): nat
    decreases hi - lo + 1
  {
    if hi < lo then 0 else BinomSum(n, lo, hi - 1) + Binom(n, hi)
  }

  /** The selections of every size from `lo` to `hi`, smaller sizes first: the
      `for k in range(lo, hi + 1)` loop around `itertools.combinations`. */
  function CombosBetween<T>(s: seq<T>, lo: nat, hi: int): (r: seq<seq<T>>)
    ensures |r| == BinomSum(|s|, lo, hi)
    decreases hi - lo + 1
  {
    if hi < lo then [] else CombosBetween(s, lo, hi - 1) + Combinations(s, hi)
  }

  /** Every selection of a size in range is enumerated among `CombosBetween`. */
  lemma {:induction false} CombosBetweenComplete<T>(s: seq<T>, lo: nat, hi: int, c: seq<T>)
    requires lo <= |c| <= hi && IsSubseq(c, s)
    ensures c in CombosBetween(s, lo, hi)
    decreases hi - lo + 1
  {
    if |c| == hi {
      CombinationsComplete(s, hi, c);
    } else {
      CombosBetweenComplete(s, lo, hi - 1, c);
    }
  }

  /** Every selection enumerated among `CombosBetween` is an ordered selection
      of a size in range. */
  lemma {:induction false} CombosBetweenSound<T>(s: seq<T>, lo: nat, hi: int, c: seq<T>)
    requires c in CombosBetween(s, lo, hi)
    ensures lo <= |c| <= hi && IsSubseq(c, s)
    decreases hi - lo + 1
  {
    if c in Combinations(s, hi) {
      CombinationsSound(s, hi, c);
    } else {
      CombosBetweenSound(s, lo, hi - 1, c);
    }
  }

  lemma {:induction false} BinomAbove(n: nat, k: nat)
    requires k > n
    ensures Binom(n, k) == 0
  {
    if n > 0 {
      BinomAbove(n - 1, k - 1);
      BinomAbove(n - 1, k);
    }
  }

  lemma {:induction false} BinomOne(n: nat)
    ensures Binom(n, 1) == n
  {
    if n > 0 {
      BinomOne(n - 1);
    }
  }

  /** Pascal's rule summed over sizes `0..m`. */
  lemma {:induction false} BinomSumPascal(n: nat, m: int)
    requires n > 0 && m >= -1
    ensures BinomSum(n, 0, m) == BinomSum(n - 1, 0, m - 1) + BinomSum(n - 1, 0, m)
    decreases m + 1
  {
    if m >= 0 {
      BinomSumPascal(n, m - 1);
    }
  }

  /** There are 2^n selections of all sizes. */
  lemma {:induction false} AllSizes(n: nat)
    ensures BinomSum(n, 0, n) == Pow2(n)
  {
    if n > 0 {
      AllSizes(n - 1);
      BinomSumPascal(n, n);
      BinomAbove(n - 1, n);
    }
  }

  lemma {:induction false} DropFirstTwo(n: nat, hi: int)
    requires hi >= 1
    ensures BinomSum(n, 0, hi) == Binom(n, 0) + Binom(n, 1) + BinomSum(n, 2, hi)
    decreases hi
  {
    if hi > 1 {
      DropFirstTwo(n, hi - 1);
    }
  }

  /** A list of `n` items has 2^n - n - 1 selections of two or more items. */
  lemma SizesFromTwo<T>(s: seq<T>)
    ensures |CombosBetween(s, 2, |s|)| == Pow2(|s|) - |s| - 1
  {
    var n := |s|;
    AllSizes(n);
    if n >= 1 {
      DropFirstTwo(n, n);
      BinomOne(n);
    }
  }

  /** The five synonyms of a category give 26 combinations of two or more. */
  lemma FiveSynonyms(s: seq<string>)
    requires |s| == 5
    ensures |CombosBetween(s, 2, |s|)| == 26
  {
    SizesFromTwo(s);
    Pow2Five();
  }

  lemma Pow2Five()
    ensures Pow2(5) == 32
  {
  }
}
