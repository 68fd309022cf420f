/** Python's ordering of strings (code point by code point, a proper prefix
    first) and a stable sort by a string key, as `sorted` and `list.sort`
    with `key=` perform it. */
module PySort {
  import opened Seqs

  /** `a < b` on Python strings. */
  predicate Lt(a: string, b: string)
    decreases |a|
  {
    if a == [] then b != []
    else if b == [] then false
    else if a[0] != b[0] then a[0] < b[0]
    else Lt(a[1..], b[1..])
  }

  lemma {:induction false} LtIrreflexive(a: string)
    ensures !Lt(a, a)
    decreases |a|
  {
    if a != [] {
      LtIrreflexive(a[1..]);
    }
  }

  lemma {:induction false} LtTransitive(a: string, b: string, c: string)
    requires Lt(a, b) && Lt(b, c)
    ensures Lt(a, c)
    decreases |a|
  {
    if a != [] && b != [] && c != [] && a[0] == b[0] && b[0] == c[0] {
      LtTransitive(a[1..], b[1..], c[1..]);
    }
  }

  /** Two different strings are ordered one way or the other. */
  lemma {:induction false} LtTotal(a: string, b: string)
    requires a != b
    ensures Lt(a, b) || Lt(b, a)
    decreases |a|
  {
    if a != [] && b != [] && a[0] == b[0] {
      assert a == [a[0]] + a[1..] && b == [b[0]] + b[1..];
      LtTotal(a[1..], b[1..]);
    }
  }

  /** No later element is smaller than an earlier one. */
  predicate SortedBy<T>(s: seq<T>, key: T -> string) {
    forall i, j | 0 <= i < j < |s| :: !Lt(key(s[j]), key(s[i]))
  }

  /** `x` placed after every element not greater than it: the step of a
      stable insertion sort. */
  function InsertBy<T>(x: T, s: seq<T>, key: T -> string): (r: seq<T>)
    ensures multiset(r) == multiset(s) + multiset{x}
    ensures |r| == |s| + 1
  {
    if s == [] then [x]
    else if Lt(key(x), key(s[0])) then [x] + s
    else
      assert s == [s[0]] + s[1..];
      [s[0]] + InsertBy(x, s[1..], key)
  }

  lemma {:induction false} InsertSorted<T>(x: T, s: seq<T>, key: T -> string)
    requires SortedBy(s, key)
    ensures SortedBy(InsertBy(x, s, key), key)
    decreases |s|
  {
    if s != [] {
      var r := InsertBy(x, s, key);
      if Lt(key(x), key(s[0])) {
        forall i, j | 0 <= i < j < |r| ensures !Lt(key(r[j]), key(r[i])) {
          if i == 0 {
            // r[j] is some s[k], not smaller than s[0], which is greater than x
            var k := j - 1;
            LtIrreflexive(key(s[0]));
            NotBelow(key(x), key(s[0]), key(s[k]));
          }
        }
      } else {
        InsertSorted(x, s[1..], key);
        var t := InsertBy(x, s[1..], key);
        assert multiset(t) == multiset(s[1..]) + multiset{x};
        forall j | 0 < j < |r| ensures !Lt(key(r[j]), key(s[0])) {
          assert r[j] == t[j - 1];
          assert r[j] in multiset(t);
          if r[j] == x {
            if key(x) != key(s[0]) {
              LtTotal(key(x), key(s[0]));
            }
            LtIrreflexive(key(s[0]));
          } else {
            assert r[j] in multiset(s[1..]);
            var k :| 0 <= k < |s[1..]| && s[1..][k] == r[j];
            assert s[k + 1] == r[j];
          }
        }
      }
    }
  }

  /** A string below `b` and with `b` not above `c` is below `c`. */
  lemma NotBelow(a: string, b: string, c: string)
    requires Lt(a, b) && !Lt(c, b)
    ensures !Lt(c, a)
  {
    if b == c {
      if Lt(c, a) {
        LtTransitive(a, b, a);
        LtIrreflexive(a);
      }
    } else {
      LtTotal(b, c);
      if Lt(c, a) {
        LtTransitive(b, c, a);
        LtTransitive(a, b, a);
        LtIrreflexive(a);
      }
    }
  }

  /** Sorting by insertion, one element after another. */
  function SortBy<T>(s: seq<T>, key: T -> string): (r: seq<T>)
    ensures multiset(r) == multiset(s) && |r| == |s|
  {
    if s == [] then []
    else
      assert s == s[..|s| - 1] + [s[|s| - 1]];
      InsertBy(s[|s| - 1], SortBy(s[..|s| - 1], key), key)
  }

  lemma {:induction false} SortByIsSorted<T>(s: seq<T>, key: T -> string)
    ensures SortedBy(SortBy(s, key), key)
    decreases |s|
  {
    if s != [] {
      SortByIsSorted(s[..|s| - 1], key);
      InsertSorted(s[|s| - 1], SortBy(s[..|s| - 1], key), key);
    }
  }

  /** `sorted(xs, key=key)` and `xs.sort(key=key)` */
  method Sort<T>(xs: seq<T>, key: T -> string) returns (r: seq<T>)
    ensures r == SortBy(xs, key)
    ensures SortedBy(r, key) && multiset(r) == multiset(xs)
  {
    r := [];
    for i := 0 to |xs|
      invariant r == SortBy(xs[..i], key)
    {
      assert xs[..i + 1][..i] == xs[..i];
      r := InsertBy(xs[i], r, key);
    }
    assert xs[..|xs|] == xs;
    SortByIsSorted(xs, key);
  }
}
