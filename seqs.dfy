/** Sequence helpers shared by the evaluators: flattening nested lists of
    result rows and summing counts over documents. */
module Seqs {

  /** Concatenation of a list of lists, in order. */
  function Flatten<T>(xss: seq<seq<T>>): (r: seq<T>)
    ensures xss == [] ==> r == []
  {
    if xss == [] then [] else Flatten(xss[..|xss| - 1]) + xss[|xss| - 1]
  }

  lemma {:induction false} FlattenAppend<T>(a: seq<seq<T>>, b: seq<seq<T>>)
    ensures Flatten(a + b) == Flatten(a) + Flatten(b)
    decreases |b|
  {
    if b == [] {
      assert a + b == a;
    } else {
      var b' := b[..|b| - 1];
      assert (a + b)[..|a + b| - 1] == a + b';
      FlattenAppend(a, b');
    }
  }

  /** Item `j` of list `i` sits after everything in the lists before `i`. */
  lemma FlattenIndex<T>(xss: seq<seq<T>>, i: nat, j: nat)
    requires i < |xss| && j < |xss[i]|
    ensures |Flatten(xss[..i])| + j < |Flatten(xss)|
    ensures Flatten(xss)[|Flatten(xss[..i])| + j] == xss[i][j]
  {
    assert xss == xss[..i] + [xss[i]] + xss[i + 1..];
    FlattenAppend(xss[..i] + [xss[i]], xss[i + 1..]);
    FlattenAppend(xss[..i], [xss[i]]);
    assert Flatten([xss[i]]) == xss[i] by {
      assert [xss[i]][..0] == [];
    }
  }

  /** List `i` occupies the block that starts after the lists before it. */
  lemma FlattenBlock<T>(xss: seq<seq<T>>, i: nat)
    requires i < |xss|
    ensures |Flatten(xss[..i])| + |xss[i]| <= |Flatten(xss)|
    ensures forall j | 0 <= j < |xss[i]| :: Flatten(xss)[|Flatten(xss[..i])| + j] == xss[i][j]
  {
    FlattenStep(xss, i);
    FlattenPrefix(xss, i + 1);
    forall j | 0 <= j < |xss[i]|
      ensures Flatten(xss)[|Flatten(xss[..i])| + j] == xss[i][j]
    {
      FlattenIndex(xss, i, j);
    }
  }

  /** The lists before `i` come first in the concatenation. */
  lemma FlattenPrefix<T>(xss: seq<seq<T>>, i: nat)
    requires i <= |xss|
    ensures Flatten(xss) == Flatten(xss[..i]) + Flatten(xss[i..])
  {
    assert xss == xss[..i] + xss[i..];
    FlattenAppend(xss[..i], xss[i..]);
  }

  /** After the lists before `i` and all of list `i`, the count is that of
      the first `i + 1` lists. */
  lemma FlattenStep<T>(xss: seq<seq<T>>, i: nat)
    requires i < |xss|
    ensures |Flatten(xss[..i + 1])| == |Flatten(xss[..i])| + |xss[i]|
  {
    assert xss[..i + 1][..i] == xss[..i];
  }

  /** `ok(xs[k], ys[k])` for every position of two lists of equal length:
      each produced row agrees with the job it was produced for. */
  predicate All<A, B>(ok: (A, B) -> bool, xs: seq<A>, ys: seq<B>) {
    |xs| == |ys|
    && (xs == [] || (All(ok, xs[..|xs| - 1], ys[..|ys| - 1]) && ok(xs[|xs| - 1], ys[|ys| - 1])))
  }

  lemma AllSnoc<A, B>(ok: (A, B) -> bool, xs: seq<A>, ys: seq<B>, x: A, y: B)
    requires All(ok, xs, ys) && ok(x, y)
    ensures All(ok, xs + [x], ys + [y])
  {
    assert (xs + [x])[..|xs|] == xs;
    assert (ys + [y])[..|ys|] == ys;
  }

  /** One more row for the next job of the list. */
  lemma AllNext<A, B>(ok: (A, B) -> bool, xs: seq<A>, ys: seq<B>, x: A, j: nat)
    requires j < |ys| && All(ok, xs, ys[..j]) && ok(x, ys[j])
    ensures All(ok, xs + [x], ys[..j + 1])
  {
    AllSnoc(ok, xs, ys[..j], x, ys[j]);
    assert ys[..j] + [ys[j]] == ys[..j + 1];
  }

  lemma {:induction false} AllConcat<A, B>(ok: (A, B) -> bool, xs: seq<A>, ys: seq<B>, xs': seq<A>, ys': seq<B>)
    requires All(ok, xs, ys) && All(ok, xs', ys')
    ensures All(ok, xs + xs', ys + ys')
    decreases |xs'|
  {
    if xs' == [] {
      assert xs + xs' == xs && ys + ys' == ys;
    } else {
      var n := |xs'| - 1;
      AllConcat(ok, xs, ys, xs'[..n], ys'[..n]);
      assert xs + xs' == (xs + xs'[..n]) + [xs'[n]];
      assert ys + ys' == (ys + ys'[..n]) + [ys'[n]];
      AllSnoc(ok, xs + xs'[..n], ys + ys'[..n], xs'[n], ys'[n]);
    }
  }

  lemma {:induction false} AllIndex<A, B>(ok: (A, B) -> bool, xs: seq<A>, ys: seq<B>)
    requires All(ok, xs, ys)
    ensures |xs| == |ys|
    ensures forall k | 0 <= k < |xs| :: ok(xs[k], ys[k])
    decreases |xs|
  {
    if xs != [] {
      var n := |xs| - 1;
      AllIndex(ok, xs[..n], ys[..n]);
      forall k | 0 <= k < |xs|
        ensures ok(xs[k], ys[k])
      {
        if k < n {
          assert xs[..n][k] == xs[k] && ys[..n][k] == ys[k];
        }
      }
    }
  }

  /** The concatenation of the first `i + 1` lists extends that of the first `i`. */
  lemma FlattenNext<T>(xss: seq<seq<T>>, i: nat)
    requires i < |xss|
    ensures Flatten(xss[..i + 1]) == Flatten(xss[..i]) + xss[i]
  {
    assert xss[..i + 1][..i] == xss[..i];
  }

  /** The sum of a list of counts. */
  function Sum(s: seq<nat>): nat {
    if s == [] then 0 else Sum(s[..|s| - 1]) + s[|s| - 1]
  }

  lemma SumStep(s: seq<nat>, i: nat)
    requires i < |s|
    ensures Sum(s[..i + 1]) == Sum(s[..i]) + s[i]
  {
    assert s[..i + 1][..i] == s[..i];
  }

  /** No element occurs twice. */
  predicate Distinct<T(==)>(xs: seq<T>) {
    forall i, j | 0 <= i < j < |xs| :: xs[i] != xs[j]
  }

  /** The elements of a list, as a set. */
  function Elems<T>(xs: seq<T>): set<T> {
    set x | x in xs
  }

  /** A list without repeats has as many elements as its set. */
  lemma {:induction false} DistinctCard<T>(xs: seq<T>)
    requires Distinct(xs)
    ensures |Elems(xs)| == |xs|
    decreases |xs|
  {
    if xs != [] {
      var n := |xs| - 1;
      DistinctCard(xs[..n]);
      assert Elems(xs) == Elems(xs[..n]) + {xs[n]};
      assert xs[n] !in Elems(xs[..n]);
    }
  }

  /** The keys of a dictionary filled from `xs`, in insertion order: each
      element at its first occurrence. */
  function FirstSeen<T(==)>(xs: seq<T>): seq<T> {
    if xs == [] then []
    else
      var r := FirstSeen(xs[..|xs| - 1]);
      if xs[|xs| - 1] in r then r else r + [xs[|xs| - 1]]
  }

  /** The insertion order holds every element once. */
  lemma {:induction false} FirstSeenKeys<T>(xs: seq<T>)
    ensures Distinct(FirstSeen(xs))
    ensures Elems(FirstSeen(xs)) == Elems(xs)
    decreases |xs|
  {
    if xs != [] {
      var n := |xs| - 1;
      FirstSeenKeys(xs[..n]);
      assert Elems(xs) == Elems(xs[..n]) + {xs[n]};
    }
  }

  /** `[x for x in xs if x not in s]` */
  function FilterOut<T>(xs: seq<T>, s: set<T>): seq<T> {
    if xs == [] then []
    else
      var r := FilterOut(xs[..|xs| - 1], s);
      if xs[|xs| - 1] in s then r else r + [xs[|xs| - 1]]
  }

  /** Filtering keeps the elements outside `s`, once each when they were. */
  lemma {:induction false} FilterOutElems<T>(xs: seq<T>, s: set<T>)
    ensures Elems(FilterOut(xs, s)) == Elems(xs) - s
    ensures Distinct(xs) ==> Distinct(FilterOut(xs, s))
    decreases |xs|
  {
    if xs != [] {
      var n := |xs| - 1;
      var r := FilterOut(xs[..n], s);
      FilterOutElems(xs[..n], s);
      assert Elems(xs) == Elems(xs[..n]) + {xs[n]};
      if xs[n] !in s {
        assert Elems(r + [xs[n]]) == Elems(r) + {xs[n]};
        if Distinct(xs) {
          assert Distinct(xs[..n]);
          assert xs[n] !in Elems(xs[..n]);
          DistinctSnoc(r, xs[n]);
        }
      } else if Distinct(xs) {
        assert Distinct(xs[..n]);
      }
    }
  }

  /** A list without repeats holds each of its elements once. */
  lemma {:induction false} DistinctCount<T>(xs: seq<T>)
    requires Distinct(xs)
    ensures forall x :: multiset(xs)[x] <= 1
    decreases |xs|
  {
    if xs != [] {
      var n := |xs| - 1;
      DistinctCount(xs[..n]);
      assert xs == xs[..n] + [xs[n]];
      assert xs[n] !in multiset(xs[..n]);
    }
  }

  /** Reordering a list without repeats leaves none. */
  lemma DistinctPermutation<T>(xs: seq<T>, ys: seq<T>)
    requires Distinct(xs) && multiset(xs) == multiset(ys)
    ensures Distinct(ys)
  {
    DistinctCount(xs);
    forall i, j | 0 <= i < j < |ys| ensures ys[i] != ys[j] {
      assert ys == ys[..j] + ys[j..];
      assert ys[..j][i] == ys[i] && ys[j..][0] == ys[j];
      assert multiset(ys)[ys[i]] == multiset(ys[..j])[ys[i]] + multiset(ys[j..])[ys[i]];
    }
  }

  lemma DistinctSnoc<T>(xs: seq<T>, x: T)
    requires Distinct(xs) && x !in xs
    ensures Distinct(xs + [x])
  {
  }

  /** Filtering a list without repeats leaves `|elements - s|` of them. */
  lemma FilterOutCount<T>(xs: seq<T>, s: set<T>)
    requires Distinct(xs)
    ensures |FilterOut(xs, s)| == |Elems(xs) - s|
  {
    FilterOutElems(xs, s);
    DistinctCard(FilterOut(xs, s));
  }

  /** A dictionary built by `{key(x): x for x in xs}`: the last element with
      a given key wins. */
  function Index<K, E>(xs: seq<E>, key: E -> K): map<K, E> {
    if xs == [] then map[]
    else Index(xs[..|xs| - 1], key)[key(xs[|xs| - 1]) := xs[|xs| - 1]]
  }

  /** `[key(x) for x in xs]` */
  function KeyList<K, E>(xs: seq<E>, key: E -> K): (r: seq<K>)
    ensures |r| == |xs|
  {
    seq(|xs|, i requires 0 <= i < |xs| => key(xs[i]))
  }

  /** The dictionary's keys are the keys of the elements, and each key maps
      to an element carrying it. */
  lemma {:induction false} IndexKeys<K, E>(xs: seq<E>, key: E -> K)
    ensures Index(xs, key).Keys == Elems(KeyList(xs, key))
    ensures forall k | k in Index(xs, key) :: Index(xs, key)[k] in xs && key(Index(xs, key)[k]) == k
    decreases |xs|
  {
    if xs != [] {
      var n := |xs| - 1;
      IndexKeys(xs[..n], key);
      assert KeyList(xs, key) == KeyList(xs[..n], key) + [key(xs[n])];
      assert Elems(KeyList(xs, key)) == Elems(KeyList(xs[..n], key)) + {key(xs[n])};
    }
  }

  /** Filtering out a set none of the elements belongs to keeps the list. */
  lemma {:induction false} FilterOutNone<T>(xs: seq<T>, s: set<T>)
    requires forall i | 0 <= i < |xs| :: xs[i] !in s
    ensures FilterOut(xs, s) == xs
    decreases |xs|
  {
    if xs != [] {
      var n := |xs| - 1;
      FilterOutNone(xs[..n], s);
      assert xs[..n] + [xs[n]] == xs;
    }
  }

  /** Filtering twice is filtering out both sets. */
  lemma {:induction false} FilterOutTwice<T>(xs: seq<T>, s: set<T>, t: set<T>)
    ensures FilterOut(FilterOut(xs, s), t) == FilterOut(xs, s + t)
    decreases |xs|
  {
    if xs != [] {
      var n := |xs| - 1;
      var r := FilterOut(xs[..n], s);
      FilterOutTwice(xs[..n], s, t);
      if xs[n] !in s {
        assert (r + [xs[n]])[..|r|] == r;
      }
    }
  }

  /** In a list without repeats, filtering out one element removes its only
      occurrence. */
  lemma {:induction false} FilterOutOne<T>(ys: seq<T>, i: nat)
    requires Distinct(ys) && i < |ys|
    ensures FilterOut(ys, {ys[i]}) == ys[..i] + ys[i + 1..]
    decreases |ys|
  {
    var n := |ys| - 1;
    if i == n {
      FilterOutNone(ys[..n], {ys[i]});
      assert ys[i + 1..] == [];
    } else {
      FilterOutOne(ys[..n], i);
      assert ys[..n][..i] == ys[..i];
      assert ys[..n][i + 1..] + [ys[n]] == ys[i + 1..];
    }
  }

  /** `list.remove` on a filtered list without repeats filters one more
      element out. */
  lemma RemoveFiltered<T>(xs: seq<T>, s: set<T>, i: nat)
    requires Distinct(xs) && i < |FilterOut(xs, s)|
    ensures FilterOut(xs, s)[..i] + FilterOut(xs, s)[i + 1..] == FilterOut(xs, s + {FilterOut(xs, s)[i]})
  {
    FilterOutElems(xs, s);
    FilterOutOne(FilterOut(xs, s), i);
    FilterOutTwice(xs, s, {FilterOut(xs, s)[i]});
  }
}
