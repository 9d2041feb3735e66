/**
 * The descending, stable sort that `stream().sorted((a, b) -> key(b) compared
 * to key(a)).limit(n)` performs, as an insertion sort on sequences.
 */
module Sorting {
  import opened Collections

  /** Non-increasing by `key`. */
  predicate SortedDesc<T>(s: seq<T>, key: T -> int) {
    forall i, j :: 0 <= i < j < |s| ==> key(s[i]) >= key(s[j])
  }

  /**
   * Puts `x` in front of the first element whose key is not larger: `x` comes
   * after every element with a larger key and before the others.
   */
  function Insert<T>(x: T, ys: seq<T>, key: T -> int): (r: seq<T>)
    ensures multiset(r) == multiset(ys) + multiset{x}
  {
    if ys == [] || key(ys[0]) <= key(x) then
      [x] + ys
    else
      assert ys == [ys[0]] + ys[1..];
      [ys[0]] + Insert(x, ys[1..], key)
  }

  /** Insertion keeps a sequence sorted. */
  lemma {:induction false} InsertSorted<T>(x: T, ys: seq<T>, key: T -> int)
    requires SortedDesc(ys, key)
    ensures SortedDesc(Insert(x, ys, key), key)
  {
    if ys != [] && key(ys[0]) > key(x) {
      var rest := Insert(x, ys[1..], key);
      InsertSorted(x, ys[1..], key);
      assert ys == [ys[0]] + ys[1..];
      forall j | 0 <= j < |rest|
        ensures key(rest[j]) <= key(ys[0])
      {
        assert rest[j] in multiset(rest);
        assert rest[j] == x || rest[j] in ys[1..];
      }
    }
  }

  /** The stable descending sort of `xs` by `key`. */
  function SortDesc<T>(xs: seq<T>, key: T -> int): (r: seq<T>)
    ensures multiset(r) == multiset(xs)
    ensures SortedDesc(r, key)
  {
    if xs == [] then []
    else
      assert xs == [xs[0]] + xs[1..];
      InsertSorted(xs[0], SortDesc(xs[1..], key), key);
      Insert(xs[0], SortDesc(xs[1..], key), key)
  }

  /** The elements of `s` whose key is `k`, in order. */
  function WithKey<T>(s: seq<T>, key: T -> int, k: int): seq<T> {
    if s == [] then []
    else (if key(s[0]) == k then [s[0]] else []) + WithKey(s[1..], key, k)
  }

  /** Inserting `x` puts it ahead of every element with the same key. */
  lemma {:induction false} InsertKeepsTies<T>(x: T, ys: seq<T>, key: T -> int, k: int)
    ensures WithKey(Insert(x, ys, key), key, k)
         == (if key(x) == k then [x] else []) + WithKey(ys, key, k)
  {
    if ys == [] || key(ys[0]) <= key(x) {
      assert ([x] + ys)[1..] == ys;
    } else {
      var rest := Insert(x, ys[1..], key);
      assert ([ys[0]] + rest)[1..] == rest;
      InsertKeepsTies(x, ys[1..], key, k);
    }
  }

  /**
   * Stability: the elements that share a key come out in their input order.
   * With SortedDesc and the multiset equality this pins SortDesc down completely.
   */
  lemma {:induction false} SortDescIsStable<T>(xs: seq<T>, key: T -> int, k: int)
    ensures WithKey(SortDesc(xs, key), key, k) == WithKey(xs, key, k)
  {
    if xs != [] {
      SortDescIsStable(xs[1..], key, k);
      InsertKeepsTies(xs[0], SortDesc(xs[1..], key), key, k);
    }
  }

  /** `Stream.limit(n)` for n >= 0: the first n elements, or all of them. */
  function Take<T>(xs: seq<T>, n: nat): (r: seq<T>)
    ensures |r| == if n < |xs| then n else |xs|
    ensures n >= |xs| ==> r == xs
    ensures r == xs[..|r|]
  {
    if n >= |xs| then xs else xs[..n]
  }

  /** The first `n` elements of the stable descending sort. */
  function TopBy<T>(xs: seq<T>, key: T -> int, n: nat): (r: seq<T>)
    ensures |r| == if n < |xs| then n else |xs|
    ensures SortedDesc(r, key)
    ensures multiset(r) <= multiset(xs)
    ensures forall x :: x in r ==> x in xs
  {
    var s := SortDesc(xs, key);
    var r := Take(s, n);
    assert s == r + s[|r|..];
    assert forall x :: x in r ==> x in xs by {
      forall x | x in r ensures x in xs {
        assert x in multiset(r);
        assert x in multiset(xs);
      }
    }
    r
  }

  /**
   * What TopBy leaves out has no larger key than anything it keeps: it selects
   * the largest elements.
   */
  lemma TopBySelectsLargest<T>(xs: seq<T>, key: T -> int, n: nat)
    ensures forall x, y :: x in xs && x !in TopBy(xs, key, n) && y in TopBy(xs, key, n) ==> key(x) <= key(y)
  {
    var s := SortDesc(xs, key);
    var r := TopBy(xs, key, n);
    assert s == r + s[|r|..];
    forall i, j | 0 <= i < |r| && 0 <= j < |s| - |r|
      ensures key(s[|r|..][j]) <= key(r[i])
    {
      assert r[i] == s[i] && s[|r|..][j] == s[|r| + j];
    }
    forall x, y | x in xs && x !in r && y in r
      ensures key(x) <= key(y)
    {
      assert x in multiset(xs);
      assert x in multiset(s[|r|..]);
      var j :| 0 <= j < |s| - |r| && s[|r|..][j] == x;
      var i :| 0 <= i < |r| && r[i] == y;
    }
  }

  /**
   * TopBy over a listing of a collection `pool`: it keeps members of the pool,
   * and no member it leaves out has a larger key than one it keeps.
   */
  lemma TopByOfPool<T>(xs: seq<T>, pool: set<T>, key: T -> int, n: nat)
    requires forall x :: x in xs <==> x in pool
    ensures forall x :: x in TopBy(xs, key, n) ==> x in pool
    ensures forall x, y :: x in pool && x !in TopBy(xs, key, n) && y in TopBy(xs, key, n) ==> key(x) <= key(y)
    ensures |xs| <= n ==> forall x :: x in pool ==> x in TopBy(xs, key, n)
  {
    TopBySelectsLargest(xs, key, n);
    SubMultisetOfSameSize(TopBy(xs, key, n), xs);
  }
}
