/**
 * Sums over maps, repository listing order and filtering, shared by the
 * ledger and the reports.
 */
module Collections {

  /** Some key of a non-empty key set; the same set always yields the same key. */
  ghost function Pick<K>(s: set<K>): (k: K)
    requires s != {}
    ensures k in s
  {
    var k :| k in s; k
  }

  /** The sum of `w` over the values of `m`, in no particular order. */
  ghost function SumBy<K, V>(m: map<K, V>, w: V -> int): int
    decreases |m|
  {
    if m == map[] then 0
    else
      var k := Pick(m.Keys);
      assert (m - {k}).Keys == m.Keys - {k};
      w(m[k]) + SumBy(m - {k}, w)
  }

  /** Any entry can be taken out of a sum first. */
  lemma {:induction false} SumByRemove<K, V>(m: map<K, V>, w: V -> int, k: K)
    requires k in m
    ensures SumBy(m, w) == w(m[k]) + SumBy(m - {k}, w)
    decreases |m|
  {
    var j := Pick(m.Keys);
    assert (m - {j}).Keys == m.Keys - {j};
    if j != k {
      assert k in m - {j};
      SumByRemove(m - {j}, w, k);
      assert (m - {k}).Keys == m.Keys - {k};
      assert j in m - {k};
      SumByRemove(m - {k}, w, j);
      assert m - {j} - {k} == m - {k} - {j};
    }
  }

  /** Storing `v` under `k` replaces the old entry's weight by `v`'s. */
  lemma SumByPut<K, V>(m: map<K, V>, w: V -> int, k: K, v: V)
    ensures SumBy(m[k := v], w) == SumBy(m, w) - (if k in m then w(m[k]) else 0) + w(v)
  {
    SumByRemove(m[k := v], w, k);
    assert m[k := v] - {k} == m - {k};
    if k in m {
      SumByRemove(m, w, k);
    } else {
      assert m - {k} == m;
    }
  }

  /** The values of a repository keyed below `n`, in increasing key order (findAll order). */
  function InKeyOrder<V(!new)>(m: map<nat, V>, n: nat): (r: seq<V>)
    ensures |r| <= n
    ensures forall k :: k in m && k < n ==> m[k] in r
    ensures forall v :: v in r ==> exists k :: k in m && k < n && m[k] == v
  {
    if n == 0 then []
    else InKeyOrder(m, n - 1) + (if n - 1 in m then [m[n - 1]] else [])
  }

  /** The keys of `m` below `n`. */
  function KeysBelow<V>(m: map<nat, V>, n: nat): set<nat> {
    set k | k in m && k < n
  }

  /** findAll lists each stored row below `n` exactly once, so its size is the row count. */
  lemma {:induction false} InKeyOrderLength<V(!new)>(m: map<nat, V>, n: nat)
    ensures |InKeyOrder(m, n)| == |KeysBelow(m, n)|
  {
    if n == 0 {
      assert KeysBelow(m, n) == {};
    } else {
      InKeyOrderLength(m, n - 1);
      if n - 1 in m {
        assert KeysBelow(m, n) == KeysBelow(m, n - 1) + {n - 1};
        assert n - 1 !in KeysBelow(m, n - 1);
      } else {
        assert KeysBelow(m, n) == KeysBelow(m, n - 1);
      }
    }
  }

  /** The sum of `w` over a sequence, front to back. */
  function SumSeq<T>(xs: seq<T>, w: T -> int): int {
    if xs == [] then 0 else w(xs[0]) + SumSeq(xs[1..], w)
  }

  lemma {:induction false} SumSeqAppend<T>(xs: seq<T>, ys: seq<T>, w: T -> int)
    ensures SumSeq(xs + ys, w) == SumSeq(xs, w) + SumSeq(ys, w)
  {
    if xs == [] {
      assert xs + ys == ys;
    } else {
      assert (xs + ys)[1..] == xs[1..] + ys;
      SumSeqAppend(xs[1..], ys, w);
    }
  }

  /** Taking one element out of a sequence takes its weight out of the sum. */
  lemma SumSeqRemove<T>(xs: seq<T>, i: nat, w: T -> int)
    requires i < |xs|
    ensures SumSeq(xs, w) == w(xs[i]) + SumSeq(xs[..i] + xs[i + 1..], w)
  {
    assert xs == xs[..i] + xs[i..];
    assert xs[i..][1..] == xs[i + 1..];
    SumSeqAppend(xs[..i], xs[i..], w);
    SumSeqAppend(xs[..i], xs[i + 1..], w);
  }

  /** A sub-multiset as long as the whole is the whole, so it keeps every element. */
  lemma SubMultisetOfSameSize<T>(kept: seq<T>, all: seq<T>)
    requires multiset(kept) <= multiset(all)
    ensures |kept| == |all| ==> multiset(kept) == multiset(all)
    ensures |kept| == |all| ==> forall x :: x in all ==> x in kept
  {
    if |kept| == |all| {
      var rest := multiset(all) - multiset(kept);
      assert multiset(all) == multiset(kept) + rest;
      assert |rest| == 0;
      forall x | x in all ensures x in kept {
        assert x in multiset(all);
      }
    }
  }

  /** Removing the element at `i` removes one occurrence of it. */
  lemma MultisetRemove<T>(xs: seq<T>, i: nat)
    requires i < |xs|
    ensures multiset(xs[..i] + xs[i + 1..]) == multiset(xs) - multiset{xs[i]}
  {
    assert xs == xs[..i] + [xs[i]] + xs[i + 1..];
  }

  /** Striking the same element from two permutations of each other leaves permutations. */
  lemma MatchedTails<T>(xs: seq<T>, ys: seq<T>, i: nat)
    requires multiset(xs) == multiset(ys) && xs != [] && i < |ys| && ys[i] == xs[0]
    ensures multiset(xs[1..]) == multiset(ys[..i] + ys[i + 1..])
  {
    MultisetRemove(xs, 0);
    MultisetRemove(ys, i);
    assert xs[..0] + xs[1..] == xs[1..];
  }

  /** A weighted sum does not depend on the order of the elements. */
  lemma {:induction false} SumSeqIgnoresOrder<T>(xs: seq<T>, ys: seq<T>, w: T -> int)
    requires multiset(xs) == multiset(ys)
    ensures SumSeq(xs, w) == SumSeq(ys, w)
    decreases |xs|
  {
    if xs == [] {
      assert |ys| == |multiset(ys)| == 0;
    } else {
      assert xs[0] in multiset(xs);
      var i :| 0 <= i < |ys| && ys[i] == xs[0];
      var rest := ys[..i] + ys[i + 1..];
      MatchedTails(xs, ys, i);
      SumSeqIgnoresOrder(xs[1..], rest, w);
      SumSeqRemove(ys, i, w);
    }
  }

  /** The entries of `m` whose key is below `n`. */
  function Below<V>(m: map<nat, V>, n: nat): map<nat, V> {
    map k | k in m && k < n :: m[k]
  }

  /** Extending the key bound past a stored key adds that entry. */
  lemma SumByBelowPut<V>(m: map<nat, V>, n: nat, w: V -> int)
    requires n > 0 && n - 1 in m
    ensures SumBy(Below(m, n), w) == SumBy(Below(m, n - 1), w) + w(m[n - 1])
  {
    var k: nat := n - 1;
    var v := m[k];
    var lower := Below(m, k);
    var put := lower[k := v];
    assert k !in lower;
    SumByPut(lower, w, k, v);
    assert SumBy(put, w) == SumBy(lower, w) + w(v);
    assert Below(m, n) == put;
  }

  /** Extending the key bound by one adds the entry at the old bound, if any. */
  lemma SumByBelowStep<V>(m: map<nat, V>, n: nat, w: V -> int)
    requires n > 0
    ensures SumBy(Below(m, n), w) == SumBy(Below(m, n - 1), w) + (if n - 1 in m then w(m[n - 1]) else 0)
  {
    if n - 1 in m {
      SumByBelowPut(m, n, w);
    } else {
      assert Below(m, n - 1) == Below(m, n);
    }
  }

  /** For a repository whose keys are all below `n`: summing its listing sums the repository. */
  lemma SumListing<V(!new)>(m: map<nat, V>, n: nat, w: V -> int)
    requires forall k :: k in m ==> k < n
    ensures SumSeq(InKeyOrder(m, n), w) == SumBy(m, w)
  {
    SumSeqInKeyOrder(m, n, w);
    assert Below(m, n) == m;
  }

  /** Summing the findAll listing is summing the repository, whatever the order. */
  lemma {:induction false} SumSeqInKeyOrder<V(!new)>(m: map<nat, V>, n: nat, w: V -> int)
    ensures SumSeq(InKeyOrder(m, n), w) == SumBy(Below(m, n), w)
  {
    if n == 0 {
      assert Below(m, n) == map[];
    } else {
      SumSeqInKeyOrder(m, n - 1, w);
      var tail := if n - 1 in m then [m[n - 1]] else [];
      SumSeqAppend(InKeyOrder(m, n - 1), tail, w);
      assert SumSeq(tail, w) == (if n - 1 in m then w(m[n - 1]) else 0) by {
        if n - 1 in m {
          assert tail[1..] == [];
        }
      }
      SumByBelowStep(m, n, w);
    }
  }

  /** The elements of `xs` that satisfy `p`, in their original order. */
  function Filter<T(!new)>(xs: seq<T>, p: T -> bool): (r: seq<T>)
    ensures |r| <= |xs|
    ensures forall x :: x in r <==> x in xs && p(x)
    ensures forall i :: 0 <= i < |r| ==> p(r[i])
  {
    if xs == [] then []
    else (if p(xs[0]) then [xs[0]] else []) + Filter(xs[1..], p)
  }

  /** The keys of `m` below `n` whose value satisfies `p`. */
  function KeysWhere<V>(m: map<nat, V>, n: nat, p: V -> bool): set<nat> {
    set k | k in m && k < n && p(m[k])
  }

  /** Raising the bound by one adds the row just below it, if it matches. */
  lemma KeysWhereStep<V>(m: map<nat, V>, n: nat, p: V -> bool)
    requires n > 0
    ensures |KeysWhere(m, n, p)| == |KeysWhere(m, n - 1, p)| + (if n - 1 in m && p(m[n - 1]) then 1 else 0)
  {
    var k: nat := n - 1;
    if k in m && p(m[k]) {
      assert KeysWhere(m, n, p) == KeysWhere(m, k, p) + {k};
      assert k !in KeysWhere(m, k, p);
    } else {
      assert KeysWhere(m, n, p) == KeysWhere(m, k, p);
    }
  }

  /** Filtering the listing of a repository keeps exactly one entry per matching row. */
  lemma {:induction false} FilterInKeyOrderLength<V(!new)>(m: map<nat, V>, n: nat, p: V -> bool)
    ensures |Filter(InKeyOrder(m, n), p)| == |KeysWhere(m, n, p)|
  {
    if n == 0 {
      assert KeysWhere(m, n, p) == {};
    } else {
      var k: nat := n - 1;
      var last := if k in m then [m[k]] else [];
      FilterInKeyOrderLength(m, k, p);
      FilterAppend(InKeyOrder(m, k), last, p);
      assert |Filter(last, p)| == (if k in m && p(m[k]) then 1 else 0) by {
        if k in m {
          assert last[1..] == [];
        }
      }
      KeysWhereStep(m, n, p);
    }
  }

  /** Filtering twice is filtering once by the conjunction of the two predicates. */
  lemma {:induction false} FilterFilter<T(!new)>(xs: seq<T>, p: T -> bool, q: T -> bool, pq: T -> bool)
    requires forall x :: pq(x) <==> p(x) && q(x)
    ensures Filter(Filter(xs, p), q) == Filter(xs, pq)
  {
    if xs != [] {
      var head := if p(xs[0]) then [xs[0]] else [];
      FilterAppend(head, Filter(xs[1..], p), q);
      FilterFilter(xs[1..], p, q, pq);
    }
  }

  /** Filtering distributes over concatenation. */
  lemma {:induction false} FilterAppend<T(!new)>(xs: seq<T>, ys: seq<T>, p: T -> bool)
    ensures Filter(xs + ys, p) == Filter(xs, p) + Filter(ys, p)
  {
    if xs == [] {
      assert xs + ys == ys;
    } else {
      assert (xs + ys)[1..] == xs[1..] + ys;
      FilterAppend(xs[1..], ys, p);
    }
  }
}
