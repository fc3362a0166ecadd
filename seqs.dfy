/** Sequence helpers: the `filter`, ordering and `limit` steps of the store's queries. */
module Seqs {

  /** `Array.prototype.filter`: the elements of `s` that satisfy `p`, in order. */
  function Filter<T(==)>(s: seq<T>, p: T -> bool): (r: seq<T>)
    ensures |r| <= |s|
    ensures forall i :: 0 <= i < |r| ==> p(r[i])
    ensures multiset(r) <= multiset(s)
    decreases |s|
  {
    if s == [] then []
    else
      assert s == [s[0]] + s[1..];
      (if p(s[0]) then [s[0]] else []) + Filter(s[1..], p)
  }

  lemma {:induction false} FilterAppend<T>(a: seq<T>, b: seq<T>, p: T -> bool)
    ensures Filter(a + b, p) == Filter(a, p) + Filter(b, p)
    decreases |a|
  {
    if a == [] {
      assert a + b == b;
    } else {
      assert (a + b)[1..] == a[1..] + b;
      assert (a + b)[0] == a[0];
      FilterAppend(a[1..], b, p);
    }
  }

  /** Filtering keeps every element when all of them satisfy the predicate. */
  lemma {:induction false} FilterAll<T>(s: seq<T>, p: T -> bool)
    requires forall i :: 0 <= i < |s| ==> p(s[i])
    ensures Filter(s, p) == s
    decreases |s|
  {
    if s != [] {
      FilterAll(s[1..], p);
      assert s == [s[0]] + s[1..];
    }
  }

  /** An element of `Filter(s, p)` is an element of `s` that satisfies `p`. */
  lemma {:induction false} FilterMember<T>(s: seq<T>, p: T -> bool, x: T)
    requires x in multiset(Filter(s, p))
    ensures x in s && p(x)
    decreases |s|
  {
    if s != [] {
      assert s == [s[0]] + s[1..];
      if x != s[0] || !p(s[0]) {
        assert x in multiset(Filter(s[1..], p));
        FilterMember(s[1..], p, x);
      }
    }
  }

  /** Every element of `s` that satisfies `p` is in `Filter(s, p)`. */
  lemma {:induction false} FilterKeeps<T>(s: seq<T>, p: T -> bool, x: T)
    requires x in s && p(x)
    ensures x in multiset(Filter(s, p))
    decreases |s|
  {
    assert s == [s[0]] + s[1..];
    if x != s[0] {
      FilterKeeps(s[1..], p, x);
    }
  }

  /** Filtering by a predicate and by its negation splits `s` into two parts that together hold
      every element of `s`. */
  lemma {:induction false} FilterPartition<T>(s: seq<T>, p: T -> bool, q: T -> bool)
    requires forall i :: 0 <= i < |s| ==> q(s[i]) == !p(s[i])
    ensures multiset(Filter(s, p)) + multiset(Filter(s, q)) == multiset(s)
    decreases |s|
  {
    if s != [] {
      assert s == [s[0]] + s[1..];
      FilterPartition(s[1..], p, q);
    }
  }

  /** Two predicates that agree on every element of `s` select the same elements. */
  lemma {:induction false} FilterCongruent<T>(s: seq<T>, p: T -> bool, q: T -> bool)
    requires forall i :: 0 <= i < |s| ==> p(s[i]) == q(s[i])
    ensures Filter(s, p) == Filter(s, q)
    decreases |s|
  {
    if s != [] {
      FilterCongruent(s[1..], p, q);
    }
  }

  /** `s` is ordered by ascending `key`. */
  ghost predicate SortedBy<T>(s: seq<T>, key: T -> int) {
    forall i, j :: 0 <= i < j < |s| ==> key(s[i]) <= key(s[j])
  }

  /** Inserts `x` into `s` before the first element whose key is at least `x`'s. */
  function InsertBy<T(==)>(x: T, s: seq<T>, key: T -> int): (r: seq<T>)
    ensures multiset(r) == multiset(s) + multiset{x}
    ensures |r| == |s| + 1
    decreases |s|
  {
    if s == [] || key(x) <= key(s[0]) then
      [x] + s
    else
      assert s == [s[0]] + s[1..];
      [s[0]] + InsertBy(x, s[1..], key)
  }

  /** Every element of `InsertBy(x, s, key)` has a key at least `lo` when `x` and all of `s` do. */
  lemma {:induction false} InsertByBounded<T>(x: T, s: seq<T>, key: T -> int, lo: int)
    requires key(x) >= lo
    requires forall k :: 0 <= k < |s| ==> key(s[k]) >= lo
    ensures forall k :: 0 <= k < |InsertBy(x, s, key)| ==> key(InsertBy(x, s, key)[k]) >= lo
    decreases |s|
  {
    if s != [] && key(x) > key(s[0]) {
      InsertByBounded(x, s[1..], key, lo);
    }
  }

  lemma {:induction false} InsertBySorted<T>(x: T, s: seq<T>, key: T -> int)
    requires SortedBy(s, key)
    ensures SortedBy(InsertBy(x, s, key), key)
    decreases |s|
  {
    if s != [] && key(x) > key(s[0]) {
      var t := InsertBy(x, s[1..], key);
      InsertBySorted(x, s[1..], key);
      InsertByBounded(x, s[1..], key, key(s[0]));
      assert InsertBy(x, s, key) == [s[0]] + t;
    }
  }

  /** An `ORDER BY key ASC`: a permutation of `s` in ascending key order. Rows with equal keys,
      which the store leaves in no particular order, come out in their order in `s`
      (`TiesKeepOrder` shows an instance). */
  function SortBy<T(==)>(s: seq<T>, key: T -> int): (r: seq<T>)
    ensures SortedBy(r, key)
    ensures multiset(r) == multiset(s)
    ensures |r| == |s|
    decreases |s|
  {
    if s == [] then []
    else
      assert s == [s[0]] + s[1..];
      InsertBySorted(s[0], SortBy(s[1..], key), key);
      InsertBy(s[0], SortBy(s[1..], key), key)
  }

  /** An element of `s` has a position in `SortBy(s, key)`. */
  lemma SortByPosition<T>(s: seq<T>, key: T -> int, x: T) returns (i: int)
    requires x in multiset(s)
    ensures 0 <= i < |SortBy(s, key)| && SortBy(s, key)[i] == x
  {
    var r := SortBy(s, key);
    assert x in multiset(r);
    i :| 0 <= i < |r| && r[i] == x;
  }

  /** `LIMIT n`: the first `n` elements, or all of them when there are fewer. */
  function Take<T>(s: seq<T>, n: nat): (r: seq<T>)
    ensures |r| == if |s| < n then |s| else n
    ensures forall i :: 0 <= i < |r| ==> r[i] == s[i]
  {
    if |s| < n then s else s[..n]
  }

  function PairKey(p: (int, int)): int { p.0 }

  /** Sorting pairs by their first component: `(-1, 3)` comes first, and the two pairs with key 0
      keep the order they had. */
  lemma TiesKeepOrder()
    ensures SortBy([(0, 1), (0, 2), (-1, 3)], PairKey) == [(-1, 3), (0, 1), (0, 2)]
  {
    var s: seq<(int, int)> := [(0, 1), (0, 2), (-1, 3)];
    var t: seq<(int, int)> := [(-1, 3)];
    assert s[1..] == [(0, 2), (-1, 3)];
    assert s[1..][1..] == t;
    assert t[1..] == [];
    assert SortBy(t, PairKey) == t;
    var u: seq<(int, int)> := [(-1, 3), (0, 2)];
    assert u[1..] == [(0, 2)];
    assert InsertBy((0, 2), t, PairKey) == u;
    assert SortBy(s[1..], PairKey) == u;
    assert InsertBy((0, 1), [(0, 2)], PairKey) == [(0, 1), (0, 2)];
    assert InsertBy((0, 1), u, PairKey) == [(-1, 3), (0, 1), (0, 2)];
  }
}
