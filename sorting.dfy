/**
 * Python's built-in `sorted(xs, key=...)`, which the schedule validators call:
 * a stable sort by a key. It is modelled as insertion sort, which is stable
 * too, so both put equal-key elements in their original order.
 */
module Sorting {

  /** Keys never decrease along `s`. */
  ghost predicate SortedBy<T>(s: seq<T>, key: T -> real) {
    forall i, j :: 0 <= i < j < |s| ==> key(s[i]) <= key(s[j])
  }

  /** No two positions of `s` carry the same key. */
  ghost predicate DistinctKeys<T>(s: seq<T>, key: T -> real) {
    forall i, j :: 0 <= i < j < |s| ==> key(s[i]) != key(s[j])
  }

  /** Puts `x` in front of the first element whose key is not smaller. */
  function InsertBy<T>(x: T, s: seq<T>, key: T -> real): (r: seq<T>)
    ensures |r| == |s| + 1
    ensures multiset(r) == multiset(s) + multiset{x}
  {
    if s == [] || key(x) <= key(s[0]) then [x] + s
    else
      assert s == [s[0]] + s[1..];
      [s[0]] + InsertBy(x, s[1..], key)
  }

  lemma {:induction false} InsertBySorted<T>(x: T, s: seq<T>, key: T -> real)
    requires SortedBy(s, key)
    ensures SortedBy(InsertBy(x, s, key), key)
  {
    if s != [] && key(x) > key(s[0]) {
      var tail := s[1..];
      assert SortedBy(tail, key) by {
        forall i, j | 0 <= i < j < |tail| ensures key(tail[i]) <= key(tail[j]) {
          assert tail[i] == s[i + 1] && tail[j] == s[j + 1];
        }
      }
      InsertBySorted(x, tail, key);
      var rest := InsertBy(x, tail, key);
      forall k | 0 <= k < |rest| ensures key(s[0]) <= key(rest[k]) {
        var m := InsertBySource(x, tail, key, k);
        if m >= 0 {
          assert s[m + 1] == rest[k];
        }
      }
      PrependSorted(s[0], rest, key);
    } else {
      assert forall k :: 0 <= k < |s| ==> key(x) <= key(s[k]) by {
        forall k | 0 <= k < |s| ensures key(x) <= key(s[k]) {
          assert key(s[0]) <= key(s[k]);
        }
      }
      PrependSorted(x, s, key);
    }
  }

  /** Each element of `InsertBy(x, s, key)` is `x` (`m == -1`) or the element `s[m]`. */
  lemma InsertBySource<T>(x: T, s: seq<T>, key: T -> real, k: int) returns (m: int)
    requires 0 <= k < |InsertBy(x, s, key)|
    ensures (m == -1 && InsertBy(x, s, key)[k] == x) || (0 <= m < |s| && s[m] == InsertBy(x, s, key)[k])
  {
    var y := InsertBy(x, s, key)[k];
    assert y in multiset(InsertBy(x, s, key));
    if y == x {
      m := -1;
    } else {
      assert y in multiset(s);
      m :| 0 <= m < |s| && s[m] == y;
    }
  }

  /** An element no larger than every element of a sorted sequence can go in front of it. */
  lemma PrependSorted<T>(a: T, s: seq<T>, key: T -> real)
    requires SortedBy(s, key) && forall k :: 0 <= k < |s| ==> key(a) <= key(s[k])
    ensures SortedBy([a] + s, key)
  {
    var r := [a] + s;
    forall i, j | 0 <= i < j < |r| ensures key(r[i]) <= key(r[j]) {
      assert r[j] == s[j - 1];
      if i > 0 {
        assert r[i] == s[i - 1];
      }
    }
  }

  /** An element whose key no element of a sequence with distinct keys carries can go in front of it. */
  lemma PrependDistinct<T>(a: T, s: seq<T>, key: T -> real)
    requires DistinctKeys(s, key) && forall k :: 0 <= k < |s| ==> key(a) != key(s[k])
    ensures DistinctKeys([a] + s, key)
  {
    var r := [a] + s;
    forall i, j | 0 <= i < j < |r| ensures key(r[i]) != key(r[j]) {
      assert r[j] == s[j - 1];
      if i > 0 {
        assert r[i] == s[i - 1];
      }
    }
  }

  /** The model of `sorted(xs, key=key)`: a sorted permutation of `xs`. */
  function SortBy<T>(xs: seq<T>, key: T -> real): (r: seq<T>)
    ensures |r| == |xs|
    ensures multiset(r) == multiset(xs)
    ensures SortedBy(r, key)
  {
    if xs == [] then []
    else
      assert xs == [xs[0]] + xs[1..];
      var sortedTail := SortBy(xs[1..], key);
      InsertBySorted(xs[0], sortedTail, key);
      InsertBy(xs[0], sortedTail, key)
  }

  /** The elements of `s` whose key is `k`, in their order in `s`. */
  function WithKey<T>(s: seq<T>, key: T -> real, k: real): seq<T> {
    if s == [] then [] else (if key(s[0]) == k then [s[0]] else []) + WithKey(s[1..], key, k)
  }

  /** Inserting `x` puts it before every element of its own key, and moves no element of another key. */
  lemma {:induction false} InsertByWithKey<T>(x: T, s: seq<T>, key: T -> real, k: real)
    ensures WithKey(InsertBy(x, s, key), key, k) == (if key(x) == k then [x] else []) + WithKey(s, key, k)
  {
    var r := InsertBy(x, s, key);
    if s == [] || key(x) <= key(s[0]) {
      WithKeyCons(x, s, key, k);
    } else {
      var tail, rest := s[1..], InsertBy(x, s[1..], key);
      assert r == [s[0]] + rest;
      assert s == [s[0]] + tail;
      WithKeyCons(s[0], rest, key, k);
      WithKeyCons(s[0], tail, key, k);
      InsertByWithKey(x, tail, key, k);
      var px, ps := if key(x) == k then [x] else [], if key(s[0]) == k then [s[0]] else [];
      assert px == [] || ps == [];
      assert ps + (px + WithKey(tail, key, k)) == px + (ps + WithKey(tail, key, k));
    }
  }

  lemma WithKeyCons<T>(a: T, s: seq<T>, key: T -> real, k: real)
    ensures WithKey([a] + s, key, k) == (if key(a) == k then [a] else []) + WithKey(s, key, k)
  {
    assert ([a] + s)[0] == a && ([a] + s)[1..] == s;
  }

  /**
   * `SortBy` is stable, like Python's `sorted`: for every key, the elements
   * that carry it appear in the sorted sequence in their order in `xs`.
   */
  lemma {:induction false} SortByStable<T>(xs: seq<T>, key: T -> real, k: real)
    ensures WithKey(SortBy(xs, key), key, k) == WithKey(xs, key, k)
  {
    if xs != [] {
      SortByStable(xs[1..], key, k);
      InsertByWithKey(xs[0], SortBy(xs[1..], key), key, k);
    }
  }

  /** The first element of the sorted sequence is one of smallest key, the last one of largest key. */
  lemma SortedEnds<T>(xs: seq<T>, key: T -> real)
    requires |xs| > 0
    ensures SortBy(xs, key)[0] in xs
    ensures SortBy(xs, key)[|xs| - 1] in xs
    ensures forall k :: 0 <= k < |xs| ==> key(SortBy(xs, key)[0]) <= key(xs[k]) <= key(SortBy(xs, key)[|xs| - 1])
  {
    var r := SortBy(xs, key);
    InSamePermutation(r[0], r, xs);
    InSamePermutation(r[|r| - 1], r, xs);
    forall k | 0 <= k < |xs|
      ensures key(r[0]) <= key(xs[k]) <= key(r[|r| - 1])
    {
      InSamePermutation(xs[k], xs, r);
      var j :| 0 <= j < |r| && r[j] == xs[k];
      assert key(r[0]) <= key(r[j]) by {
        if j > 0 {
          assert SortedBy(r, key);
        }
      }
      assert key(r[j]) <= key(r[|r| - 1]) by {
        if j < |r| - 1 {
          assert SortedBy(r, key);
        }
      }
    }
  }

  lemma InSamePermutation<T>(y: T, s: seq<T>, t: seq<T>)
    requires multiset(s) == multiset(t) && y in s
    ensures y in t
  {
    assert y in multiset(s);
  }

  /** Elements with pairwise distinct keys keep distinct keys after sorting, so the order is strict. */
  lemma {:induction false} SortByStrict<T>(xs: seq<T>, key: T -> real)
    requires DistinctKeys(xs, key)
    ensures DistinctKeys(SortBy(xs, key), key)
    ensures forall i, j :: 0 <= i < j < |xs| ==> key(SortBy(xs, key)[i]) < key(SortBy(xs, key)[j])
  {
    if xs != [] {
      var tail := xs[1..];
      assert DistinctKeys(tail, key) by {
        forall i, j | 0 <= i < j < |tail| ensures key(tail[i]) != key(tail[j]) {
          assert tail[i] == xs[i + 1] && tail[j] == xs[j + 1];
        }
      }
      SortByStrict(tail, key);
      var sorted := SortBy(tail, key);
      forall k | 0 <= k < |sorted| ensures key(sorted[k]) != key(xs[0]) {
        InSamePermutation(sorted[k], sorted, tail);
        var m :| 0 <= m < |tail| && tail[m] == sorted[k];
        assert xs[m + 1] == sorted[k];
      }
      InsertByDistinct(xs[0], sorted, key);
    }
  }

  lemma {:induction false} InsertByDistinct<T>(x: T, s: seq<T>, key: T -> real)
    requires SortedBy(s, key) && DistinctKeys(s, key)
    requires forall k :: 0 <= k < |s| ==> key(s[k]) != key(x)
    ensures DistinctKeys(InsertBy(x, s, key), key)
  {
    if s != [] && key(x) > key(s[0]) {
      var tail := s[1..];
      assert SortedBy(tail, key) && DistinctKeys(tail, key) by {
        forall i, j | 0 <= i < j < |tail| ensures key(tail[i]) <= key(tail[j]) && key(tail[i]) != key(tail[j]) {
          assert tail[i] == s[i + 1] && tail[j] == s[j + 1];
        }
      }
      assert forall k :: 0 <= k < |tail| ==> tail[k] == s[k + 1];
      InsertByDistinct(x, tail, key);
      var rest := InsertBy(x, tail, key);
      forall k | 0 <= k < |rest| ensures key(s[0]) != key(rest[k]) {
        var m := InsertBySource(x, tail, key, k);
        if m >= 0 {
          assert s[m + 1] == rest[k];
        }
      }
      PrependDistinct(s[0], rest, key);
    } else {
      PrependDistinct(x, s, key);
    }
  }
}
