/**
 * Descending sorts by a real-valued key. Python's `sorted(..., reverse=True)`
 * and `list.sort(..., reverse=True)` are stable: elements with equal keys keep
 * their input order. `SortDesc` is a stable insertion sort with exactly that
 * behaviour; where the source uses the unstable `np.argsort` instead, its
 * callers state only "sorted and a permutation", which every tie order meets.
 */
module Sorting {

  /** Keys never increase from left to right. */
  predicate SortedDesc<T>(s: seq<T>, key: T -> real)
  {
    forall i, j :: 0 <= i < j < |s| ==> key(s[i]) >= key(s[j])
  }

  /** The elements of `s` whose key is `v`, in the order of `s`. */
  function WithKey<T>(s: seq<T>, key: T -> real, v: real): (r: seq<T>)
  {
    if s == [] then []
    else if key(s[0]) == v then [s[0]] + WithKey(s[1..], key, v)
    else WithKey(s[1..], key, v)
  }

  /**
   * Inserts `x` in front of the first element whose key is not larger than
   * its own, so `x` goes ahead of the elements whose key equals its key.
   */
  function Insert<T>(x: T, s: seq<T>, key: T -> real): (r: seq<T>)
    ensures |r| == |s| + 1
    ensures multiset(r) == multiset(s) + multiset{x}
    ensures r[0] == x || (s != [] && r[0] == s[0])
  {
    if s == [] || key(x) >= key(s[0]) then [x] + s
    else
      var tail := Insert(x, s[1..], key);
      assert s == [s[0]] + s[1..];
      [s[0]] + tail
  }

  /** A bound on every key of `s` and on `x` bounds every key after the insertion. */
  lemma {:induction false} InsertBounded<T>(x: T, s: seq<T>, key: T -> real, b: real)
    requires key(x) <= b
    requires forall k :: 0 <= k < |s| ==> key(s[k]) <= b
    ensures forall j :: 0 <= j < |Insert(x, s, key)| ==> key(Insert(x, s, key)[j]) <= b
  {
    if s == [] || key(x) >= key(s[0]) {
      assert forall j :: 0 < j <= |s| ==> ([x] + s)[j] == s[j - 1];
    } else {
      var rest := s[1..];
      assert forall k :: 0 <= k < |rest| ==> rest[k] == s[k + 1];
      InsertBounded(x, rest, key, b);
      var tail := Insert(x, rest, key);
      assert forall j :: 0 < j <= |tail| ==> ([s[0]] + tail)[j] == tail[j - 1];
    }
  }

  /** Inserting into a sorted sequence keeps it sorted. */
  lemma {:induction false} InsertSorted<T>(x: T, s: seq<T>, key: T -> real)
    requires SortedDesc(s, key)
    ensures SortedDesc(Insert(x, s, key), key)
  {
    if s != [] && key(x) < key(s[0]) {
      var rest := s[1..];
      assert forall k :: 0 <= k < |rest| ==> rest[k] == s[k + 1];
      InsertSorted(x, rest, key);
      InsertBounded(x, rest, key, key(s[0]));
      var tail := Insert(x, rest, key);
      var r := [s[0]] + tail;
      assert SortedDesc(r, key) by {
        assert forall j :: 0 < j < |r| ==> r[j] == tail[j - 1];
      }
    }
  }

  /** Stable descending insertion sort. */
  function SortDesc<T>(s: seq<T>, key: T -> real): (r: seq<T>)
    ensures |r| == |s|
    ensures multiset(r) == multiset(s)
    ensures SortedDesc(r, key)
  {
    if s == [] then []
    else
      assert s == [s[0]] + s[1..];
      var sorted := SortDesc(s[1..], key);
      InsertSorted(s[0], sorted, key);
      Insert(s[0], sorted, key)
  }

  lemma {:induction false} WithKeyInsert<T>(x: T, s: seq<T>, key: T -> real, v: real)
    ensures WithKey(Insert(x, s, key), key, v)
         == if key(x) == v then [x] + WithKey(s, key, v) else WithKey(s, key, v)
  {
    if s == [] || key(x) >= key(s[0]) {
      assert ([x] + s)[1..] == s;
    } else {
      WithKeyInsert(x, s[1..], key, v);
      assert ([s[0]] + Insert(x, s[1..], key))[1..] == Insert(x, s[1..], key);
    }
  }

  /** Stability: the elements sharing any one key appear in their input order. */
  lemma {:induction false} SortDescStable<T>(s: seq<T>, key: T -> real, v: real)
    ensures WithKey(SortDesc(s, key), key, v) == WithKey(s, key, v)
  {
    if s != [] {
      SortDescStable(s[1..], key, v);
      WithKeyInsert(s[0], SortDesc(s[1..], key), key, v);
    }
  }

  /** Filtering by key distributes over a split of the sequence. */
  lemma {:induction false} WithKeyPrefix<T>(s: seq<T>, key: T -> real, v: real, n: nat)
    requires n <= |s|
    ensures WithKey(s, key, v) == WithKey(s[..n], key, v) + WithKey(s[n..], key, v)
  {
    if n > 0 {
      WithKeyPrefix(s[1..], key, v, n - 1);
      assert s[1..][..n - 1] == s[..n][1..];
      assert s[1..][n - 1..] == s[n..];
    } else {
      assert s[..0] == [];
      assert s[0..] == s;
    }
  }

  /** The first element of `WithKey(s, key, v)` is the first element of `s` with key `v`. */
  lemma {:induction false} WithKeyHead<T>(s: seq<T>, key: T -> real, v: real) returns (p: nat)
    requires WithKey(s, key, v) != []
    ensures p < |s| && s[p] == WithKey(s, key, v)[0] && key(s[p]) == v
    ensures forall q :: 0 <= q < p ==> key(s[q]) != v
  {
    if key(s[0]) == v {
      p := 0;
    } else {
      var p' := WithKeyHead(s[1..], key, v);
      p := p' + 1;
      assert forall q :: 1 <= q < p ==> s[q] == s[1..][q - 1];
    }
  }

  lemma {:induction false} WithKeyOfHead<T>(s: seq<T>, key: T -> real)
    requires s != []
    ensures WithKey(s, key, key(s[0])) != [] && WithKey(s, key, key(s[0]))[0] == s[0]
  {
  }

  /**
   * What `sorted(..., reverse=True)[0]` picks: an element of largest key, and
   * of all such elements the one that comes first in the input.
   */
  lemma SortDescHead<T>(s: seq<T>, key: T -> real) returns (p: nat)
    requires s != []
    ensures p < |s| && SortDesc(s, key)[0] == s[p]
    ensures forall q :: 0 <= q < |s| ==> key(s[q]) <= key(s[p])
    ensures forall q :: 0 <= q < p ==> key(s[q]) < key(s[p])
  {
    var r := SortDesc(s, key);
    var v := key(r[0]);
    WithKeyOfHead(r, key);
    SortDescStable(s, key, v);
    p := WithKeyHead(s, key, v);
    forall q | 0 <= q < |s| ensures key(s[q]) <= v {
      assert s[q] in multiset(r);
      var j :| 0 <= j < |r| && r[j] == s[q];
    }
  }
}
