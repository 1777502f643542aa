/**
 * The comparator-ordered queues of Drone.findPath, as sequences kept in
 * ascending key order.  A PriorityQueue poll takes a least element; the head
 * of a sorted sequence is one.  The beam round merges the rest of the search
 * space with the new moves and keeps at most a fixed number of candidates.
 */
module Frontier {

  /** Ascending by key: the head is a least element. */
  predicate SortedBy<T>(s: seq<T>, key: T -> real)
  {
    forall i, j :: 0 <= i < j < |s| ==> key(s[i]) <= key(s[j])
  }

  /** Every key in s is at least `bound`. */
  predicate AllAtLeast<T>(s: seq<T>, key: T -> real, bound: real)
  {
    forall i :: 0 <= i < |s| ==> bound <= key(s[i])
  }

  /**
   * What a capped beam round should keep from `pool`: min(limit, |pool|) of
   * its elements in ascending order, none of those left out with a key below
   * that of one kept.
   */
  predicate KeptBest<T>(r: seq<T>, pool: multiset<T>, limit: nat, key: T -> real)
  {
    && |r| == Min(limit, |pool|)
    && SortedBy(r, key)
    && multiset(r) <= pool
    && forall x, y :: x in pool - multiset(r) && y in r ==> key(y) <= key(x)
  }

  /** PriorityQueue.add: place x before the first element whose key is not smaller than x's. */
  function Insert<T>(x: T, s: seq<T>, key: T -> real): (r: seq<T>)
    requires SortedBy(s, key)
    ensures SortedBy(r, key)
    ensures multiset(r) == multiset(s) + multiset{x}
    ensures |r| == |s| + 1
    ensures forall b :: AllAtLeast(s, key, b) && b <= key(x) ==> AllAtLeast(r, key, b)
  {
    if |s| == 0 then [x]
    else if key(x) <= key(s[0]) then
      assert AllAtLeast(s, key, key(x));
      [x] + s
    else
      var rest := Insert(x, s[1..], key);
      assert AllAtLeast(rest, key, key(s[0]));
      assert s == [s[0]] + s[1..];
      [s[0]] + rest
  }

  /** Adding the elements of s one after another to an empty queue. */
  function SortBy<T>(s: seq<T>, key: T -> real): (r: seq<T>)
    ensures SortedBy(r, key)
    ensures multiset(r) == multiset(s)
    ensures |r| == |s|
  {
    if |s| == 0 then []
    else
      assert s == s[..|s| - 1] + [s[|s| - 1]];
      Insert(s[|s| - 1], SortBy(s[..|s| - 1], key), key)
  }

  /**
   * The space-limiting loop of one beam round: up to `limit` times, move the
   * head of `a` (the old search space) when `b` (the new moves) is empty or
   * a's head compares strictly smaller, otherwise move b's head.
   */
  function Merge<T>(a: seq<T>, b: seq<T>, limit: nat, key: T -> real): (r: seq<T>)
    decreases limit
  {
    if limit == 0 || (|a| == 0 && |b| == 0) then []
    else if |a| > 0 && (|b| == 0 || key(a[0]) < key(b[0])) then [a[0]] + Merge(a[1..], b, limit - 1, key)
    else [b[0]] + Merge(a, b[1..], limit - 1, key)
  }

  /** The same loop without a limit: a full merge of both queues. */
  function MergeAll<T>(a: seq<T>, b: seq<T>, key: T -> real): (r: seq<T>)
    ensures multiset(r) == multiset(a) + multiset(b)
    ensures |r| == |a| + |b|
    decreases |a| + |b|
  {
    if |a| == 0 then b
    else if |b| == 0 || key(a[0]) < key(b[0]) then
      assert a == [a[0]] + a[1..];
      [a[0]] + MergeAll(a[1..], b, key)
    else
      assert b == [b[0]] + b[1..];
      [b[0]] + MergeAll(a, b[1..], key)
  }

  /** A key no element of either ascending queue falls below: the smaller head. */
  function LeastHead<T>(a: seq<T>, b: seq<T>, key: T -> real): (m: real)
    requires SortedBy(a, key) && SortedBy(b, key)
    ensures AllAtLeast(a, key, m) && AllAtLeast(b, key, m)
  {
    if |a| == 0 && |b| == 0 then 0.0
    else if |b| == 0 || (|a| > 0 && key(a[0]) <= key(b[0])) then key(a[0])
    else key(b[0])
  }

  /** Merging two ascending queues gives an ascending queue bounded below by any common bound. */
  lemma {:induction false} MergeAllSorted<T>(a: seq<T>, b: seq<T>, key: T -> real, m: real)
    requires SortedBy(a, key) && SortedBy(b, key)
    requires AllAtLeast(a, key, m) && AllAtLeast(b, key, m)
    ensures SortedBy(MergeAll(a, b, key), key)
    ensures AllAtLeast(MergeAll(a, b, key), key, m)
    decreases |a| + |b|
  {
    if |a| == 0 {
    } else if |b| == 0 || key(a[0]) < key(b[0]) {
      MergeAllSorted(a[1..], b, key, key(a[0]));
    } else {
      MergeAllSorted(a, b[1..], key, key(b[0]));
    }
  }

  /** The limited loop keeps exactly the first `limit` elements of the full merge. */
  lemma {:induction false} MergeIsPrefix<T>(a: seq<T>, b: seq<T>, limit: nat, key: T -> real)
    requires SortedBy(a, key) && SortedBy(b, key)
    ensures Merge(a, b, limit, key) == MergeAll(a, b, key)[..Min(limit, |a| + |b|)]
    decreases limit
  {
    if limit == 0 || (|a| == 0 && |b| == 0) {
    } else if |a| > 0 && (|b| == 0 || key(a[0]) < key(b[0])) {
      MergeIsPrefix(a[1..], b, limit - 1, key);
    } else {
      MergeIsPrefix(a, b[1..], limit - 1, key);
    }
  }

  function Min(x: int, y: int): int
  {
    if x <= y then x else y
  }

  /**
   * One beam round keeps min(limit, |a| + |b|) candidates, in order, drawn
   * from the two queues, and no discarded candidate has a key strictly
   * below that of a kept one.
   */
  lemma MergeKeepsBest<T>(a: seq<T>, b: seq<T>, limit: nat, key: T -> real)
    requires SortedBy(a, key) && SortedBy(b, key)
    ensures var r := Merge(a, b, limit, key);
            && |r| == Min(limit, |a| + |b|)
            && SortedBy(r, key)
            && multiset(r) <= multiset(a) + multiset(b)
            && (forall x, y :: x in multiset(a) + multiset(b) - multiset(r) && y in r ==> key(y) <= key(x))
  {
    var all := MergeAll(a, b, key);
    var n := Min(limit, |a| + |b|);
    MergeIsPrefix(a, b, limit, key);
    MergeAllSorted(a, b, key, LeastHead(a, b, key));
    SplitMultiset(all, n);
    PrefixBeatsSuffix(all, n, key);
  }

  lemma SplitMultiset<T>(s: seq<T>, n: nat)
    requires n <= |s|
    ensures multiset(s[..n]) <= multiset(s)
    ensures multiset(s) - multiset(s[..n]) == multiset(s[n..])
  {
    assert s == s[..n] + s[n..];
  }

  /** In an ascending queue every element of a prefix is at most every element after it. */
  lemma PrefixBeatsSuffix<T>(s: seq<T>, n: nat, key: T -> real)
    requires n <= |s| && SortedBy(s, key)
    ensures SortedBy(s[..n], key)
    ensures forall x, y :: x in multiset(s[n..]) && y in s[..n] ==> key(y) <= key(x)
  {
    forall x, y | x in multiset(s[n..]) && y in s[..n]
      ensures key(y) <= key(x)
    {
      var i :| 0 <= i < n && s[..n][i] == y;
      var j :| 0 <= j < |s[n..]| && s[n..][j] == x;
      assert s[i] == y && s[n + j] == x;
    }
  }
}
