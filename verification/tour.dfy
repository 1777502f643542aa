/**
 * Drone.twoOpt and the rotation in Drone.selectVistOrder.  Tours are
 * sequences of indices into a square integer cost matrix; the last index
 * stands for the drone's start position.  2-opt starts from the identity
 * tour and reverses a segment whenever that shortens the cyclic tour, until
 * a full pass finds nothing to improve.
 */
module Tour {

  /** Every row has as many entries as there are rows. */
  predicate IsSquare(m: seq<seq<int>>)
  {
    forall i :: 0 <= i < |m| ==> |m[i]| == |m|
  }

  /** The matrices selectVistOrder builds: square, symmetric, non-negative. */
  predicate IsCostMatrix(m: seq<seq<int>>)
  {
    && IsSquare(m)
    && (forall i, j :: 0 <= i < |m| && 0 <= j < |m| ==> m[i][j] == m[j][i])
    && (forall i, j :: 0 <= i < |m| && 0 <= j < |m| ==> 0 <= m[i][j])
  }

  /** Every entry is a valid row/column index. */
  predicate InRange(s: seq<int>, n: int)
  {
    forall k :: 0 <= k < |s| ==> 0 <= s[k] < n
  }

  /** 0, 1, ..., n-1: the tour twoOpt starts from. */
  function Identity(n: nat): (r: seq<int>)
    ensures |r| == n
    ensures forall k :: 0 <= k < n ==> r[k] == k
  {
    seq(n, k => k)
  }

  /** t holds each of 0..n-1 exactly once. */
  predicate IsPermutation(t: seq<int>, n: nat)
  {
    multiset(t) == multiset(Identity(n))
  }

  lemma PermutationInRange(t: seq<int>, n: nat)
    requires IsPermutation(t, n)
    ensures |t| == n && InRange(t, n)
  {
    assert |multiset(t)| == |multiset(Identity(n))|;
    forall k | 0 <= k < |t|
      ensures 0 <= t[k] < n
    {
      assert t[k] in multiset(Identity(n));
      var q :| 0 <= q < n && Identity(n)[q] == t[k];
    }
  }

  /** A permutation never repeats an index. */
  lemma PermutationDistinct(t: seq<int>, n: nat, a: int, b: int)
    requires IsPermutation(t, n)
    requires 0 <= a < b < |t|
    ensures t[a] != t[b]
  {
    PermutationInRange(t, n);
    var v := t[a];
    IdentityCountsOnce(n, v);
    assert t == t[..a] + [t[a]] + t[a + 1..b] + [t[b]] + t[b + 1..];
    assert multiset(t)[v] >= 1 + multiset([t[b]])[v];
  }

  lemma IdentityCountsOnce(n: nat, v: int)
    requires 0 <= v < n
    ensures multiset(Identity(n))[v] == 1
  {
    var id := Identity(n);
    assert id == id[..v] + [v] + id[v + 1..];
    assert v !in id[..v] && v !in id[v + 1..];
  }

  /** Sum of the matrix entries along consecutive indices of a sequence. */
  function PathCost(m: seq<seq<int>>, s: seq<int>): int
    requires IsSquare(m) && InRange(s, |m|)
  {
    if |s| <= 1 then 0 else m[s[0]][s[1]] + PathCost(m, s[1..])
  }

  /** The entry joining the end of a to the start of b, if both are non-empty. */
  function Link(m: seq<seq<int>>, a: seq<int>, b: seq<int>): int
    requires IsSquare(m) && InRange(a, |m|) && InRange(b, |m|)
  {
    if |a| == 0 || |b| == 0 then 0 else m[a[|a| - 1]][b[0]]
  }

  /** The cost of the closed tour: the path plus the edge back from the last index to the first. */
  function TourCost(m: seq<seq<int>>, t: seq<int>): int
    requires IsSquare(m) && InRange(t, |m|)
  {
    if |t| == 0 then 0 else PathCost(m, t) + m[t[|t| - 1]][t[0]]
  }

  lemma {:induction false} PathCostAppend(m: seq<seq<int>>, a: seq<int>, b: seq<int>)
    requires IsSquare(m) && InRange(a, |m|) && InRange(b, |m|)
    ensures InRange(a + b, |m|)
    ensures PathCost(m, a + b) == PathCost(m, a) + Link(m, a, b) + PathCost(m, b)
  {
    if |a| == 0 {
      assert a + b == b;
    } else if |a| == 1 {
      if |b| > 0 {
        assert (a + b)[1..] == b;
      }
    } else {
      PathCostAppend(m, a[1..], b);
      assert (a + b)[1..] == a[1..] + b;
    }
  }

  lemma {:induction false} PathCostNonNegative(m: seq<seq<int>>, s: seq<int>)
    requires IsCostMatrix(m) && InRange(s, |m|)
    ensures 0 <= PathCost(m, s)
  {
    if |s| > 1 {
      PathCostNonNegative(m, s[1..]);
    }
  }

  lemma TourCostNonNegative(m: seq<seq<int>>, t: seq<int>)
    requires IsCostMatrix(m) && InRange(t, |m|)
    ensures 0 <= TourCost(m, t)
  {
    PathCostNonNegative(m, t);
  }

  function Reverse(s: seq<int>): (r: seq<int>)
    ensures |r| == |s|
    ensures forall k :: 0 <= k < |s| ==> r[k] == s[|s| - 1 - k]
  {
    if |s| == 0 then [] else Reverse(s[1..]) + [s[0]]
  }

  lemma {:induction false} ReverseMultiset(s: seq<int>)
    ensures multiset(Reverse(s)) == multiset(s)
  {
    if |s| > 0 {
      ReverseMultiset(s[1..]);
      assert s == [s[0]] + s[1..];
    }
  }

  /** Under a symmetric matrix a path costs the same walked backwards. */
  lemma {:induction false} PathCostReverse(m: seq<seq<int>>, s: seq<int>)
    requires IsCostMatrix(m) && InRange(s, |m|)
    ensures InRange(Reverse(s), |m|)
    ensures PathCost(m, Reverse(s)) == PathCost(m, s)
  {
    if |s| > 0 {
      PathCostReverse(m, s[1..]);
      PathCostAppend(m, Reverse(s[1..]), [s[0]]);
      if |s| > 1 {
        assert Reverse(s[1..])[|s| - 2] == s[1];
      }
    }
  }

  /** The segment reversal of the inner swap loop, as a sequence. */
  function Reversed(t: seq<int>, i: int, j: int): (r: seq<int>)
    requires 0 <= i <= j < |t|
    ensures |r| == |t|
  {
    t[..i] + Reverse(t[i..j + 1]) + t[j + 1..]
  }

  /** The swap loop `for (i2 = i, j2 = j; i2 < j2; i2++, j2--)` reverses t[i..j] in place. */
  method ReverseRange(t: seq<int>, i: int, j: int) returns (r: seq<int>)
    requires 0 <= i <= j < |t|
    ensures r == Reversed(t, i, j)
  {
    r := t;
    var i2, j2 := i, j;
    while i2 < j2
      invariant i <= i2 && j2 == i + j - i2 && i2 <= j2 + 1
      invariant |r| == |t|
      invariant forall k :: 0 <= k < i || j < k < |t| ==> r[k] == t[k]
      invariant forall k :: i <= k < i2 ==> r[k] == t[i + j - k] && r[i + j - k] == t[k]
      invariant forall k :: i2 <= k <= j2 ==> r[k] == t[k]
    {
      r := r[i2 := r[j2]][j2 := r[i2]];
      i2, j2 := i2 + 1, j2 - 1;
    }
    forall k | 0 <= k < |t|
      ensures r[k] == Reversed(t, i, j)[k]
    {
      ReversedAt(t, i, j, k);
    }
  }

  /** Position k of the reversal: mirrored inside the segment, unchanged outside. */
  lemma ReversedAt(t: seq<int>, i: int, j: int, k: int)
    requires 0 <= i <= j < |t| && 0 <= k < |t|
    ensures Reversed(t, i, j)[k] == (if i <= k <= j then t[i + j - k] else t[k])
  {
    if i <= k <= j {
      assert Reversed(t, i, j)[k] == Reverse(t[i..j + 1])[k - i];
    } else if k > j {
      assert Reversed(t, i, j)[k] == t[j + 1..][k - j - 1];
    }
  }

  lemma ReversedPermutation(t: seq<int>, n: nat, i: int, j: int)
    requires IsPermutation(t, n) && 0 <= i <= j < |t|
    ensures IsPermutation(Reversed(t, i, j), n)
  {
    var a, s, b := t[..i], t[i..j + 1], t[j + 1..];
    ReverseMultiset(s);
    SliceThree(t, i, j + 1);
    assert multiset(a + Reverse(s) + b) == multiset(a) + multiset(Reverse(s)) + multiset(b);
    assert multiset(t) == multiset(a) + multiset(s) + multiset(b);
  }

  /** The index before i on the cycle, as `(i - 1 + n) % n` computes it for 0 <= i < n. */
  function Prev(i: int, n: int): (p: int)
    requires 0 <= i < n
    ensures 0 <= p < n
    ensures i > 0 ==> p == i - 1
    ensures i == 0 ==> p == n - 1
  {
    (i - 1 + n) % n
  }

  /**
   * The improvement test of twoOpt: replacing the edges (prev(i), i) and
   * (j, j+1) by (prev(i), j) and (i, j+1) is strictly cheaper.
   */
  predicate Improves(m: seq<seq<int>>, t: seq<int>, i: int, j: int)
    requires IsSquare(m) && InRange(t, |m|) && 0 <= i < j < |t| - 1
  {
    var p := t[Prev(i, |t|)];
    m[p][t[j]] + m[t[i]][t[j + 1]] < m[p][t[i]] + m[t[j]][t[j + 1]]
  }

  /** No pair the passes of twoOpt examine passes the improvement test. */
  predicate LocallyOptimal(m: seq<seq<int>>, t: seq<int>)
    requires IsSquare(m) && InRange(t, |m|)
  {
    forall i, j :: 0 <= i < j < |t| - 1 ==> !Improves(m, t, i, j)
  }

  /**
   * Under a symmetric matrix, reversing t[i..j] changes the cyclic tour cost
   * by exactly the two edges the improvement test compares.
   */
  lemma ReversalCost(m: seq<seq<int>>, t: seq<int>, i: int, j: int)
    requires IsCostMatrix(m) && InRange(t, |m|) && 0 <= i < j < |t| - 1
    ensures InRange(Reversed(t, i, j), |m|)
    ensures var p := t[Prev(i, |t|)];
            TourCost(m, Reversed(t, i, j))
            == TourCost(m, t) - (m[p][t[i]] + m[t[j]][t[j + 1]]) + (m[p][t[j]] + m[t[i]][t[j + 1]])
  {
    var a, s, b := t[..i], t[i..j + 1], t[j + 1..];
    var r := Reverse(s);
    var u := Reversed(t, i, j);
    ReversalPathCost(m, t, i, j);
    assert Link(m, s, b) == m[t[j]][t[j + 1]] && Link(m, r, b) == m[t[i]][t[j + 1]];
    assert u[|u| - 1] == t[|t| - 1];
    if i > 0 {
      assert u[0] == t[0];
      assert Link(m, a, s) == m[t[i - 1]][t[i]] && Link(m, a, r) == m[t[i - 1]][t[j]];
    } else {
      assert u[0] == t[j];
      assert Link(m, a, s) == 0 && Link(m, a, r) == 0;
    }
  }

  /** The open path cost of a reversal: the two joins of the segment change, nothing else does. */
  lemma ReversalPathCost(m: seq<seq<int>>, t: seq<int>, i: int, j: int)
    requires IsCostMatrix(m) && InRange(t, |m|) && 0 <= i < j < |t| - 1
    ensures InRange(Reversed(t, i, j), |m|)
    ensures var a, s, b := t[..i], t[i..j + 1], t[j + 1..];
            PathCost(m, Reversed(t, i, j))
            == PathCost(m, t) - Link(m, a, s) - Link(m, s, b) + Link(m, a, Reverse(s)) + Link(m, Reverse(s), b)
  {
    var a, s, b := t[..i], t[i..j + 1], t[j + 1..];
    SliceThree(t, i, j + 1);
    InRangeSlice(t, |m|, 0, i);
    InRangeSlice(t, |m|, i, j + 1);
    InRangeSlice(t, |m|, j + 1, |t|);
    assert t[0..i] == a && t[j + 1..|t|] == b;
    SplitReversal(m, a, s, b);
  }

  /** Cutting a sequence at two points and joining the pieces gives it back. */
  lemma SliceThree(t: seq<int>, i: int, j: int)
    requires 0 <= i <= j <= |t|
    ensures t == t[..i] + t[i..j] + t[j..]
  {
    assert t[..i] + t[i..j] == t[..j];
  }

  lemma InRangeSlice(t: seq<int>, n: int, lo: int, hi: int)
    requires InRange(t, n) && 0 <= lo <= hi <= |t|
    ensures InRange(t[lo..hi], n)
  {
    forall k | 0 <= k < hi - lo
      ensures 0 <= t[lo..hi][k] < n
    {
      assert t[lo..hi][k] == t[lo + k];
    }
  }

  lemma SplitReversal(m: seq<seq<int>>, a: seq<int>, s: seq<int>, b: seq<int>)
    requires IsCostMatrix(m) && InRange(a, |m|) && InRange(s, |m|) && InRange(b, |m|) && |s| > 0
    ensures InRange(a + Reverse(s) + b, |m|)
    ensures PathCost(m, a + Reverse(s) + b)
            == PathCost(m, a + s + b) - Link(m, a, s) - Link(m, s, b) + Link(m, a, Reverse(s)) + Link(m, Reverse(s), b)
  {
    PathCostReverse(m, s);
    PathCostSplit(m, a, s, b);
    PathCostSplit(m, a, Reverse(s), b);
  }

  /** The cost of a + s + b with s non-empty, split at both joins. */
  lemma PathCostSplit(m: seq<seq<int>>, a: seq<int>, s: seq<int>, b: seq<int>)
    requires IsSquare(m) && InRange(a, |m|) && InRange(s, |m|) && InRange(b, |m|) && |s| > 0
    ensures InRange(a + s + b, |m|)
    ensures PathCost(m, a + s + b) == PathCost(m, a) + Link(m, a, s) + PathCost(m, s) + Link(m, s, b) + PathCost(m, b)
  {
    PathCostAppend(m, a, s);
    PathCostAppend(m, a + s, b);
    assert Link(m, a + s, b) == Link(m, s, b);
  }

  /** An accepted reversal strictly lowers the tour cost. */
  lemma ImprovingReversalLowersCost(m: seq<seq<int>>, t: seq<int>, i: int, j: int)
    requires IsCostMatrix(m) && InRange(t, |m|) && 0 <= i < j < |t| - 1
    requires Improves(m, t, i, j)
    ensures InRange(Reversed(t, i, j), |m|)
    ensures TourCost(m, Reversed(t, i, j)) < TourCost(m, t)
  {
    ReversalCost(m, t, i, j);
  }

  /**
   * twoOpt.  Starting from the identity, passes over all pairs
   * 0 <= i < j < n-1 reverse t[i..j] whenever the improvement test holds,
   * and stop after a pass without a reversal.  The result is a permutation,
   * costs no more than the identity tour, and no pair passes the test.
   */
  method TwoOpt(m: seq<seq<int>>) returns (t: seq<int>)
    requires IsCostMatrix(m)
    ensures IsPermutation(t, |m|)
    ensures InRange(t, |m|)
    ensures TourCost(m, t) <= TourCost(m, Identity(|m|))
    ensures LocallyOptimal(m, t)
  {
    var n := |m|;
    t := Identity(n);
    var improvement := true;
    while improvement
      invariant IsPermutation(t, n) && InRange(t, n) && |t| == n
      invariant TourCost(m, t) <= TourCost(m, Identity(n))
      invariant !improvement ==> LocallyOptimal(m, t)
      decreases TourCost(m, t) + (if improvement then 1 else 0)
    {
      TourCostNonNegative(m, t);
      t, improvement := Pass(m, t);
    }
  }

  /**
   * One pass of the nested loops.  Reports whether some reversal was made;
   * if so the tour is strictly cheaper, otherwise it is unchanged and
   * locally optimal.
   */
  method Pass(m: seq<seq<int>>, t0: seq<int>) returns (t: seq<int>, improvement: bool)
    requires IsCostMatrix(m) && IsPermutation(t0, |m|) && InRange(t0, |m|)
    ensures IsPermutation(t, |m|) && InRange(t, |m|) && |t| == |m|
    ensures improvement ==> TourCost(m, t) < TourCost(m, t0)
    ensures !improvement ==> t == t0 && LocallyOptimal(m, t)
  {
    var n := |m|;
    PermutationInRange(t0, n);
    t := t0;
    improvement := false;
    var i := 0;
    while i < n - 2
      invariant 0 <= i && (i <= n - 2 || i == 0)
      invariant IsPermutation(t, n) && InRange(t, n) && |t| == n
      invariant improvement ==> TourCost(m, t) < TourCost(m, t0)
      invariant !improvement ==> t == t0
      invariant !improvement ==> forall a, b :: 0 <= a < i && a < b < n - 1 ==> !Improves(m, t, a, b)
    {
      var t1, improved := Sweep(m, t, i);
      if improved {
        improvement := true;
      }
      t := t1;
      i := i + 1;
    }
  }

  /**
   * The inner loop of a pass for a fixed i: tries every j in turn,
   * reversing t[i..j] whenever the test succeeds.  Reports whether some
   * reversal was made; if so the tour is strictly cheaper, otherwise it is
   * unchanged and no j passes the test with this i.
   */
  method Sweep(m: seq<seq<int>>, t0: seq<int>, i: int) returns (t: seq<int>, improvement: bool)
    requires IsCostMatrix(m) && IsPermutation(t0, |m|) && InRange(t0, |m|) && |t0| == |m|
    requires 0 <= i < |m| - 2
    ensures IsPermutation(t, |m|) && InRange(t, |m|) && |t| == |m|
    ensures improvement ==> TourCost(m, t) < TourCost(m, t0)
    ensures !improvement ==> t == t0 && forall b :: i < b < |m| - 1 ==> !Improves(m, t, i, b)
  {
    var n := |m|;
    t := t0;
    improvement := false;
    var j := i + 1;
    while j < n - 1
      invariant i + 1 <= j <= n - 1
      invariant IsPermutation(t, n) && InRange(t, n) && |t| == n
      invariant improvement ==> TourCost(m, t) < TourCost(m, t0)
      invariant !improvement ==> t == t0
      invariant !improvement ==> forall b :: i < b < j ==> !Improves(m, t, i, b)
    {
      var p := t[(i - 1 + n) % n];
      if m[p][t[j]] + m[t[i]][t[j + 1]] < m[p][t[i]] + m[t[j]][t[j + 1]] {
        assert Improves(m, t, i, j);
        ImprovingReversalLowersCost(m, t, i, j);
        ReversedPermutation(t, n, i, j);
        improvement := true;
        t := ReverseRange(t, i, j);
      } else {
        assert !Improves(m, t, i, j);
      }
      j := j + 1;
    }
  }

  /**
   * The position of the drone's index in the tour: the last i with
   * t[i] == target, or 0 when there is none.
   */
  function DroneIndex(t: seq<int>, target: int): (d: int)
    ensures 0 <= d && (|t| > 0 ==> d < |t|)
    ensures target in t ==> t[d] == target && forall k :: d < k < |t| ==> t[k] != target
    ensures target !in t ==> d == 0
  {
    if |t| == 0 then 0
    else if t[|t| - 1] == target then |t| - 1
    else DroneIndex(t[..|t| - 1], target)
  }

  /**
   * The indices selectVistOrder visits: the n-1 positions after the drone's
   * position, going round the cycle.
   */
  function VisitIndices(t: seq<int>, d: int): (r: seq<int>)
    requires |t| > 0
    ensures |r| == |t| - 1
  {
    seq(|t| - 1, k requires 0 <= k < |t| - 1 => t[(d + 1 + k) % |t|])
  }

  /** Rotating a cycle to start after position d. */
  function RotateAfter(t: seq<int>, d: int): seq<int>
    requires 0 <= d < |t|
  {
    t[d + 1..] + t[..d + 1]
  }

  lemma VisitIndicesIsRotation(t: seq<int>, d: int)
    requires 0 <= d < |t|
    ensures RotateAfter(t, d) == VisitIndices(t, d) + [t[d]]
  {
    var r := RotateAfter(t, d);
    var v := VisitIndices(t, d);
    forall k | 0 <= k < |t|
      ensures r[k] == t[(d + 1 + k) % |t|]
    {
      RotateAfterIndex(t, d, k);
    }
    ModSmall(d + 1 + (|t| - 1), |t|);
  }

  /** Position k of the rotation is position (d + 1 + k) mod n of the tour. */
  lemma RotateAfterIndex(t: seq<int>, d: int, k: int)
    requires 0 <= d < |t| && 0 <= k < |t|
    ensures RotateAfter(t, d)[k] == t[(d + 1 + k) % |t|]
  {
    ModSmall(d + 1 + k, |t|);
    if d + 1 + k < |t| {
      assert RotateAfter(t, d)[k] == t[d + 1..][k];
    } else {
      assert RotateAfter(t, d)[k] == t[..d + 1][k - (|t| - d - 1)];
    }
  }

  lemma ModSmall(x: int, n: int)
    requires 0 < n && 0 <= x < 2 * n
    ensures x % n == (if x < n then x else x - n)
  {
  }

  /** A permutation of 0..n-1 holds each of them. */
  lemma PermutationHolds(t: seq<int>, n: nat, x: int)
    requires IsPermutation(t, n) && 0 <= x < n
    ensures x in t
  {
    assert Identity(n)[x] == x;
    assert x in multiset(Identity(n));
  }

  /**
   * When the tour is a permutation of 0..n-1 and position d holds n-1 (the
   * drone), the visited indices are a permutation of the sensors 0..n-2:
   * every sensor exactly once.
   */
  lemma VisitIndicesArePermutation(t: seq<int>, n: nat, d: int)
    requires n > 0 && IsPermutation(t, n) && 0 <= d < |t| && t[d] == n - 1
    ensures IsPermutation(VisitIndices(t, d), n - 1)
  {
    var v := VisitIndices(t, d);
    VisitIndicesIsRotation(t, d);
    RotateMultiset(t, d);
    assert multiset(v + [t[d]]) == multiset(v) + multiset{n - 1};
    IdentityMultiset(n);
    MultisetCancel(multiset(v), multiset(Identity(n - 1)), n - 1);
  }

  lemma MultisetCancel(a: multiset<int>, b: multiset<int>, x: int)
    requires a + multiset{x} == b + multiset{x}
    ensures a == b
  {
    assert a == (a + multiset{x}) - multiset{x};
    assert b == (b + multiset{x}) - multiset{x};
  }

  lemma RotateMultiset(t: seq<int>, d: int)
    requires 0 <= d < |t|
    ensures multiset(RotateAfter(t, d)) == multiset(t)
  {
    assert t == t[..d + 1] + t[d + 1..];
  }

  lemma IdentityMultiset(n: nat)
    requires n > 0
    ensures multiset(Identity(n)) == multiset(Identity(n - 1)) + multiset{n - 1}
  {
    assert Identity(n) == Identity(n - 1) + [n - 1];
  }

  /**
   * The distance matrix of selectVistOrder from the lengths of the legs
   * between sensors i < j (index n-1 is the start): symmetric, zero on the
   * diagonal, where Java leaves the default 0.
   */
  function CostMatrix(n: nat, legLength: (int, int) -> nat): (m: seq<seq<int>>)
    ensures |m| == n && IsCostMatrix(m)
    ensures forall i, j :: 0 <= i < j < n ==> m[i][j] == legLength(i, j) && m[j][i] == legLength(i, j)
    ensures forall i :: 0 <= i < n ==> m[i][i] == 0
  {
    seq(n, i => seq(n, j => if i == j then 0 else if i < j then legLength(i, j) else legLength(j, i)))
  }

  /**
   * selectVistOrder: build the matrix over the sensors and the start (index
   * |sensors|), run twoOpt, and read the tour off starting after the start's
   * index.  The tour is a locally 2-opt-optimal cycle no costlier than the
   * identity; the visit order is its rotation, so every sensor appears
   * exactly once, in the order of the cycle.
   */
  method SelectVisitOrder<S>(sensors: seq<S>, legLength: (int, int) -> nat)
    returns (order: seq<S>, visit: seq<int>, tour: seq<int>)
    ensures |tour| == |sensors| + 1 && IsPermutation(tour, |sensors| + 1) && InRange(tour, |sensors| + 1)
    ensures var m := CostMatrix(|sensors| + 1, legLength);
            && LocallyOptimal(m, tour)
            && TourCost(m, tour) <= TourCost(m, Identity(|sensors| + 1))
    ensures visit == VisitIndices(tour, DroneIndex(tour, |sensors|))
    ensures |order| == |sensors| && |visit| == |sensors|
    ensures IsPermutation(visit, |sensors|)
    ensures forall k :: 0 <= k < |order| ==> 0 <= visit[k] < |sensors| && order[k] == sensors[visit[k]]
  {
    var n := |sensors| + 1;
    var m := CostMatrix(n, legLength);
    tour := TwoOpt(m);
    visit := VisitIndices(tour, DroneIndex(tour, n - 1));
    VisitFromTour(tour, n);
    order := seq(|visit|, k requires 0 <= k < |visit| => sensors[visit[k]]);
  }

  /** Read off after the drone's index, a tour of 0..n-1 visits each of 0..n-2 once. */
  lemma VisitFromTour(t: seq<int>, n: nat)
    requires n > 0 && IsPermutation(t, n)
    ensures |t| == n
    ensures var visit := VisitIndices(t, DroneIndex(t, n - 1));
            IsPermutation(visit, n - 1) && InRange(visit, n - 1)
  {
    PermutationInRange(t, n);
    PermutationHolds(t, n, n - 1);
    var d := DroneIndex(t, n - 1);
    VisitIndicesArePermutation(t, n, d);
    PermutationInRange(VisitIndices(t, d), n - 1);
  }
}
