/**
 * Drone.findPath: a beam search over routes (sequences of positions).  Each
 * round polls the route with the least estimate; it is returned when it ends
 * close enough to the goal and has enough moves, otherwise its legal
 * one-move extensions (36 angles, 10 degrees apart) are merged with the rest
 * of the search space, keeping at most 100 routes.
 */
module BeamSearch {
  import opened Planar
  import opened Frontier

  /** Most routes kept between rounds. */
  const SpaceLimit: nat := 100
  /** Degrees between two candidate move directions. */
  const AngleStepSize: int := 10

  /** The directions tried: 0, 10, ..., 350. */
  predicate AllowedAngle(angle: int)
  {
    0 <= angle < 360 && angle % AngleStepSize == 0
  }

  /**
   * What the search needs from the drone: its move length, the trigonometric
   * step, the distance, and the legality test for a straight move.
   */
  datatype Mover = Mover(moveDistance: real, step: StepFn, distance: DistanceFn, legal: (Point, Point) -> bool)

  /** A route is never empty: it starts with the start position. */
  type Route = r: seq<Point> | |r| > 0 witness [Point(0.0, 0.0)]

  function End(r: Route): Point
  {
    r[|r| - 1]
  }

  /** The comparator's estimate: points times move length plus distance to go. */
  function Estimate(mover: Mover, goal: Point, r: Route): real
  {
    |r| as real * mover.moveDistance + mover.distance(End(r), goal)
  }

  /** The estimate as the ordering key of the queues. */
  function Key(mover: Mover, goal: Point): Route -> real
  {
    (r: Route) => Estimate(mover, goal, r)
  }

  /** The anonymous comparator of findPath. */
  function Compare(mover: Mover, goal: Point, r1: Route, r2: Route): (c: int)
    ensures c == -1 || c == 0 || c == 1
    ensures c < 0 <==> Estimate(mover, goal, r1) < Estimate(mover, goal, r2)
    ensures c > 0 <==> Estimate(mover, goal, r2) < Estimate(mover, goal, r1)
  {
    var e1 := |r1| as real * mover.moveDistance + mover.distance(r1[|r1| - 1], goal);
    var e2 := |r2| as real * mover.moveDistance + mover.distance(r2[|r2| - 1], goal);
    if e1 < e2 then -1 else if e1 > e2 then 1 else 0
  }

  /** The merge's "take the old head" test is the comparator's "strictly smaller". */
  lemma CompareIsKeyOrder(mover: Mover, goal: Point, r1: Route, r2: Route)
    ensures Compare(mover, goal, r1, r2) < 0 <==> Key(mover, goal)(r1) < Key(mover, goal)(r2)
  {
    assert Key(mover, goal)(r1) == Estimate(mover, goal, r1);
    assert Key(mover, goal)(r2) == Estimate(mover, goal, r2);
  }

  /** One drone move: a step of moveDistance along an allowed angle that passes the legality test. */
  predicate IsMove(mover: Mover, p: Point, q: Point)
  {
    && mover.legal(p, q)
    && exists angle :: 0 <= angle < 360 && AllowedAngle(angle) && q == mover.step(p, angle, mover.moveDistance)
  }

  /** A route from `start` made of drone moves only. */
  predicate ValidRoute(mover: Mover, start: Point, r: Route)
  {
    && r[0] == start
    && forall i :: 0 <= i < |r| - 1 ==> IsMove(mover, r[i], r[i + 1])
  }

  /** x is cur followed by one more drone move. */
  predicate Extends(mover: Mover, cur: Route, x: Route)
  {
    |x| == |cur| + 1 && x[..|cur|] == cur && IsMove(mover, End(cur), End(x))
  }

  /** The candidate loop: extensions by the angles from `angle` up to 350 whose move is legal, in angle order. */
  function MovesFrom(mover: Mover, cur: Route, angle: int): (r: seq<Route>)
    requires 0 <= angle && angle % AngleStepSize == 0
    ensures forall i :: 0 <= i < |r| ==> Extends(mover, cur, r[i])
    decreases 360 - angle
  {
    if angle >= 360 then []
    else
      var next := mover.step(End(cur), angle, mover.moveDistance);
      assert AllowedAngle(angle);
      (if mover.legal(End(cur), next) then [cur + [next]] else [])
        + MovesFrom(mover, cur, angle + AngleStepSize)
  }

  /** Every legal allowed direction at or after `angle` does produce its extension. */
  lemma {:induction false} MovesFromComplete(mover: Mover, cur: Route, angle: int, a: int)
    requires 0 <= angle && angle % AngleStepSize == 0
    requires AllowedAngle(a) && angle <= a
    requires mover.legal(End(cur), mover.step(End(cur), a, mover.moveDistance))
    ensures cur + [mover.step(End(cur), a, mover.moveDistance)] in MovesFrom(mover, cur, angle)
    decreases 360 - angle
  {
    if a != angle {
      MovesFromComplete(mover, cur, angle + AngleStepSize, a);
    }
  }

  /** No legal direction at or after `angle`: no candidates. */
  lemma {:induction false} MovesFromEmpty(mover: Mover, cur: Route, angle: int)
    requires 0 <= angle && angle % AngleStepSize == 0
    requires forall a :: AllowedAngle(a) && angle <= a ==> !mover.legal(End(cur), mover.step(End(cur), a, mover.moveDistance))
    ensures MovesFrom(mover, cur, angle) == []
    decreases 360 - angle
  {
    if angle < 360 {
      assert AllowedAngle(angle);
      MovesFromEmpty(mover, cur, angle + AngleStepSize);
    }
  }

  /** Extending a valid route by one drone move keeps it valid. */
  lemma ExtendsValid(mover: Mover, start: Point, cur: Route, x: Route)
    requires ValidRoute(mover, start, cur) && Extends(mover, cur, x)
    ensures ValidRoute(mover, start, x)
  {
    forall i | 0 <= i < |x| - 1
      ensures IsMove(mover, x[i], x[i + 1])
    {
      if i < |cur| - 1 {
        assert x[i] == cur[i] && x[i + 1] == cur[i + 1];
      } else {
        assert x[i] == End(cur);
      }
    }
    assert x[0] == cur[0];
  }

  /** The candidate routes of one polled route: every angle from 0 up, in order. */
  function Candidates(mover: Mover, cur: Route): (r: seq<Route>)
    ensures forall x :: x in r ==> Extends(mover, cur, x)
  {
    MovesFrom(mover, cur, 0)
  }

  /** The success test of findPath. */
  predicate Accepts(mover: Mover, goal: Point, acceptableError: real, minMoves: int, r: Route)
  {
    mover.distance(End(r), goal) <= acceptableError && |r| > minMoves
  }

  /** Found carries the non-null result; NoRoute is the null returned when the search space empties. */
  datatype SearchResult = Found(route: Route) | NoRoute | OutOfFuel

  /** MergeKeepsBest restated for a queue built by sorting a candidate list. */
  lemma MergeSortedCandidates<T>(rest: seq<T>, candidates: seq<T>, moves: seq<T>, limit: nat, key: T -> real)
    requires SortedBy(rest, key) && SortedBy(moves, key)
    requires multiset(moves) == multiset(candidates) && |moves| == |candidates|
    ensures var r := Merge(rest, moves, limit, key);
            && KeptBest(r, multiset(rest) + multiset(candidates), limit, key)
            && SortedBy(r, key)
            && (forall x :: x in r ==> x in rest || x in candidates)
  {
    MergeKeepsBest(rest, moves, limit, key);
    var r := Merge(rest, moves, limit, key);
    forall x | x in r
      ensures x in rest || x in candidates
    {
      assert x in multiset(r);
    }
  }

  /**
   * One beam round after the polled route was rejected: its candidates, added
   * one by one to a fresh queue, merged with the rest of the search space
   * up to the limit.
   */
  function NextFrontier(mover: Mover, goal: Point, frontier: seq<Route>): (next: seq<Route>)
    requires |frontier| > 0 && SortedBy(frontier, Key(mover, goal))
    ensures SortedBy(next, Key(mover, goal))
    ensures |next| <= SpaceLimit
    ensures KeptBest(next, multiset(frontier[1..]) + multiset(Candidates(mover, frontier[0])), SpaceLimit, Key(mover, goal))
    ensures forall x :: x in next ==> x in frontier[1..] || Extends(mover, frontier[0], x)
  {
    var candidates := Candidates(mover, frontier[0]);
    var moves := SortBy(candidates, Key(mover, goal));
    MergeSortedCandidates(frontier[1..], candidates, moves, SpaceLimit, Key(mover, goal));
    Merge(frontier[1..], moves, SpaceLimit, Key(mover, goal))
  }

  /** Every route of a round's result is valid when every route of its input is. */
  lemma NextFrontierValid(mover: Mover, start: Point, goal: Point, frontier: seq<Route>)
    requires |frontier| > 0 && SortedBy(frontier, Key(mover, goal))
    requires forall i :: 0 <= i < |frontier| ==> ValidRoute(mover, start, frontier[i])
    ensures forall x :: x in NextFrontier(mover, goal, frontier) ==> ValidRoute(mover, start, x)
  {
    var next := NextFrontier(mover, goal, frontier);
    forall x | x in next
      ensures ValidRoute(mover, start, x)
    {
      if x in frontier[1..] {
        TailValid(mover, start, frontier, x);
      } else {
        ExtendsValid(mover, start, frontier[0], x);
      }
    }
  }

  lemma TailValid(mover: Mover, start: Point, frontier: seq<Route>, x: Route)
    requires forall i :: 0 <= i < |frontier| ==> ValidRoute(mover, start, frontier[i])
    requires |frontier| > 0 && x in frontier[1..]
    ensures ValidRoute(mover, start, x)
  {
    var k :| 0 <= k < |frontier[1..]| && frontier[1..][k] == x;
    assert frontier[k + 1] == x;
  }

  /** With no legal first move, the round after the start is rejected leaves nothing to search. */
  lemma NoFirstMoveEndsSearch(mover: Mover, start: Point, goal: Point)
    requires forall a :: AllowedAngle(a) ==> !mover.legal(start, mover.step(start, a, mover.moveDistance))
    ensures NextFrontier(mover, goal, [[start]]) == []
  {
    var cur: Route := [start];
    assert End(cur) == start;
    MovesFromEmpty(mover, cur, 0);
    assert SortBy(MovesFrom(mover, cur, 0), Key(mover, goal)) == [];
    assert [[start]][1..] == [];
  }

  /**
   * findPath, bounded by `fuel` rounds.  A found route starts at `start`,
   * ends within `acceptableError` of `goal`, has more than `minMoves`
   * points and is made of legal moves along allowed angles.
   */
  method FindPath(mover: Mover, start: Point, goal: Point, acceptableError: real, minMoves: int, fuel: nat)
    returns (result: SearchResult)
    ensures result.Found? ==> ValidRoute(mover, start, result.route)
    ensures result.Found? ==> Accepts(mover, goal, acceptableError, minMoves, result.route)
    ensures result.Found? ==> |result.route| - 1 >= minMoves
    ensures fuel > 0 && Accepts(mover, goal, acceptableError, minMoves, [start]) ==> result == Found([start])
    ensures fuel > 0 && !Accepts(mover, goal, acceptableError, minMoves, [start])
            && (forall a :: AllowedAngle(a) ==> !mover.legal(start, mover.step(start, a, mover.moveDistance)))
            ==> result == NoRoute
    ensures fuel == 0 ==> result == OutOfFuel
  {
    var key := Key(mover, goal);
    var frontier: seq<Route> := [[start]];
    var remaining: nat := fuel;
    ghost var stuck := !Accepts(mover, goal, acceptableError, minMoves, [start])
                 && (forall a :: AllowedAngle(a) ==> !mover.legal(start, mover.step(start, a, mover.moveDistance)));
    while |frontier| > 0
      invariant remaining <= fuel
      invariant SortedBy(frontier, key)
      invariant |frontier| <= SpaceLimit
      invariant forall i :: 0 <= i < |frontier| ==> ValidRoute(mover, start, frontier[i])
      invariant remaining == fuel ==> frontier == [[start]]
      invariant Accepts(mover, goal, acceptableError, minMoves, [start]) ==> remaining == fuel
      invariant stuck && remaining < fuel ==> frontier == []
      decreases remaining
    {
      if remaining == 0 {
        return OutOfFuel;
      }
      var cur := frontier[0];
      if mover.distance(cur[|cur| - 1], goal) <= acceptableError && |cur| > minMoves {
        return Found(cur);
      }
      if stuck && remaining == fuel {
        NoFirstMoveEndsSearch(mover, start, goal);
      }
      var next := NextFrontier(mover, goal, frontier);
      NextFrontierValid(mover, start, goal, frontier);
      frontier := next;
      remaining := remaining - 1;
    }
    return NoRoute;
  }
}
