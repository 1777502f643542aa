/**
 * Drone.java: the move-legality test against the no-fly zones, and
 * visitSensors, which orders the sensors, searches one leg per sensor plus a
 * leg back to the start, and joins the legs into one flight line.
 */
module Drone {
  import opened Planar
  import opened Wrappers
  import NoFlyZone
  import BeamSearch
  import Tour
  import Sensors

  /** The drone's parameters; maxMoves is stored but no live code reads it. */
  datatype Drone = Drone(startPosition: Point, moveDistance: real, readDistance: real, endingDistance: real, maxMoves: int)

  /** The line through p and q with checkMoveLegality's sign convention. */
  function DroneLine(p: Point, q: Point): Line
  {
    // a = lat2 - lat1, b = lng1 - lng2, c = -(lng1 * a) - (lat1 * b)
    Line(q.lat - p.lat, p.lng - q.lng, -(p.lng * (q.lat - p.lat)) - (p.lat * (p.lng - q.lng)))
  }

  function Negate(l: Line): Line
  {
    Line(-l.a, -l.b, -l.c)
  }

  /** checkMoveLegality's coefficients are the negation of isCrossedByMove's. */
  lemma DroneLineNegated(p: Point, q: Point)
    ensures DroneLine(p, q) == Negate(NoFlyZone.LineThrough(p, q))
  {
    assert -(p.lng * (q.lat - p.lat)) - (p.lat * (p.lng - q.lng))
        == -(-(p.lng * (p.lat - q.lat)) - (p.lat * (q.lng - p.lng)));
  }

  /** Negating both lines changes neither the determinant, nor the coincidence checks, nor the common point. */
  lemma NegatedLinesAgree(l1: Line, l2: Line)
    ensures Det(Negate(l1), Negate(l2)) == Det(l1, l2)
    ensures NoFlyZone.Coincident(Negate(l1), Negate(l2)) == NoFlyZone.Coincident(l1, l2)
    ensures Det(l1, l2) != 0.0 ==> Intersection(Negate(l1), Negate(l2)) == Intersection(l1, l2)
  {
    assert (-l1.a) * (-l2.b) == l1.a * l2.b;
    assert (-l2.a) * (-l1.b) == l2.a * l1.b;
    assert (-l2.b) * (-l1.c) == l2.b * l1.c;
    assert (-l1.b) * (-l2.c) == l1.b * l2.c;
    assert (-l2.a) * (-l1.c) == l2.a * l1.c;
    assert (-l1.a) * (-l2.c) == l1.a * l2.c;
  }

  /**
   * The edge test of checkMoveLegality exactly as written: no tolerance,
   * and in the parallel case only the edge's endpoints are tested against
   * the move's box.
   */
  predicate EdgeBlocksMoveAsWritten(start: Point, end: Point, p1: Point, p2: Point)
  {
    if Det(DroneLine(start, end), DroneLine(p1, p2)) != 0.0 then
      NoFlyZone.IntersectionInBoxes(DroneLine(start, end), DroneLine(p1, p2), start, end, p1, p2, 0.0)
    else
      && NoFlyZone.Coincident(DroneLine(start, end), DroneLine(p1, p2))
      && (InBox(p1, start, end, 0.0) || InBox(p2, start, end, 0.0))
  }

  /** The twin tests agree: checkMoveLegality's edge test is isCrossedByMove's at tolerance 0. */
  lemma EdgeBlocksMoveAsWrittenIsZeroOffset(start: Point, end: Point, p1: Point, p2: Point)
    ensures EdgeBlocksMoveAsWritten(start, end, p1, p2) == NoFlyZone.EdgeCrossedAsWritten(start, end, p1, p2, 0.0)
  {
    DroneLineNegated(start, end);
    DroneLineNegated(p1, p2);
    NegatedLinesAgree(NoFlyZone.LineThrough(start, end), NoFlyZone.LineThrough(p1, p2));
  }

  /** checkMoveLegality as written: no edge of any zone passes its edge test. */
  predicate LegalAsWritten(start: Point, end: Point, zones: seq<NoFlyZone.Zone>)
  {
    forall k, i :: 0 <= k < |zones| && 0 <= i < |zones[k].boundary| - 1 ==>
      !EdgeBlocksMoveAsWritten(start, end, zones[k].boundary[i], zones[k].boundary[i + 1])
  }

  /** No zone is crossed at tolerance 0 under the given edge test. */
  predicate Legal(test: NoFlyZone.EdgeTest, start: Point, end: Point, zones: seq<NoFlyZone.Zone>)
  {
    forall k :: 0 <= k < |zones| ==> !NoFlyZone.Crosses(test, zones[k].boundary, start, end, 0.0)
  }

  /** checkMoveLegality as written is the zone scan with the as-written test at tolerance 0. */
  lemma LegalAsWrittenIsZoneScan(start: Point, end: Point, zones: seq<NoFlyZone.Zone>)
    ensures LegalAsWritten(start, end, zones) <==> Legal(NoFlyZone.AsWritten, start, end, zones)
  {
    forall k, i | 0 <= k < |zones| && 0 <= i < |zones[k].boundary| - 1
      ensures EdgeBlocksMoveAsWritten(start, end, zones[k].boundary[i], zones[k].boundary[i + 1])
              == NoFlyZone.EdgeCrossedBy(NoFlyZone.AsWritten, start, end, zones[k].boundary[i], zones[k].boundary[i + 1], 0.0)
    {
      EdgeBlocksMoveAsWrittenIsZeroOffset(start, end, zones[k].boundary[i], zones[k].boundary[i + 1]);
    }
  }

  /** The nested loops of checkMoveLegality, with its edge test as written. */
  method CheckMoveLegalityAsWritten(start: Point, end: Point, zones: seq<NoFlyZone.Zone>) returns (legal: bool)
    ensures legal <==> LegalAsWritten(start, end, zones)
  {
    for k := 0 to |zones|
      invariant forall k', i :: 0 <= k' < k && 0 <= i < |zones[k'].boundary| - 1 ==>
                  !EdgeBlocksMoveAsWritten(start, end, zones[k'].boundary[i], zones[k'].boundary[i + 1])
    {
      var boundary := zones[k].boundary;
      var i := 0;
      while i < |boundary| - 1
        invariant 0 <= i && (i <= |boundary| - 1 || i == 0)
        invariant forall i' :: 0 <= i' < i ==> !EdgeBlocksMoveAsWritten(start, end, boundary[i'], boundary[i' + 1])
      {
        if EdgeBlocksMoveAsWritten(start, end, boundary[i], boundary[i + 1]) {
          return false;
        }
        i := i + 1;
      }
    }
    return true;
  }

  /** checkMoveLegality with the completed edge test: each zone is asked isCrossedByMove at tolerance 0. */
  method CheckMoveLegality(start: Point, end: Point, zones: seq<NoFlyZone.Zone>) returns (legal: bool)
    ensures legal <==> Legal(NoFlyZone.Completed, start, end, zones)
  {
    for k := 0 to |zones|
      invariant forall k' :: 0 <= k' < k ==> !NoFlyZone.Crosses(NoFlyZone.Completed, zones[k'].boundary, start, end, 0.0)
    {
      var crossed := NoFlyZone.IsCrossedByMoveWithOffset(NoFlyZone.Completed, zones[k], start, end, 0.0);
      if crossed {
        return false;
      }
    }
    return true;
  }

  /** Wherever the test as written forbids a move, the corrected one does too. */
  lemma LegalMoveIsLegalAsWritten(start: Point, end: Point, zones: seq<NoFlyZone.Zone>)
    requires Legal(NoFlyZone.Completed, start, end, zones)
    ensures LegalAsWritten(start, end, zones) && Legal(NoFlyZone.AsWritten, start, end, zones)
  {
    forall k | 0 <= k < |zones|
      ensures !NoFlyZone.Crosses(NoFlyZone.AsWritten, zones[k].boundary, start, end, 0.0)
    {
      NoFlyZone.CrossesAsWrittenImpliesCompleted(zones[k].boundary, start, end, 0.0);
    }
    LegalAsWrittenIsZoneScan(start, end, zones);
  }

  /**
   * The same gap as in isCrossedByMove: a zone with an edge three units
   * long running east from p1, and a move along its middle third.  The test
   * as written lets the move through; the corrected one does not.
   */
  lemma AsWrittenAllowsMoveAlongEdge(p1: Point, p2: Point)
    requires p2 == Point(p1.lng + 3.0, p1.lat)
    ensures LegalAsWritten(Point(p1.lng + 1.0, p1.lat), Point(p1.lng + 2.0, p1.lat), [NoFlyZone.Zone([p1, p2])])
    ensures !Legal(NoFlyZone.Completed, Point(p1.lng + 1.0, p1.lat), Point(p1.lng + 2.0, p1.lat), [NoFlyZone.Zone([p1, p2])])
  {
    var start, end := Point(p1.lng + 1.0, p1.lat), Point(p1.lng + 2.0, p1.lat);
    var zones := [NoFlyZone.Zone([p1, p2])];
    NoFlyZone.AsWrittenMissesMoveAlongEdge(p1, p2);
    NoFlyZone.AsWrittenMissesInteriorMove(start, end, p1, p2, 1.0 / 3.0, 2.0 / 3.0, 0.0);
    EdgeBlocksMoveAsWrittenIsZeroOffset(start, end, p1, p2);
    assert zones[0].boundary[0] == p1 && zones[0].boundary[1] == p2;
    assert NoFlyZone.EdgeCrossedBy(NoFlyZone.Completed, start, end, zones[0].boundary[0], zones[0].boundary[1], 0.0);
  }

  /**
   * What findPath is given by this drone: its move length and the legality
   * test.  With the AsWritten edge test this is the program's checkMoveLegality
   * (LegalAsWrittenIsZoneScan); with Completed, the corrected one.
   */
  function DroneMover(drone: Drone, step: StepFn, distance: DistanceFn, zones: seq<NoFlyZone.Zone>, test: NoFlyZone.EdgeTest): BeamSearch.Mover
  {
    BeamSearch.Mover(drone.moveDistance, step, distance, (s: Point, e: Point) => Legal(test, s, e, zones))
  }

  /** Number of moves in a list of legs. */
  function TotalMoves(legs: seq<BeamSearch.Route>): nat
  {
    if |legs| == 0 then 0 else TotalMoves(legs[..|legs| - 1]) + |legs[|legs| - 1]| - 1
  }

  /**
   * The flight line of visitSensors: the start position, then every leg
   * without its first point, in order.
   */
  function JoinLegs(start: Point, legs: seq<BeamSearch.Route>): (line: BeamSearch.Route)
    ensures |line| == 1 + TotalMoves(legs)
    ensures line[0] == start
    ensures |legs| > 0 ==> line[|line| - |legs[|legs| - 1]| + 1..] == legs[|legs| - 1][1..]
  {
    if |legs| == 0 then [start]
    else JoinLegs(start, legs[..|legs| - 1]) + legs[|legs| - 1][1..]
  }

  /** Each leg starts where the previous one ended, the first at `start`. */
  predicate Chained(start: Point, legs: seq<BeamSearch.Route>)
  {
    && (|legs| > 0 ==> legs[0][0] == start)
    && forall k :: 0 < k < |legs| ==> Follows(legs[k - 1], legs[k])
  }

  /** Leg b starts where leg a ends. */
  predicate Follows(a: BeamSearch.Route, b: BeamSearch.Route)
  {
    b[0] == BeamSearch.End(a)
  }

  /** Every consecutive pair of the sequence is a drone move. */
  predicate AllMoves(mover: BeamSearch.Mover, line: seq<Point>)
  {
    forall i :: 0 <= i < |line| - 1 ==> BeamSearch.IsMove(mover, line[i], line[i + 1])
  }

  /** The first legs of a chain form a chain. */
  lemma ChainedPrefix(start: Point, legs: seq<BeamSearch.Route>)
    requires Chained(start, legs) && |legs| > 0
    ensures Chained(start, legs[..|legs| - 1])
  {
    var front := legs[..|legs| - 1];
    forall k | 0 < k < |front|
      ensures Follows(front[k - 1], front[k])
    {
      assert front[k] == legs[k] && front[k - 1] == legs[k - 1];
    }
  }

  /** Joined chained legs end where the last leg ends, and the last leg starts at the end of the line before it. */
  lemma {:induction false} JoinLegsEnd(start: Point, legs: seq<BeamSearch.Route>)
    requires Chained(start, legs)
    ensures BeamSearch.End(JoinLegs(start, legs)) == (if |legs| == 0 then start else BeamSearch.End(legs[|legs| - 1]))
    decreases |legs|
  {
    if |legs| > 0 {
      var front := legs[..|legs| - 1];
      var last := legs[|legs| - 1];
      ChainedPrefix(start, legs);
      JoinLegsEnd(start, front);
      LastLegStartsAtLineEnd(start, legs);
      EndAfterJoin(JoinLegs(start, front), last);
    }
  }

  /** A leg that starts where a line ends, joined on without its first point, ends the line. */
  lemma EndAfterJoin(line: BeamSearch.Route, leg: BeamSearch.Route)
    requires leg[0] == BeamSearch.End(line)
    ensures BeamSearch.End(line + leg[1..]) == BeamSearch.End(leg)
  {
    if |leg| == 1 {
      assert line + leg[1..] == line;
    }
  }

  lemma LastLegStartsAtLineEnd(start: Point, legs: seq<BeamSearch.Route>)
    requires Chained(start, legs) && |legs| > 0
    requires BeamSearch.End(JoinLegs(start, legs[..|legs| - 1]))
             == (if |legs| == 1 then start else BeamSearch.End(legs[|legs| - 2]))
    ensures legs[|legs| - 1][0] == BeamSearch.End(JoinLegs(start, legs[..|legs| - 1]))
  {
    if |legs| > 1 {
      assert Follows(legs[|legs| - 2], legs[|legs| - 1]);
    }
  }

  /** Joining chained legs made of drone moves gives a line made of drone moves. */
  lemma {:induction false} JoinLegsMoves(mover: BeamSearch.Mover, start: Point, legs: seq<BeamSearch.Route>)
    requires Chained(start, legs)
    requires forall k :: 0 <= k < |legs| ==> AllMoves(mover, legs[k])
    ensures AllMoves(mover, JoinLegs(start, legs))
    decreases |legs|
  {
    if |legs| > 0 {
      var front := legs[..|legs| - 1];
      var last := legs[|legs| - 1];
      ChainedPrefix(start, legs);
      JoinLegsMoves(mover, start, front);
      JoinLegsEnd(start, front);
      LastLegStartsAtLineEnd(start, legs);
      AppendMoves(mover, JoinLegs(start, front), last);
    }
  }

  /** A line of moves followed by a leg of moves starting where it ends is a line of moves. */
  lemma AppendMoves(mover: BeamSearch.Mover, a: BeamSearch.Route, last: BeamSearch.Route)
    requires AllMoves(mover, a) && AllMoves(mover, last) && last[0] == BeamSearch.End(a)
    ensures AllMoves(mover, a + last[1..])
  {
    var line := a + last[1..];
    forall i | 0 <= i < |line| - 1
      ensures BeamSearch.IsMove(mover, line[i], line[i + 1])
    {
      if i < |a| - 1 {
        assert line[i] == a[i] && line[i + 1] == a[i + 1];
      } else {
        var j := i - |a| + 1;
        assert line[i] == last[j] && line[i + 1] == last[j + 1];
      }
    }
  }

  /** The line passes the end of every chained leg. */
  lemma {:induction false} JoinLegsPassesEnds(start: Point, legs: seq<BeamSearch.Route>)
    requires Chained(start, legs)
    ensures forall k :: 0 <= k < |legs| ==> BeamSearch.End(legs[k]) in JoinLegs(start, legs)
    decreases |legs|
  {
    if |legs| > 0 {
      var front := legs[..|legs| - 1];
      var last := legs[|legs| - 1];
      var prefix := JoinLegs(start, front);
      var line := JoinLegs(start, legs);
      ChainedPrefix(start, legs);
      JoinLegsPassesEnds(start, front);
      assert line == prefix + last[1..];
      forall k | 0 <= k < |legs| - 1
        ensures BeamSearch.End(legs[k]) in line
      {
        assert front[k] == legs[k];
        StaysInPrefix(prefix, last[1..], BeamSearch.End(front[k]));
      }
      JoinLegsEnd(start, legs);
      assert line[|line| - 1] in line;
    }
  }

  lemma StaysInPrefix(a: seq<Point>, b: seq<Point>, x: Point)
    requires x in a
    ensures x in a + b
  {
    var k :| 0 <= k < |a| && a[k] == x;
    assert (a + b)[k] == x;
  }

  /** Legs with at least one move each add at least one point each. */
  lemma {:induction false} TotalMovesAtLeast(legs: seq<BeamSearch.Route>, n: nat)
    requires n <= |legs|
    requires forall k :: 0 <= k < n ==> |legs[k]| >= 2
    ensures TotalMoves(legs) >= n
    decreases |legs|
  {
    if |legs| > 0 {
      if n == |legs| {
        TotalMovesAtLeast(legs[..|legs| - 1], n - 1);
      } else {
        TotalMovesAtLeast(legs[..|legs| - 1], n);
      }
    }
  }

  /**
   * visitSensors, with each findPath bounded by `fuel` rounds.  The distance
   * matrix of the visit order is given as `legLength`.  A search that finds
   * nothing ends the flight with None, where the source dereferences null.
   * The line starts at the start position, is made of legal drone moves,
   * comes within reading range of every sensor, and ends within the ending
   * distance of the start.  With the AsWritten edge test the moves are those
   * the program's checkMoveLegality accepts; with Completed, the corrected
   * test's.
   */
  method VisitSensors(drone: Drone, sensors: seq<Sensors.Sensor>, zones: seq<NoFlyZone.Zone>, test: NoFlyZone.EdgeTest,
                      step: StepFn, distance: DistanceFn, legLength: (int, int) -> nat, fuel: nat)
    returns (line: Option<BeamSearch.Route>)
    ensures line.Some? ==> line.value[0] == drone.startPosition
    ensures line.Some? ==> AllMoves(DroneMover(drone, step, distance, zones, test), line.value)
    ensures line.Some? ==> distance(BeamSearch.End(line.value), drone.startPosition) <= drone.endingDistance
    ensures line.Some? ==> forall s :: s in sensors ==>
              exists k :: 0 <= k < |line.value| && distance(line.value[k], Sensors.Position(s)) <= drone.readDistance
    ensures line.Some? ==> |line.value| >= |sensors| + 1
  {
    var mover := DroneMover(drone, step, distance, zones, test);
    var order, visit, tour := Tour.SelectVisitOrder(sensors, legLength);
    line := FlyInOrder(drone, mover, sensors, order, visit, fuel);
  }

  /**
   * The flight of visitSensors once the visit order is fixed: one leg per
   * sensor in that order, then the leg home.
   */
  method FlyInOrder(drone: Drone, mover: BeamSearch.Mover, sensors: seq<Sensors.Sensor>, order: seq<Sensors.Sensor>,
                    visit: seq<int>, fuel: nat)
    returns (line: Option<BeamSearch.Route>)
    requires |order| == |sensors| == |visit| && Tour.IsPermutation(visit, |sensors|)
    requires forall k :: 0 <= k < |order| ==> 0 <= visit[k] < |sensors| && order[k] == sensors[visit[k]]
    ensures line.Some? ==> line.value[0] == drone.startPosition
    ensures line.Some? ==> AllMoves(mover, line.value)
    ensures line.Some? ==> mover.distance(BeamSearch.End(line.value), drone.startPosition) <= drone.endingDistance
    ensures line.Some? ==> forall s :: s in sensors ==>
              exists k :: 0 <= k < |line.value| && mover.distance(line.value[k], Sensors.Position(s)) <= drone.readDistance
    ensures line.Some? ==> |line.value| >= |sensors| + 1
  {
    var found := SensorLegs(drone, mover, order, fuel);
    if found.None? {
      return None;
    }
    var legs := found.value;
    var current := if |legs| == 0 then drone.startPosition else BeamSearch.End(legs[|legs| - 1]);
    var back := BeamSearch.FindPath(mover, current, drone.startPosition, drone.endingDistance, 0, fuel);
    if !back.Found? {
      return None;
    }
    assert mover.distance(BeamSearch.End(back.route), drone.startPosition) <= drone.endingDistance;
    var all := AppendLeg(drone.startPosition, mover, legs, back.route);
    var joined := JoinLegs(drone.startPosition, all);
    FlightLine(drone, mover, sensors, order, visit, all);
    assert BeamSearch.End(joined) == BeamSearch.End(back.route);
    line := Some(joined);
  }

  /** What joining the sensor legs and the leg home guarantees about the flight line. */
  lemma FlightLine(drone: Drone, mover: BeamSearch.Mover, sensors: seq<Sensors.Sensor>, order: seq<Sensors.Sensor>,
                   visit: seq<int>, all: seq<BeamSearch.Route>)
    requires |order| == |sensors| == |visit| && Tour.IsPermutation(visit, |sensors|)
    requires forall k :: 0 <= k < |order| ==> 0 <= visit[k] < |sensors| && order[k] == sensors[visit[k]]
    requires |all| == |order| + 1 && Chained(drone.startPosition, all)
    requires forall k :: 0 <= k < |all| ==> AllMoves(mover, all[k])
    requires forall k :: 0 <= k < |order| ==> |all[k]| >= 2
    requires forall k :: 0 <= k < |order| ==>
               mover.distance(BeamSearch.End(all[k]), Sensors.Position(order[k])) <= drone.readDistance
    ensures var line := JoinLegs(drone.startPosition, all);
            && AllMoves(mover, line)
            && BeamSearch.End(line) == BeamSearch.End(all[|all| - 1])
            && |line| >= |sensors| + 1
            && forall s :: s in sensors ==>
                 exists k :: 0 <= k < |line| && mover.distance(line[k], Sensors.Position(s)) <= drone.readDistance
  {
    JoinLegsEnd(drone.startPosition, all);
    JoinLegsMoves(mover, drone.startPosition, all);
    JoinLegsPassesEnds(drone.startPosition, all);
    TotalMovesAtLeast(all, |order|);
    EverySensorRead(sensors, order, visit, all, JoinLegs(drone.startPosition, all), mover.distance, drone.readDistance);
  }

  /** Adding a leg of moves that starts where the chain ends keeps a chain of move legs. */
  function AppendLeg(start: Point, mover: BeamSearch.Mover, legs: seq<BeamSearch.Route>, leg: BeamSearch.Route): (all: seq<BeamSearch.Route>)
    requires Chained(start, legs) && forall k :: 0 <= k < |legs| ==> AllMoves(mover, legs[k])
    requires leg[0] == (if |legs| == 0 then start else BeamSearch.End(legs[|legs| - 1]))
    requires BeamSearch.ValidRoute(mover, leg[0], leg)
    ensures |all| == |legs| + 1 && all[..|legs|] == legs && all[|legs|] == leg
    ensures Chained(start, all) && forall k :: 0 <= k < |all| ==> AllMoves(mover, all[k])
  {
    assert AllMoves(mover, leg);
    var all := legs + [leg];
    assert forall k :: 0 <= k < |legs| ==> all[k] == legs[k];
    all
  }

  /**
   * The loop of visitSensors over the visit order: one findPath leg per
   * sensor, each starting where the previous ended, with at least one move,
   * ending within reading range of its sensor.
   */
  method SensorLegs(drone: Drone, mover: BeamSearch.Mover, order: seq<Sensors.Sensor>, fuel: nat)
    returns (result: Option<seq<BeamSearch.Route>>)
    ensures result.Some? ==> |result.value| == |order|
    ensures result.Some? ==> Chained(drone.startPosition, result.value)
    ensures result.Some? ==> forall k :: 0 <= k < |order| ==> AllMoves(mover, result.value[k])
    ensures result.Some? ==> forall k :: 0 <= k < |order| ==> |result.value[k]| >= 2
    ensures result.Some? ==> forall k :: 0 <= k < |order| ==>
              mover.distance(BeamSearch.End(result.value[k]), Sensors.Position(order[k])) <= drone.readDistance
  {
    var legs: seq<BeamSearch.Route> := [];
    var current := drone.startPosition;
    for i := 0 to |order|
      invariant |legs| == i
      invariant Chained(drone.startPosition, legs)
      invariant current == (if i == 0 then drone.startPosition else BeamSearch.End(legs[i - 1]))
      invariant forall k :: 0 <= k < i ==> AllMoves(mover, legs[k])
      invariant forall k :: 0 <= k < i ==> |legs[k]| >= 2
      invariant forall k :: 0 <= k < i ==> mover.distance(BeamSearch.End(legs[k]), Sensors.Position(order[k])) <= drone.readDistance
    {
      var found := BeamSearch.FindPath(mover, current, Sensors.Position(order[i]), drone.readDistance, 1, fuel);
      if !found.Found? {
        return None;
      }
      legs := AppendLeg(drone.startPosition, mover, legs, found.route);
      current := BeamSearch.End(found.route);
    }
    return Some(legs);
  }

  /**
   * Each sensor's leg ends within reading range of it, and every leg end
   * is on the line: so every sensor is read somewhere on the line.
   */
  lemma EverySensorRead(sensors: seq<Sensors.Sensor>, order: seq<Sensors.Sensor>, visit: seq<int>,
                        legs: seq<BeamSearch.Route>, line: seq<Point>, distance: DistanceFn, readDistance: real)
    requires |order| == |sensors| == |visit| && Tour.IsPermutation(visit, |sensors|)
    requires forall k :: 0 <= k < |order| ==> 0 <= visit[k] < |sensors| && order[k] == sensors[visit[k]]
    requires |order| <= |legs|
    requires forall k :: 0 <= k < |order| ==> distance(BeamSearch.End(legs[k]), Sensors.Position(order[k])) <= readDistance
    requires forall k :: 0 <= k < |legs| ==> BeamSearch.End(legs[k]) in line
    ensures forall s :: s in sensors ==>
              exists q :: 0 <= q < |line| && distance(line[q], Sensors.Position(s)) <= readDistance
  {
    forall s | s in sensors
      ensures exists q :: 0 <= q < |line| && distance(line[q], Sensors.Position(s)) <= readDistance
    {
      var j :| 0 <= j < |sensors| && sensors[j] == s;
      SensorIsVisited(visit, |sensors|, j);
      var k :| 0 <= k < |visit| && visit[k] == j;
      assert BeamSearch.End(legs[k]) in line;
      var q :| 0 <= q < |line| && line[q] == BeamSearch.End(legs[k]);
    }
  }

  /** A permutation of 0..n-1 lists every index. */
  lemma SensorIsVisited(visit: seq<int>, n: nat, j: int)
    requires Tour.IsPermutation(visit, n) && 0 <= j < n
    ensures exists k :: 0 <= k < |visit| && visit[k] == j
  {
    assert Tour.Identity(n)[j] == j;
    assert j in multiset(Tour.Identity(n));
    assert j in multiset(visit);
  }
}
