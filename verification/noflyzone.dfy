/**
 * NoFlyZone.isCrossedByMove: does a straight move cross an edge of a
 * no-fly zone's boundary ring?  Each edge and the move are turned into lines
 * a*x + b*y + c == 0; non-parallel lines are intersected with Cramer's rule and
 * the point is tested against both bounding boxes; parallel lines are tested
 * for coincidence and overlap.
 */
module NoFlyZone {
  import opened Planar

  /** The tolerance the public overload passes (1e-10). */
  const FloatOffset: real := 0.0000000001

  /** A no-fly zone: the outer ring of its polygon (first position == last). */
  datatype Zone = Zone(boundary: seq<Point>)

  /** The line through p and q with the sign convention of NoFlyZone.java. */
  function LineThrough(p: Point, q: Point): (l: Line)
    ensures l.a == 0.0 && l.b == 0.0 <==> p == q
  {
    // a = lat1 - lat2, b = lng2 - lng1, c = -(lng1 * a) - (lat1 * b)
    Line(p.lat - q.lat, q.lng - p.lng, -(p.lng * (p.lat - q.lat)) - (p.lat * (q.lng - p.lng)))
  }

  /** Both points that define the line satisfy its equation. */
  lemma LineThroughEndpoints(p: Point, q: Point)
    ensures OnLine(LineThrough(p, q), p) && OnLine(LineThrough(p, q), q)
  {
  }

  /** The two cross-checks of the parallel case: both vanish when the parallel lines coincide. */
  predicate Coincident(l1: Line, l2: Line)
  {
    l2.b * l1.c - l1.b * l2.c == 0.0 && l2.a * l1.c - l1.a * l2.c == 0.0
  }

  /**
   * The non-parallel case of the edge test: the lines' common point lies in
   * both segments' boxes.
   */
  predicate IntersectionInBoxes(l1: Line, l2: Line, start: Point, end: Point, p1: Point, p2: Point, offset: real)
    requires Det(l1, l2) != 0.0
  {
    InBox(Intersection(l1, l2), start, end, offset) && InBox(Intersection(l1, l2), p1, p2, offset)
  }

  /**
   * The edge test exactly as written: in the parallel case only the edge's
   * endpoints are tested against the move's box.
   */
  predicate EdgeCrossedAsWritten(start: Point, end: Point, p1: Point, p2: Point, offset: real)
  {
    if Det(LineThrough(start, end), LineThrough(p1, p2)) != 0.0 then
      IntersectionInBoxes(LineThrough(start, end), LineThrough(p1, p2), start, end, p1, p2, offset)
    else
      && Coincident(LineThrough(start, end), LineThrough(p1, p2))
      && (InBox(p1, start, end, offset) || InBox(p2, start, end, offset))
  }

  /**
   * The edge test with the parallel case completed: coincident segments
   * overlap when an endpoint of the edge lies in the move's box, or an
   * endpoint of the move lies on the edge's line and in the edge's box.
   */
  predicate EdgeCrossed(start: Point, end: Point, p1: Point, p2: Point, offset: real)
  {
    if Det(LineThrough(start, end), LineThrough(p1, p2)) != 0.0 then
      IntersectionInBoxes(LineThrough(start, end), LineThrough(p1, p2), start, end, p1, p2, offset)
    else
      && Coincident(LineThrough(start, end), LineThrough(p1, p2))
      && (|| InBox(p1, start, end, offset) || InBox(p2, start, end, offset)
          || (InBox(start, p1, p2, offset) && OnLine(LineThrough(p1, p2), start))
          || (InBox(end, p1, p2, offset) && OnLine(LineThrough(p1, p2), end)))
  }

  /** Which edge test a ring scan uses: the one the code has, or the completed one. */
  datatype EdgeTest = AsWritten | Completed

  predicate EdgeCrossedBy(test: EdgeTest, start: Point, end: Point, p1: Point, p2: Point, offset: real)
  {
    match test
    case AsWritten => EdgeCrossedAsWritten(start, end, p1, p2, offset)
    case Completed => EdgeCrossed(start, end, p1, p2, offset)
  }

  /** Some edge (ring[i], ring[i+1]) of the ring is crossed by the move. */
  predicate Crosses(test: EdgeTest, ring: seq<Point>, start: Point, end: Point, offset: real)
  {
    exists i :: 0 <= i < |ring| - 1 && EdgeCrossedBy(test, start, end, ring[i], ring[i + 1], offset)
  }

  /**
   * The private overload: scan the edges in order and stop at the first
   * crossed one.  With AsWritten it is the code's method; with Completed,
   * the corrected one.
   */
  method IsCrossedByMoveWithOffset(test: EdgeTest, zone: Zone, start: Point, end: Point, floatOffset: real)
    returns (crossed: bool)
    ensures crossed <==> Crosses(test, zone.boundary, start, end, floatOffset)
    ensures |zone.boundary| < 2 ==> !crossed
  {
    var ring := zone.boundary;
    var i := 0;
    while i < |ring| - 1
      invariant 0 <= i && (i <= |ring| - 1 || i == 0)
      invariant forall k :: 0 <= k < i ==> !EdgeCrossedBy(test, start, end, ring[k], ring[k + 1], floatOffset)
    {
      if EdgeCrossedBy(test, start, end, ring[i], ring[i + 1], floatOffset) {
        return true;
      }
      i := i + 1;
    }
    return false;
  }

  /** The public overload: the private one with the default tolerance. */
  method IsCrossedByMove(test: EdgeTest, zone: Zone, start: Point, end: Point) returns (crossed: bool)
    ensures crossed <==> Crosses(test, zone.boundary, start, end, FloatOffset)
  {
    crossed := IsCrossedByMoveWithOffset(test, zone, start, end, FloatOffset);
  }

  /** A larger tolerance only ever adds crossings, for either edge test. */
  lemma {:induction false} EdgeCrossedMonotone(test: EdgeTest, start: Point, end: Point, p1: Point, p2: Point, offset: real, wider: real)
    requires EdgeCrossedBy(test, start, end, p1, p2, offset) && offset <= wider
    ensures EdgeCrossedBy(test, start, end, p1, p2, wider)
  {
    var l1 := LineThrough(start, end);
    var l2 := LineThrough(p1, p2);
    if Det(l1, l2) != 0.0 {
      var x := Intersection(l1, l2);
      InBoxMonotone(x, start, end, offset, wider);
      InBoxMonotone(x, p1, p2, offset, wider);
    } else if InBox(p1, start, end, offset) {
      InBoxMonotone(p1, start, end, offset, wider);
    } else if InBox(p2, start, end, offset) {
      InBoxMonotone(p2, start, end, offset, wider);
    } else if InBox(start, p1, p2, offset) && OnLine(l2, start) {
      InBoxMonotone(start, p1, p2, offset, wider);
    } else {
      InBoxMonotone(end, p1, p2, offset, wider);
    }
  }

  lemma CrossesMonotone(test: EdgeTest, ring: seq<Point>, start: Point, end: Point, offset: real, wider: real)
    requires Crosses(test, ring, start, end, offset) && offset <= wider
    ensures Crosses(test, ring, start, end, wider)
  {
    var i :| 0 <= i < |ring| - 1 && EdgeCrossedBy(test, start, end, ring[i], ring[i + 1], offset);
    EdgeCrossedMonotone(test, start, end, ring[i], ring[i + 1], offset, wider);
  }

  /**
   * Touching counts as crossing: if the move and a non-parallel edge share a
   * point lying in both closed boxes, the edge is crossed at any tolerance.
   */
  lemma {:induction false} SharedPointCrosses(start: Point, end: Point, p1: Point, p2: Point, x: Point, offset: real)
    requires Det(LineThrough(start, end), LineThrough(p1, p2)) != 0.0
    requires OnLine(LineThrough(start, end), x) && OnLine(LineThrough(p1, p2), x)
    requires InBox(x, start, end, 0.0) && InBox(x, p1, p2, 0.0)
    requires 0.0 <= offset
    ensures EdgeCrossedAsWritten(start, end, p1, p2, offset) && EdgeCrossed(start, end, p1, p2, offset)
  {
    IntersectionUnique(LineThrough(start, end), LineThrough(p1, p2), x);
    InBoxMonotone(x, start, end, 0.0, offset);
    InBoxMonotone(x, p1, p2, 0.0, offset);
  }

  /** Ring-level form: touching one edge of the ring makes the whole move cross the zone. */
  lemma TouchingRingEdgeCrosses(test: EdgeTest, ring: seq<Point>, i: int, start: Point, end: Point, x: Point, offset: real)
    requires 0 <= i < |ring| - 1
    requires Det(LineThrough(start, end), LineThrough(ring[i], ring[i + 1])) != 0.0
    requires OnLine(LineThrough(start, end), x) && OnLine(LineThrough(ring[i], ring[i + 1]), x)
    requires InBox(x, start, end, 0.0) && InBox(x, ring[i], ring[i + 1], 0.0)
    requires 0.0 <= offset
    ensures Crosses(test, ring, start, end, offset)
  {
    SharedPointCrosses(start, end, ring[i], ring[i + 1], x, offset);
    assert EdgeCrossedBy(test, start, end, ring[i], ring[i + 1], offset);
  }

  /**
   * In the parallel case a crossing needs the segments to lie on one line:
   * for a real move and a real edge, both edge endpoints are on the move's line.
   */
  lemma {:induction false} ParallelCrossingIsCollinear(start: Point, end: Point, p1: Point, p2: Point, offset: real)
    requires start != end && p1 != p2
    requires Det(LineThrough(start, end), LineThrough(p1, p2)) == 0.0
    requires EdgeCrossed(start, end, p1, p2, offset)
    ensures OnLine(LineThrough(start, end), p1) && OnLine(LineThrough(start, end), p2)
  {
    var l1 := LineThrough(start, end);
    var l2 := LineThrough(p1, p2);
    assert Coincident(l1, l2);
    LineThroughEndpoints(p1, p2);
    ProportionalLines(l1, l2, p1);
    ProportionalLines(l1, l2, p2);
  }

  /** Rank-one argument: parallel, coincident, non-degenerate lines have the same points. */
  lemma ProportionalLines(l1: Line, l2: Line, p: Point)
    requires !(l1.a == 0.0 && l1.b == 0.0) && !(l2.a == 0.0 && l2.b == 0.0)
    requires Det(l1, l2) == 0.0 && Coincident(l1, l2)
    requires OnLine(l2, p)
    ensures OnLine(l1, p)
  {
    var v1 := l1.a * p.lng + l1.b * p.lat + l1.c;
    if l1.a != 0.0 {
      // a1 * (a2 x + b2 y + c2) == a2 * (a1 x + b1 y + c1)
      calc {
        l2.a * v1;
        l1.a * (l2.a * p.lng + l2.b * p.lat + l2.c) - (l1.a * l2.b - l2.a * l1.b) * p.lat - (l1.a * l2.c - l2.a * l1.c);
        0.0;
      }
      assert l2.a != 0.0;
    } else {
      assert l1.b != 0.0;
      calc {
        l2.b * v1;
        l1.b * (l2.a * p.lng + l2.b * p.lat + l2.c) + (l1.a * l2.b - l2.a * l1.b) * p.lng - (l1.b * l2.c - l2.b * l1.c);
        0.0;
      }
      assert l2.b != 0.0;
    }
  }

  /**
   * The completed test is symmetric in the move and the edge, as segment
   * overlap is, when both are proper segments or both are single points.
   */
  lemma {:induction false} EdgeCrossedSymmetric(start: Point, end: Point, p1: Point, p2: Point, offset: real)
    requires (start == end) == (p1 == p2)
    ensures EdgeCrossed(start, end, p1, p2, offset) == EdgeCrossed(p1, p2, start, end, offset)
  {
    var l1 := LineThrough(start, end);
    var l2 := LineThrough(p1, p2);
    assert Det(l2, l1) == -Det(l1, l2);
    if Det(l1, l2) != 0.0 {
      var x := Intersection(l1, l2);
      IntersectionUnique(l2, l1, x);
    } else if start != end {
      ParallelCrossingIsEndpointOnSegment(start, end, p1, p2, offset);
      ParallelCrossingIsEndpointOnSegment(p1, p2, start, end, offset);
    }
  }

  /** Parallel lines through a common point satisfy both cross-checks. */
  lemma CommonPointCoincident(l1: Line, l2: Line, p: Point)
    requires Det(l1, l2) == 0.0 && OnLine(l1, p) && OnLine(l2, p)
    ensures Coincident(l1, l2)
  {
    assert l1.c == -(l1.a * p.lng + l1.b * p.lat);
    assert l2.c == -(l2.a * p.lng + l2.b * p.lat);
    calc {
      l2.b * l1.c - l1.b * l2.c;
      -(l2.b * l1.a * p.lng) - l2.b * l1.b * p.lat + l1.b * l2.a * p.lng + l1.b * l2.b * p.lat;
      -(Det(l1, l2) * p.lng);
      0.0;
    }
    calc {
      l2.a * l1.c - l1.a * l2.c;
      -(l2.a * l1.a * p.lng) - l2.a * l1.b * p.lat + l1.a * l2.a * p.lng + l1.a * l2.b * p.lat;
      Det(l1, l2) * p.lat;
      0.0;
    }
  }

  /**
   * For a proper move and a proper edge on parallel lines, the test as
   * written reports a crossing exactly when an edge endpoint lies on the
   * move's line within the move's box; the completed test also when a move
   * endpoint lies on the edge's line within the edge's box.
   */
  lemma ParallelCrossingIsEndpointOnSegment(start: Point, end: Point, p1: Point, p2: Point, offset: real)
    requires start != end && p1 != p2
    requires Det(LineThrough(start, end), LineThrough(p1, p2)) == 0.0
    ensures EdgeCrossedAsWritten(start, end, p1, p2, offset) <==>
              || (OnLine(LineThrough(start, end), p1) && InBox(p1, start, end, offset))
              || (OnLine(LineThrough(start, end), p2) && InBox(p2, start, end, offset))
    ensures EdgeCrossed(start, end, p1, p2, offset) <==>
              || (OnLine(LineThrough(start, end), p1) && InBox(p1, start, end, offset))
              || (OnLine(LineThrough(start, end), p2) && InBox(p2, start, end, offset))
              || (OnLine(LineThrough(p1, p2), start) && InBox(start, p1, p2, offset))
              || (OnLine(LineThrough(p1, p2), end) && InBox(end, p1, p2, offset))
  {
    var l1 := LineThrough(start, end);
    var l2 := LineThrough(p1, p2);
    LineThroughEndpoints(start, end);
    LineThroughEndpoints(p1, p2);
    if Coincident(l1, l2) {
      ProportionalLines(l1, l2, p1);
      ProportionalLines(l1, l2, p2);
    } else {
      if OnLine(l1, p1) {
        CommonPointCoincident(l1, l2, p1);
      }
      if OnLine(l1, p2) {
        CommonPointCoincident(l1, l2, p2);
      }
      if OnLine(l2, start) {
        CommonPointCoincident(l1, l2, start);
      }
      if OnLine(l2, end) {
        CommonPointCoincident(l1, l2, end);
      }
    }
  }

  /** A move between two points of an edge's line is parallel to and coincident with the edge. */
  lemma AlongEdgeIsCoincident(start: Point, end: Point, p1: Point, p2: Point, u: real, v: real)
    requires start == Along(p1, p2, u) && end == Along(p1, p2, v)
    ensures Det(LineThrough(start, end), LineThrough(p1, p2)) == 0.0
    ensures Coincident(LineThrough(start, end), LineThrough(p1, p2))
  {
    var l1 := LineThrough(start, end);
    var l2 := LineThrough(p1, p2);
    var k := v - u;
    assert l1.a == k * l2.a;
    assert l1.b == k * l2.b;
    AlongOnLine(p1, p2, u);
    assert l1.c == k * l2.c;
  }

  /**
   * A move lying along an edge, between the edge's endpoints, crosses it:
   * the case the completed test adds.
   */
  lemma {:induction false} MoveAlongEdgeCrosses(start: Point, end: Point, p1: Point, p2: Point, u: real, v: real, offset: real)
    requires 0.0 <= u <= 1.0 && 0.0 <= v <= 1.0 && 0.0 <= offset
    requires start == Along(p1, p2, u) && end == Along(p1, p2, v)
    ensures EdgeCrossed(start, end, p1, p2, offset)
  {
    AlongEdgeIsCoincident(start, end, p1, p2, u, v);
    AlongOnLine(p1, p2, u);
    AlongInBox(p1, p2, u, offset);
  }

  lemma AlongOnLine(p: Point, q: Point, t: real)
    ensures OnLine(LineThrough(p, q), Along(p, q, t))
  {
    var l := LineThrough(p, q);
    var x := Along(p, q, t);
    calc {
      l.a * x.lng + l.b * x.lat + l.c;
      (p.lat - q.lat) * (p.lng + t * (q.lng - p.lng)) + (q.lng - p.lng) * (p.lat + t * (q.lat - p.lat)) - p.lng * (p.lat - q.lat) - p.lat * (q.lng - p.lng);
      0.0;
    }
  }

  /**
   * The test as written misses that case whenever neither edge endpoint lies
   * in the move's box, i.e. the move runs strictly inside the edge.
   */
  lemma AsWrittenMissesInteriorMove(start: Point, end: Point, p1: Point, p2: Point, u: real, v: real, offset: real)
    requires 0.0 <= u <= 1.0 && 0.0 <= v <= 1.0 && 0.0 <= offset
    requires start == Along(p1, p2, u) && end == Along(p1, p2, v)
    requires !InBox(p1, start, end, offset) && !InBox(p2, start, end, offset)
    ensures !EdgeCrossedAsWritten(start, end, p1, p2, offset)
    ensures EdgeCrossed(start, end, p1, p2, offset)
  {
    MoveAlongEdgeCrosses(start, end, p1, p2, u, v, offset);
    AlongEdgeIsCoincident(start, end, p1, p2, u, v);
  }

  /**
   * A concrete instance, up to translation: the edge runs three units east
   * from p1 and the move covers its middle third.  The test as written says
   * "not crossed", for the edge and for the two-point ring it forms, while
   * with the roles of move and edge swapped it says "crossed".
   */
  lemma AsWrittenMissesMoveAlongEdge(p1: Point, p2: Point)
    requires p2 == Point(p1.lng + 3.0, p1.lat)
    ensures Along(p1, p2, 1.0 / 3.0) == Point(p1.lng + 1.0, p1.lat)
    ensures Along(p1, p2, 2.0 / 3.0) == Point(p1.lng + 2.0, p1.lat)
    ensures !EdgeCrossedAsWritten(Along(p1, p2, 1.0 / 3.0), Along(p1, p2, 2.0 / 3.0), p1, p2, FloatOffset)
    ensures EdgeCrossedAsWritten(p1, p2, Along(p1, p2, 1.0 / 3.0), Along(p1, p2, 2.0 / 3.0), FloatOffset)
    ensures EdgeCrossed(Along(p1, p2, 1.0 / 3.0), Along(p1, p2, 2.0 / 3.0), p1, p2, FloatOffset)
    ensures !Crosses(AsWritten, [p1, p2], Along(p1, p2, 1.0 / 3.0), Along(p1, p2, 2.0 / 3.0), FloatOffset)
    ensures Crosses(Completed, [p1, p2], Along(p1, p2, 1.0 / 3.0), Along(p1, p2, 2.0 / 3.0), FloatOffset)
  {
    var start, end := Along(p1, p2, 1.0 / 3.0), Along(p1, p2, 2.0 / 3.0);
    assert start == Point(p1.lng + 1.0, p1.lat);
    assert end == Point(p1.lng + 2.0, p1.lat);
    AsWrittenMissesInteriorMove(start, end, p1, p2, 1.0 / 3.0, 2.0 / 3.0, FloatOffset);
    AlongEdgeIsCoincident(start, end, p1, p2, 1.0 / 3.0, 2.0 / 3.0);
    ParallelCrossingIsEndpointOnSegment(p1, p2, start, end, FloatOffset);
    LineThroughEndpoints(start, end);
    assert InBox(start, p1, p2, FloatOffset);
    var ring := [p1, p2];
    assert ring[0] == p1 && ring[1] == p2;
    assert EdgeCrossedBy(Completed, start, end, ring[0], ring[1], FloatOffset);
    assert !EdgeCrossedBy(AsWritten, start, end, ring[0], ring[1], FloatOffset);
  }

  /**
   * At tolerance 0 a zero-length move crosses an edge only from a point of
   * the edge's line, however it lies in the edge's box.
   */
  lemma PointMoveCrossesOnlyOnEdgeLine(x: Point, p1: Point, p2: Point)
    ensures EdgeCrossed(x, x, p1, p2, 0.0) ==> OnLine(LineThrough(p1, p2), x)
  {
    LineThroughEndpoints(p1, p2);
    if InBox(p1, x, x, 0.0) {
      assert p1 == x;
    } else if InBox(p2, x, x, 0.0) {
      assert p2 == x;
    }
  }

  /** Wherever the test as written reports a crossing, the completed one does too. */
  lemma AsWrittenImpliesCompleted(start: Point, end: Point, p1: Point, p2: Point, offset: real)
    ensures EdgeCrossedAsWritten(start, end, p1, p2, offset) ==> EdgeCrossed(start, end, p1, p2, offset)
  {
  }

  /** Ring-level form: every zone the code reports as crossed, the corrected scan reports too. */
  lemma CrossesAsWrittenImpliesCompleted(ring: seq<Point>, start: Point, end: Point, offset: real)
    ensures Crosses(AsWritten, ring, start, end, offset) ==> Crosses(Completed, ring, start, end, offset)
  {
    if Crosses(AsWritten, ring, start, end, offset) {
      var i :| 0 <= i < |ring| - 1 && EdgeCrossedBy(AsWritten, start, end, ring[i], ring[i + 1], offset);
      AsWrittenImpliesCompleted(start, end, ring[i], ring[i + 1], offset);
      assert EdgeCrossedBy(Completed, start, end, ring[i], ring[i + 1], offset);
    }
  }
}
