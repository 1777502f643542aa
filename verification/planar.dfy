/**
 * Planar geometry shared by the route planner: positions as pairs of reals
 * (longitude is the x axis, latitude the y axis), straight lines in the form
 * a*x + b*y + c == 0, and axis-aligned bounding boxes with a tolerance.
 */
module Planar {

  datatype Point = Point(lng: real, lat: real)

  /** Moving `distance` from a position along an angle in degrees (cos/sin in the source). */
  type StepFn = (Point, int, real) -> Point

  /** Straight-line distance between two positions (a square root in the source). */
  type DistanceFn = (Point, Point) -> real

  /** Math.min / Math.max on coordinates. */
  function Min(x: real, y: real): (r: real)
    ensures r <= x && r <= y && (r == x || r == y)
  {
    if x <= y then x else y
  }

  function Max(x: real, y: real): (r: real)
    ensures r >= x && r >= y && (r == x || r == y)
  {
    if x >= y then x else y
  }

  /** The line a*lng + b*lat + c == 0. */
  datatype Line = Line(a: real, b: real, c: real)

  predicate OnLine(l: Line, p: Point)
  {
    l.a * p.lng + l.b * p.lat + l.c == 0.0
  }

  /** Determinant of the two lines' normal vectors; zero exactly when they are parallel. */
  function Det(l1: Line, l2: Line): real
  {
    l1.a * l2.b - l2.a * l1.b
  }

  /** Cramer's rule for the common point of two non-parallel lines. */
  function Intersection(l1: Line, l2: Line): (x: Point)
    requires Det(l1, l2) != 0.0
    ensures OnLine(l1, x) && OnLine(l2, x)
  {
    IntersectionOnBothLines(l1, l2, Point((l1.b * l2.c - l2.b * l1.c) / Det(l1, l2), (l2.a * l1.c - l1.a * l2.c) / Det(l1, l2)));
    Point((l1.b * l2.c - l2.b * l1.c) / Det(l1, l2), (l2.a * l1.c - l1.a * l2.c) / Det(l1, l2))
  }

  lemma IntersectionOnBothLines(l1: Line, l2: Line, x: Point)
    requires Det(l1, l2) != 0.0
    requires x.lng * Det(l1, l2) == l1.b * l2.c - l2.b * l1.c
    requires x.lat * Det(l1, l2) == l2.a * l1.c - l1.a * l2.c
    ensures OnLine(l1, x) && OnLine(l2, x)
  {
    var d := Det(l1, l2);
    calc {
      (l1.a * x.lng + l1.b * x.lat + l1.c) * d;
      l1.a * (x.lng * d) + l1.b * (x.lat * d) + l1.c * d;
      l1.a * (l1.b * l2.c - l2.b * l1.c) + l1.b * (l2.a * l1.c - l1.a * l2.c) + l1.c * (l1.a * l2.b - l2.a * l1.b);
      0.0;
    }
    calc {
      (l2.a * x.lng + l2.b * x.lat + l2.c) * d;
      l2.a * (x.lng * d) + l2.b * (x.lat * d) + l2.c * d;
      l2.a * (l1.b * l2.c - l2.b * l1.c) + l2.b * (l2.a * l1.c - l1.a * l2.c) + l2.c * (l1.a * l2.b - l2.a * l1.b);
      0.0;
    }
  }

  /** Two non-parallel lines meet in exactly one point: the one Cramer's rule gives. */
  lemma {:induction false} IntersectionUnique(l1: Line, l2: Line, x: Point)
    requires Det(l1, l2) != 0.0
    requires OnLine(l1, x) && OnLine(l2, x)
    ensures x == Intersection(l1, l2)
  {
    var d := Det(l1, l2);
    calc {
      x.lng * d;
      l2.b * (l1.a * x.lng + l1.b * x.lat + l1.c) - l1.b * (l2.a * x.lng + l2.b * x.lat + l2.c) + (l1.b * l2.c - l2.b * l1.c);
      l1.b * l2.c - l2.b * l1.c;
    }
    calc {
      x.lat * d;
      l1.a * (l2.a * x.lng + l2.b * x.lat + l2.c) - l2.a * (l1.a * x.lng + l1.b * x.lat + l1.c) + (l2.a * l1.c - l1.a * l2.c);
      l2.a * l1.c - l1.a * l2.c;
    }
    var y := Intersection(l1, l2);
    assert x.lng == (l1.b * l2.c - l2.b * l1.c) / d;
    assert x.lat == (l2.a * l1.c - l1.a * l2.c) / d;
  }

  /**
   * `x` lies in the bounding box of `p` and `q`, each bound widened by
   * `offset` (the floating-point tolerance of the source).
   */
  predicate InBox(x: Point, p: Point, q: Point, offset: real)
  {
    && x.lng + offset >= Min(p.lng, q.lng) && x.lng - offset <= Max(p.lng, q.lng)
    && x.lat + offset >= Min(p.lat, q.lat) && x.lat - offset <= Max(p.lat, q.lat)
  }

  /** Widening the tolerance never shrinks a box. */
  lemma InBoxMonotone(x: Point, p: Point, q: Point, offset: real, wider: real)
    requires InBox(x, p, q, offset) && offset <= wider
    ensures InBox(x, p, q, wider)
  {
  }

  /** The point at parameter t of the segment from p to q. */
  function Along(p: Point, q: Point, t: real): Point
  {
    Point(p.lng + t * (q.lng - p.lng), p.lat + t * (q.lat - p.lat))
  }

  /** Every point of a closed segment lies in the segment's box, with no tolerance needed. */
  lemma AlongInBox(p: Point, q: Point, t: real, offset: real)
    requires 0.0 <= t <= 1.0 && 0.0 <= offset
    ensures InBox(Along(p, q, t), p, q, offset)
  {
    var x := Along(p, q, t);
    ConvexBetween(p.lng, q.lng, t);
    ConvexBetween(p.lat, q.lat, t);
    assert Min(p.lng, q.lng) <= x.lng <= Max(p.lng, q.lng);
    assert Min(p.lat, q.lat) <= x.lat <= Max(p.lat, q.lat);
  }

  lemma ConvexBetween(u: real, v: real, t: real)
    requires 0.0 <= t <= 1.0
    ensures Min(u, v) <= u + t * (v - u) <= Max(u, v)
  {
    if u <= v {
      var d := v - u;
      ScaleBetween(t, d);
      assert t * d <= d;
      assert u + t * d <= v;
      assert Max(u, v) == v;
    } else {
      ScaleBetween(t, u - v);
      assert t * (v - u) == -(t * (u - v));
    }
  }

  lemma ScaleBetween(t: real, d: real)
    requires 0.0 <= t <= 1.0 && 0.0 <= d
    ensures 0.0 <= t * d <= d
  {
    assert d - t * d == (1.0 - t) * d;
  }
}
