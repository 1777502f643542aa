/**
 * Path.java: a search node linked to its parent.  A root node sits at the
 * start position; each extension moves a fixed distance along an angle,
 * adds the distance to the cost and measures the remaining distance to the
 * goal as its heuristic.
 */
module Paths {
  import opened Planar

  datatype Path =
    | Root(position: Point, goal: Point, cost: real, heuristic: real)
    | Extension(parent: Path, moveAngle: int, position: Point, goal: Point, cost: real, heuristic: real)

  /** Number of extensions between the root and this node. */
  function Depth(p: Path): nat
  {
    match p
    case Root(_, _, _, _) => 0
    case Extension(parent, _, _, _, _, _) => Depth(parent) + 1
  }

  /** The public constructor: a root at `position` with cost 0. */
  function NewPath(position: Point, goal: Point, distance: DistanceFn): (r: Path)
    ensures r.position == position && r.goal == goal
    ensures r.cost == 0.0 && r.heuristic == distance(position, goal)
    ensures AllPositions(r) == [] && AllMoveAngles(r) == [] && Depth(r) == 0
  {
    Root(position, goal, 0.0, distance(position, goal))
  }

  /** The private constructor reached through `extend(angle, distance)`. */
  function Extend(p: Path, angle: int, moveDistance: real, step: StepFn, distance: DistanceFn): (r: Path)
    ensures r.position == step(p.position, angle, moveDistance)
    ensures r.goal == p.goal
    ensures r.cost == p.cost + moveDistance
    ensures r.heuristic == distance(r.position, p.goal)
    ensures AllPositions(r) == AllPositions(p) + [r.position]
    ensures AllMoveAngles(r) == AllMoveAngles(p) + [angle]
    ensures Depth(r) == Depth(p) + 1
  {
    var end := step(p.position, angle, moveDistance);
    Extension(p, angle, end, p.goal, p.cost + moveDistance, distance(end, p.goal))
  }

  /** Every position after the root's, in order; the root's own position is not listed. */
  function AllPositions(p: Path): (r: seq<Point>)
    ensures |r| == Depth(p)
    ensures p.Extension? ==> r[|r| - 1] == p.position
  {
    match p
    case Root(_, _, _, _) => []
    case Extension(parent, _, position, _, _, _) => AllPositions(parent) + [position]
  }

  /** The angle of every move, in order. */
  function AllMoveAngles(p: Path): (r: seq<int>)
    ensures |r| == Depth(p)
  {
    match p
    case Root(_, _, _, _) => []
    case Extension(parent, angle, _, _, _, _) => AllMoveAngles(parent) + [angle]
  }

  function EndPosition(p: Path): (r: Point)
    ensures p.Extension? ==> r == AllPositions(p)[|AllPositions(p)| - 1]
    ensures p.Root? ==> AllPositions(p) == []
  {
    p.position
  }

  /** f = cost + heuristic, the value compareTo orders by. */
  function Estimate(p: Path): real
  {
    p.cost + p.heuristic
  }

  /** compareTo: the sign of the difference of the two estimates. */
  function CompareTo(p: Path, q: Path): (c: int)
    ensures c == -1 || c == 0 || c == 1
    ensures c < 0 <==> Estimate(p) < Estimate(q)
    ensures c == 0 <==> Estimate(p) == Estimate(q)
    ensures c > 0 <==> Estimate(p) > Estimate(q)
  {
    if p.cost + p.heuristic - (q.cost + q.heuristic) < 0.0 then -1
    else if p.cost + p.heuristic - (q.cost + q.heuristic) > 0.0 then 1
    else 0
  }

  lemma CompareToAntisymmetric(p: Path, q: Path)
    ensures CompareTo(p, q) == -CompareTo(q, p)
  {
  }

  lemma CompareToTransitive(p: Path, q: Path, r: Path)
    requires CompareTo(p, q) <= 0 && CompareTo(q, r) <= 0
    ensures CompareTo(p, r) <= 0
    ensures CompareTo(p, q) < 0 || CompareTo(q, r) < 0 ==> CompareTo(p, r) < 0
  {
  }

  /**
   * The invariant every node built through the constructors keeps: the goal
   * is shared along the chain, the heuristic is the distance to it, the
   * cost is the parent's plus one move of `moveDistance`, and the position
   * is one step from the parent's.
   */
  predicate Consistent(p: Path, moveDistance: real, step: StepFn, distance: DistanceFn)
  {
    match p
    case Root(position, goal, cost, heuristic) =>
      cost == 0.0 && heuristic == distance(position, goal)
    case Extension(parent, angle, position, goal, cost, heuristic) =>
      && Consistent(parent, moveDistance, step, distance)
      && goal == parent.goal
      && position == step(parent.position, angle, moveDistance)
      && cost == parent.cost + moveDistance
      && heuristic == distance(position, goal)
  }

  /** Extending a sequence of angles one after the other. */
  function ExtendAll(p: Path, angles: seq<int>, moveDistance: real, step: StepFn, distance: DistanceFn): Path
    decreases |angles|
  {
    if |angles| == 0 then p
    else ExtendAll(Extend(p, angles[0], moveDistance, step, distance), angles[1..], moveDistance, step, distance)
  }

  /** k extensions keep the invariant and the goal. */
  lemma {:induction false} ExtendAllConsistent(p: Path, angles: seq<int>, moveDistance: real, step: StepFn, distance: DistanceFn)
    requires Consistent(p, moveDistance, step, distance)
    ensures Consistent(ExtendAll(p, angles, moveDistance, step, distance), moveDistance, step, distance)
    ensures ExtendAll(p, angles, moveDistance, step, distance).goal == p.goal
    decreases |angles|
  {
    if |angles| > 0 {
      ExtendAllConsistent(Extend(p, angles[0], moveDistance, step, distance), angles[1..], moveDistance, step, distance);
    }
  }

  /** k extensions append exactly the k angles, and the earlier positions stay a prefix. */
  lemma {:induction false} ExtendAllLists(p: Path, angles: seq<int>, moveDistance: real, step: StepFn, distance: DistanceFn)
    ensures AllMoveAngles(ExtendAll(p, angles, moveDistance, step, distance)) == AllMoveAngles(p) + angles
    ensures |AllPositions(ExtendAll(p, angles, moveDistance, step, distance))| == |AllPositions(p)| + |angles|
    ensures AllPositions(p) <= AllPositions(ExtendAll(p, angles, moveDistance, step, distance))
    decreases |angles|
  {
    if |angles| > 0 {
      var q := Extend(p, angles[0], moveDistance, step, distance);
      ExtendAllLists(q, angles[1..], moveDistance, step, distance);
      assert angles == [angles[0]] + angles[1..];
      assert AllMoveAngles(q) + angles[1..] == AllMoveAngles(p) + angles;
      assert AllPositions(p) <= AllPositions(q);
    }
  }

  /** k extensions by the same distance add exactly k * moveDistance to the cost. */
  lemma {:induction false} ExtendAllCost(p: Path, angles: seq<int>, moveDistance: real, step: StepFn, distance: DistanceFn)
    ensures ExtendAll(p, angles, moveDistance, step, distance).cost == p.cost + |angles| as real * moveDistance
    decreases |angles|
  {
    if |angles| > 0 {
      var q := Extend(p, angles[0], moveDistance, step, distance);
      ExtendAllCost(q, angles[1..], moveDistance, step, distance);
      assert (|angles| - 1) as real * moveDistance + moveDistance == |angles| as real * moveDistance;
    }
  }

  /** From a fresh root: k moves of length d cost exactly k * d. */
  lemma RootExtendAllCost(start: Point, goal: Point, angles: seq<int>, moveDistance: real, step: StepFn, distance: DistanceFn)
    ensures var r := ExtendAll(NewPath(start, goal, distance), angles, moveDistance, step, distance);
            && r.cost == |angles| as real * moveDistance
            && AllMoveAngles(r) == angles
            && |AllPositions(r)| == |angles|
            && r.goal == goal
  {
    var root := NewPath(start, goal, distance);
    ExtendAllConsistent(root, angles, moveDistance, step, distance);
    ExtendAllLists(root, angles, moveDistance, step, distance);
    ExtendAllCost(root, angles, moveDistance, step, distance);
  }
}
