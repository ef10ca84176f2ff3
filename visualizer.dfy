/** Pose synthesis of the planner's visualiser: a two-segment FABRIK solver and
    the full-body pose built from it (backend/beta_generator/src/visualizer.py). */
module Visualizer {
  import opened Types
  import opened Climber

  /** Distances at or below this are not normalised, to avoid dividing by zero. */
  const Eps: real := 0.000001

  /** The iteration count `calculate_full_body_pose` leaves at its default. */
  const DefaultIterations: int := 10

  /** The point a fraction `t` of the way from `a` to `b`. */
  function Lerp(a: Point, b: Point, t: real): Point
  {
    Point(a.x + t * (b.x - a.x), a.y + t * (b.y - a.y))
  }

  /** One reaching step: `p` is moved along the ray from `anchor` through `p` to
      distance `len` from `anchor`, unless it lies within Eps of `anchor`. */
  function Reach(hypot: (real, real) -> real, p: Point, anchor: Point, len: real): (r: Point)
    ensures Dist(hypot, p, anchor) <= Eps ==> r == p
  {
    var d := Dist(hypot, p, anchor);
    if d > Eps then Point(anchor.x + (p.x - anchor.x) / d * len, anchor.y + (p.y - anchor.y) / d * len)
    else p
  }

  /** The initial guess for the mid joint: straight below the base. */
  function Seed(base: Point, seg1: real): Point
  {
    Point(base.x, base.y + seg1)
  }

  /** The mid joint after `n` forward-and-backward passes from the seed: the
      forward pass pins the end at the target and reaches the mid joint towards
      it, the backward pass reaches it back towards the fixed base. */
  function FabrikMid(hypot: (real, real) -> real, base: Point, target: Point, seg1: real, seg2: real, n: nat): Point
  {
    if n == 0 then Seed(base, seg1)
    else Reach(hypot, Reach(hypot, FabrikMid(hypot, base, target, seg1, seg2, n - 1), target, seg2), base, seg1)
  }

  /** Division by the base-target distance is safe: it happens only when that
      distance exceeds the total length. */
  ghost predicate SolvableChain(hypot: (real, real) -> real, base: Point, target: Point, seg1: real, seg2: real)
  {
    0.0 <= seg1 + seg2 || Dist(hypot, target, base) != 0.0
  }

  /** The (mid joint, end effector) pair `solve_2segment_IK` returns. */
  function SolveIK(hypot: (real, real) -> real, base: Point, target: Point, seg1: real, seg2: real, iterations: int): (r: (Point, Point))
    requires SolvableChain(hypot, base, target, seg1, seg2)
    ensures Dist(hypot, target, base) <= seg1 + seg2 ==> r.1 == target
    ensures Dist(hypot, target, base) <= seg1 + seg2 && iterations <= 0 ==> r.0 == Seed(base, seg1)
  {
    var total := seg1 + seg2;
    var dist := Dist(hypot, target, base);
    if dist > total then Stretched(base, target, dist, seg1, seg2)
    else
      (FabrikMid(hypot, base, target, seg1, seg2, if iterations < 0 then 0 else iterations), target)
  }

  /** The chain pointed straight from `base` towards `target`, which is `dist`
      away: the mid joint at `seg1` and the end at `seg1 + seg2` along the
      unit direction. */
  function Stretched(base: Point, target: Point, dist: real, seg1: real, seg2: real): (Point, Point)
    requires dist != 0.0
  {
    var ux, uy := (target.x - base.x) / dist, (target.y - base.y) / dist;
    (Point(base.x + ux * seg1, base.y + uy * seg1), Point(base.x + ux * (seg1 + seg2), base.y + uy * (seg1 + seg2)))
  }

  /** The solver as written: the stretch branch, or the fixed-count loop of
      forward and backward reaching passes. */
  method Solve2SegmentIK(hypot: (real, real) -> real, base: Point, target: Point, seg1: real, seg2: real,
                         iterations: int := DefaultIterations)
    returns (mid: Point, end: Point)
    requires SolvableChain(hypot, base, target, seg1, seg2)
    ensures mid == SolveIK(hypot, base, target, seg1, seg2, iterations).0
    ensures end == SolveIK(hypot, base, target, seg1, seg2, iterations).1
  {
    var total := seg1 + seg2;
    var distToTarget := hypot(target.x - base.x, target.y - base.y);
    assert distToTarget == Dist(hypot, target, base);
    if distToTarget > total {
      var directionX := (target.x - base.x) / distToTarget;
      var directionY := (target.y - base.y) / distToTarget;
      mid := Point(base.x + directionX * seg1, base.y + directionY * seg1);
      end := Point(base.x + directionX * total, base.y + directionY * total);
      StretchValue(base, target, distToTarget, seg1, seg2, directionX, directionY);
      return;
    }
    var passes := if iterations < 0 then 0 else iterations;
    mid := FabrikLoop(hypot, base, target, seg1, seg2, passes);
    end := target;
  }

  /** The reaching loop, `for _ in range(iterations)`, from the seed below
      the base. */
  method FabrikLoop(hypot: (real, real) -> real, base: Point, target: Point, seg1: real, seg2: real, passes: nat)
    returns (mid: Point)
    ensures mid == FabrikMid(hypot, base, target, seg1, seg2, passes)
  {
    var midX, midY := base.x, base.y + seg1;
    for i := 0 to passes
      invariant Point(midX, midY) == FabrikMid(hypot, base, target, seg1, seg2, i)
    {
      var endX, endY := target.x, target.y;
      midX, midY := ReachStep(hypot, midX, midY, Point(endX, endY), seg2);
      midX, midY := ReachStep(hypot, midX, midY, base, seg1);
    }
    mid := Point(midX, midY);
  }

  /** The stretch branch's coordinates are those of `Stretched`. */
  lemma StretchValue(base: Point, target: Point, dist: real, seg1: real, seg2: real, dx: real, dy: real)
    requires dist != 0.0
    requires dx == (target.x - base.x) / dist && dy == (target.y - base.y) / dist
    ensures Stretched(base, target, dist, seg1, seg2).0 == Point(base.x + dx * seg1, base.y + dy * seg1)
    ensures Stretched(base, target, dist, seg1, seg2).1 == Point(base.x + dx * (seg1 + seg2), base.y + dy * (seg1 + seg2))
  {
  }

  /** One reaching pass of the loop, on the coordinates of the mid joint. */
  method ReachStep(hypot: (real, real) -> real, x: real, y: real, anchor: Point, len: real) returns (x': real, y': real)
    ensures Point(x', y') == Reach(hypot, Point(x, y), anchor, len)
  {
    var d := hypot(x - anchor.x, y - anchor.y);
    assert d == Dist(hypot, Point(x, y), anchor);
    x', y' := x, y;
    if d > Eps {
      x' := anchor.x + (x - anchor.x) / d * len;
      y' := anchor.y + (y - anchor.y) / d * len;
    }
  }

  // ---------------------------------------------------------------------------
  // Geometry of the solver

  lemma ScaledSquares(ux: real, uy: real, k: real)
    ensures (k * ux) * (k * ux) + (k * uy) * (k * uy) == (k * k) * (ux * ux + uy * uy)
  {
  }

  /** A vector of squared length d², scaled by k with k·d == len, has squared
      length len². */
  lemma ScaledLength(a: real, b: real, ux: real, uy: real, k: real, d: real, len: real)
    requires a == k * ux && b == k * uy && k * d == len && d * d == ux * ux + uy * uy
    ensures a * a + b * b == len * len
  {
    ScaledSquares(ux, uy, k);
    SquareOfProduct(k, d);
    assert a * a + b * b == (k * ux) * (k * ux) + (k * uy) * (k * uy);
    assert (k * k) * (ux * ux + uy * uy) == (k * k) * (d * d);
  }

  lemma SquareOfProduct(a: real, b: real)
    ensures (a * a) * (b * b) == (a * b) * (a * b)
  {
  }

  /** The zero vector has `hypot` zero. */
  lemma HypotOfZero(hypot: (real, real) -> real)
    requires IsHypot(hypot)
    ensures hypot(0.0, 0.0) == 0.0
  {
    var h := hypot(0.0, 0.0);
    assert h >= 0.0 && h * h == 0.0 * 0.0;
    SquaresOrdered(h, 0.0);
  }

  /** Moving a point towards or away from `anchor` by the factor len / d, where
      d is its distance from `anchor`, leaves it at squared distance len². */
  lemma RescaledDistance(p: Point, anchor: Point, d: real, len: real)
    requires d > 0.0 && d * d == SqDist(p, anchor)
    ensures SqDist(Point(anchor.x + (p.x - anchor.x) / d * len, anchor.y + (p.y - anchor.y) / d * len), anchor)
            == len * len
  {
    var q := Point(anchor.x + (p.x - anchor.x) / d * len, anchor.y + (p.y - anchor.y) / d * len);
    var k := len / d;
    var a, b := q.x - anchor.x, q.y - anchor.y;
    assert k * d == len;
    assert a == k * (p.x - anchor.x);
    assert b == k * (p.y - anchor.y);
    ScaledLength(a, b, p.x - anchor.x, p.y - anchor.y, k, d, len);
    assert SqDist(q, anchor) == a * a + b * b;
  }

  /** Scaling the offset by len / d is the interpolation with fraction len / d. */
  lemma RescaledIsLerp(p: Point, anchor: Point, d: real, len: real)
    requires d != 0.0
    ensures Point(anchor.x + (p.x - anchor.x) / d * len, anchor.y + (p.y - anchor.y) / d * len)
            == Lerp(anchor, p, len / d)
  {
    var t := len / d;
    ScaleCommutes(p.x - anchor.x, d, len);
    ScaleCommutes(p.y - anchor.y, d, len);
    assert Lerp(anchor, p, t) == Point(anchor.x + t * (p.x - anchor.x), anchor.y + t * (p.y - anchor.y));
    assert anchor.x + (p.x - anchor.x) / d * len == anchor.x + t * (p.x - anchor.x);
    assert anchor.y + (p.y - anchor.y) / d * len == anchor.y + t * (p.y - anchor.y);
  }

  /** x/d·len == len/d·x. */
  lemma ScaleCommutes(x: real, d: real, len: real)
    requires d != 0.0
    ensures x / d * len == len / d * x
  {
    var q, r := x / d, len / d;
    assert q * d == x && r * d == len;
    assert q * len == q * (r * d) == r * (q * d);
  }

  /** A reaching step that normalises puts the point at exactly `len` from the
      anchor, on the ray from the anchor through the old point. */
  lemma ReachPlacesAtLength(hypot: (real, real) -> real, p: Point, anchor: Point, len: real)
    requires IsHypot(hypot) && Dist(hypot, p, anchor) > Eps
    ensures SqDist(Reach(hypot, p, anchor, len), anchor) == len * len
    ensures len >= 0.0 ==> Dist(hypot, Reach(hypot, p, anchor, len), anchor) == len
    ensures Reach(hypot, p, anchor, len) == Lerp(anchor, p, len / Dist(hypot, p, anchor))
  {
    var d := Dist(hypot, p, anchor);
    DistSquared(hypot, p, anchor);
    var q := Reach(hypot, p, anchor, len);
    assert q == Point(anchor.x + (p.x - anchor.x) / d * len, anchor.y + (p.y - anchor.y) / d * len);
    RescaledDistance(p, anchor, d, len);
    RescaledIsLerp(p, anchor, d, len);
    if len >= 0.0 {
      DistSquared(hypot, q, anchor);
      RootUnique(Dist(hypot, q, anchor), len * len, len);
    }
  }

  /** In the reachable branch with at least one iteration, when the final
      backward pass normalises, the upper segment has exactly length seg1. */
  lemma LastBackwardPassLength(hypot: (real, real) -> real, base: Point, target: Point, seg1: real, seg2: real, iterations: int)
    requires IsHypot(hypot) && 0.0 <= seg1 && 0.0 <= seg2
    requires Dist(hypot, target, base) <= seg1 + seg2 && iterations >= 1
    requires Dist(hypot, Reach(hypot, FabrikMid(hypot, base, target, seg1, seg2, iterations - 1), target, seg2), base) > Eps
    ensures SqDist(SolveIK(hypot, base, target, seg1, seg2, iterations).0, base) == seg1 * seg1
    ensures Dist(hypot, SolveIK(hypot, base, target, seg1, seg2, iterations).0, base) == seg1
  {
    var forward := Reach(hypot, FabrikMid(hypot, base, target, seg1, seg2, iterations - 1), target, seg2);
    assert SolveIK(hypot, base, target, seg1, seg2, iterations).0 == Reach(hypot, forward, base, seg1);
    ReachPlacesAtLength(hypot, forward, base, seg1);
  }

  /** 0 <= a/d <= (a+b)/d < 1 when a, b are non-negative and a + b < d. */
  lemma StretchFractions(a: real, b: real, d: real)
    requires 0.0 <= a && 0.0 <= b && a + b < d
    ensures 0.0 <= a / d <= (a + b) / d < 1.0
  {
    assert (a + b) / d - a / d == b / d;
    assert d / d == 1.0;
    assert (d - (a + b)) / d == d / d - (a + b) / d;
    QuotientPositive(d - (a + b), d);
  }

  lemma QuotientPositive(p: real, d: real)
    requires p > 0.0 && d > 0.0
    ensures p / d > 0.0
  {
  }

  /** An interpolation with a fraction other than 1 reaches `b` only when `a`
      and `b` coincide. */
  lemma LerpShort(a: Point, b: Point, t: real)
    requires t != 1.0 && Lerp(a, b, t) == b
    ensures a == b
  {
    assert (1.0 - t) * (b.x - a.x) == 0.0;
    assert (1.0 - t) * (b.y - a.y) == 0.0;
    ProductZero(b.x - a.x, 1.0 - t);
    ProductZero(b.y - a.y, 1.0 - t);
  }

  /** An unreachable target: the chain points straight at it, the mid joint a
      fraction seg1/d and the end a fraction (seg1+seg2)/d < 1 of the way there. */
  lemma StretchTowardsTarget(hypot: (real, real) -> real, base: Point, target: Point, seg1: real, seg2: real, iterations: int)
    requires 0.0 <= seg1 && 0.0 <= seg2
    requires Dist(hypot, target, base) > seg1 + seg2
    ensures var d := Dist(hypot, target, base);
            var r := SolveIK(hypot, base, target, seg1, seg2, iterations);
            && r.0 == Lerp(base, target, seg1 / d)
            && r.1 == Lerp(base, target, (seg1 + seg2) / d)
            && 0.0 <= seg1 / d <= (seg1 + seg2) / d < 1.0
  {
    var d := Dist(hypot, target, base);
    var r := SolveIK(hypot, base, target, seg1, seg2, iterations);
    assert r.0 == Point(base.x + (target.x - base.x) / d * seg1, base.y + (target.y - base.y) / d * seg1);
    assert r.1 == Point(base.x + (target.x - base.x) / d * (seg1 + seg2), base.y + (target.y - base.y) / d * (seg1 + seg2));
    RescaledIsLerp(target, base, d, seg1);
    RescaledIsLerp(target, base, d, seg1 + seg2);
    StretchFractions(seg1, seg2, d);
  }

  /** An unreachable target is not reached: the end stops strictly short of it. */
  lemma StretchFallsShort(hypot: (real, real) -> real, base: Point, target: Point, seg1: real, seg2: real, iterations: int)
    requires IsHypot(hypot) && 0.0 <= seg1 && 0.0 <= seg2
    requires Dist(hypot, target, base) > seg1 + seg2
    ensures SolveIK(hypot, base, target, seg1, seg2, iterations).1 != target
  {
    var d := Dist(hypot, target, base);
    StretchTowardsTarget(hypot, base, target, seg1, seg2, iterations);
    HypotOfZero(hypot);
    if SolveIK(hypot, base, target, seg1, seg2, iterations).1 == target {
      LerpShort(base, target, (seg1 + seg2) / d);
      assert false;
    }
  }

  /** In the stretch branch both segments keep their lengths. */
  lemma StretchKeepsSegmentLengths(hypot: (real, real) -> real, base: Point, target: Point, seg1: real, seg2: real, iterations: int)
    requires IsHypot(hypot) && 0.0 <= seg1 && 0.0 <= seg2
    requires Dist(hypot, target, base) > seg1 + seg2
    ensures SqDist(SolveIK(hypot, base, target, seg1, seg2, iterations).0, base) == seg1 * seg1
    ensures SqDist(SolveIK(hypot, base, target, seg1, seg2, iterations).1,
                   SolveIK(hypot, base, target, seg1, seg2, iterations).0) == seg2 * seg2
  {
    var d := Dist(hypot, target, base);
    assert d > 0.0;
    DistSquared(hypot, target, base);
    var ux, uy := target.x - base.x, target.y - base.y;
    assert d * d == ux * ux + uy * uy;
    var r := SolveIK(hypot, base, target, seg1, seg2, iterations);
    assert r.0 == Stretched(base, target, d, seg1, seg2).0 && r.1 == Stretched(base, target, d, seg1, seg2).1;
    StretchValue(base, target, d, seg1, seg2, ux / d, uy / d);
    var p0 := Point(base.x + ux / d * seg1, base.y + uy / d * seg1);
    var p1 := Point(base.x + ux / d * (seg1 + seg2), base.y + uy / d * (seg1 + seg2));
    assert r.0 == p0 && r.1 == p1;
    RescaledDistance(target, base, d, seg1);
    assert SqDist(p0, base) == seg1 * seg1;
    SecondSegment(base, ux, uy, d, seg1, seg2);
    assert SqDist(p1, p0) == seg2 * seg2;
  }

  /** Along a direction (ux, uy) / d of unit length, the points at lengths
      `seg1` and `seg1 + seg2` from `o` are `seg2` apart. */
  lemma SecondSegment(o: Point, ux: real, uy: real, d: real, seg1: real, seg2: real)
    requires d > 0.0 && d * d == ux * ux + uy * uy
    ensures var dx, dy := ux / d, uy / d;
            SqDist(Point(o.x + dx * (seg1 + seg2), o.y + dy * (seg1 + seg2)), Point(o.x + dx * seg1, o.y + dy * seg1))
            == seg2 * seg2
  {
    var dx, dy := ux / d, uy / d;
    OffsetDifference(o.x, dx, seg1, seg2);
    OffsetDifference(o.y, dy, seg1, seg2);
    ScaleCommutes(ux, d, seg2);
    ScaleCommutes(uy, d, seg2);
    var k := seg2 / d;
    var a, b := dx * seg2, dy * seg2;
    assert k * d == seg2;
    ScaledLength(a, b, ux, uy, k, d, seg2);
  }

  /** The gap between the offsets at lengths `seg1 + seg2` and `seg1`. */
  lemma OffsetDifference(o: real, u: real, seg1: real, seg2: real)
    ensures (o + u * (seg1 + seg2)) - (o + u * seg1) == u * seg2
  {
  }

  /** Root (0, 0), two segments of 10, target (100, 0): the end stops at (20, 0). */
  lemma StretchScenario(hypot: (real, real) -> real)
    requires IsHypot(hypot)
    ensures SolveIK(hypot, Point(0.0, 0.0), Point(100.0, 0.0), 10.0, 10.0, DefaultIterations)
            == (Point(10.0, 0.0), Point(20.0, 0.0))
  {
    var h := hypot(100.0, 0.0);
    assert h >= 0.0 && h * h == 10000.0;
    RootUnique(h, 10000.0, 100.0);
  }

  // ---------------------------------------------------------------------------
  // Full-body pose

  /** The pixel position of the hold limb `l` is on. */
  function LimbPixel(state: ClimberState, coordsNorm: map<int, Point>, width: real, height: real, l: Limb): Point
    requires state.Get(l).Some? && state.Get(l).value in coordsNorm
  {
    var p := coordsNorm[state.Get(l).value];
    ToPixels(p.x, p.y, width, height)
  }

  /** The dictionary from placed limbs to the pixel of their hold, restricted
      to the limbs in `limbs`. */
  function LimbPixels(state: ClimberState, coordsNorm: map<int, Point>, width: real, height: real, limbs: seq<Limb>): map<Limb, Point>
    requires state.ResolvesIn(coordsNorm)
  {
    map l | l in limbs && state.Get(l).Some? :: LimbPixel(state, coordsNorm, width, height, l)
  }

  /** Visiting one more limb adds its entry when it is placed. */
  lemma PixelsStep(state: ClimberState, coordsNorm: map<int, Point>, width: real, height: real, limbs: seq<Limb>, l: Limb)
    requires state.ResolvesIn(coordsNorm)
    ensures LimbPixels(state, coordsNorm, width, height, limbs + [l])
            == if state.Get(l).Some?
               then LimbPixels(state, coordsNorm, width, height, limbs)[l := LimbPixel(state, coordsNorm, width, height, l)]
               else LimbPixels(state, coordsNorm, width, height, limbs)
    ensures Contacts(state, coordsNorm, width, height, limbs + [l])
            == Contacts(state, coordsNorm, width, height, limbs)
               + (if state.Get(l).Some? then [LimbPixel(state, coordsNorm, width, height, l)] else [])
  {
    assert (limbs + [l])[..|limbs|] == limbs;
    assert forall m :: m in limbs + [l] <==> m in limbs || m == l;
  }

  /** The contact points, one per placed limb, in the order of `limbs`. */
  function Contacts(state: ClimberState, coordsNorm: map<int, Point>, width: real, height: real, limbs: seq<Limb>): seq<Point>
    requires state.ResolvesIn(coordsNorm)
  {
    if limbs == [] then []
    else
      var l := limbs[|limbs| - 1];
      Contacts(state, coordsNorm, width, height, limbs[..|limbs| - 1])
        + (if state.Get(l).Some? then [LimbPixel(state, coordsNorm, width, height, l)] else [])
  }

  /** The torso core: the centroid of the contacts lifted by half the torso
      height, or the frame centre when there is no contact. */
  function CoreOf(contacts: seq<Point>, torsoHeight: real, width: real, height: real): Point
  {
    if contacts == [] then Point(width / 2.0, height / 2.0)
    else Point(SumX(contacts) / (|contacts| as real), SumY(contacts) / (|contacts| as real) - torsoHeight / 2.0)
  }

  /** The core and the four torso corners. */
  function Torso(core: Point, torsoWidth: real, torsoHeight: real): Joints
  {
    map[Core := core,
        ShoulderR := Point(core.x + torsoWidth / 2.0, core.y),
        ShoulderL := Point(core.x - torsoWidth / 2.0, core.y),
        HipR := Point(core.x + torsoWidth / 2.0, core.y + torsoHeight),
        HipL := Point(core.x - torsoWidth / 2.0, core.y + torsoHeight)]
  }

  /** Upper and lower segment lengths of a limb: upper arm and forearm for
      hands, thigh and shin for feet. */
  function Segments(dims: BodyDims, l: Limb): (real, real)
  {
    if l.IsHand() then (dims.upperArm, dims.forearm) else (dims.thigh, dims.shin)
  }

  /** No limb has a negative total length, so no solve divides by zero. */
  predicate ReachesNonNegative(dims: BodyDims)
  {
    0.0 <= dims.upperArm + dims.forearm && 0.0 <= dims.thigh + dims.shin
  }

  /** A limb step leaves every joint outside the limb as it was. */
  ghost predicate KeepsOtherJoints(r: Joints, joints: Joints, l: Limb)
  {
    forall j :: j in joints && j !in LimbJointNames(l) ==> j in r && r[j] == joints[j]
  }

  /** The keys a limb step adds: its two joints, when it is in `px`. */
  ghost predicate AddsLimbJoints(r: Joints, joints: Joints, l: Limb, px: map<Limb, Point>)
  {
    forall j :: j in r <==> j in joints || (l in px && (j == Middle(l) || j == Distal(l)))
  }

  /** `joints` with the IK-solved middle and distal joints of `l` added when
      `l` is placed. */
  function WithLimb(hypot: (real, real) -> real, joints: Joints, l: Limb, px: map<Limb, Point>, dims: BodyDims): (r: Joints)
    requires Proximal(l) in joints && ReachesNonNegative(dims)
    ensures AddsLimbJoints(r, joints, l, px)
    ensures l in px ==> && r[Middle(l)] == SolveIK(hypot, joints[Proximal(l)], px[l], Segments(dims, l).0, Segments(dims, l).1, DefaultIterations).0
                        && r[Distal(l)] == SolveIK(hypot, joints[Proximal(l)], px[l], Segments(dims, l).0, Segments(dims, l).1, DefaultIterations).1
    ensures KeepsOtherJoints(r, joints, l)
  {
    if l in px then
      var (seg1, seg2) := Segments(dims, l);
      var ik := SolveIK(hypot, joints[Proximal(l)], px[l], seg1, seg2, DefaultIterations);
      joints[Middle(l) := ik.0][Distal(l) := ik.1]
    else joints
  }

  /** Every limb of `limbs` has its shoulder or hip in `joints`. */
  ghost predicate HasProximals(joints: Joints, limbs: seq<Limb>)
  {
    forall m :: m in limbs ==> Proximal(m) in joints
  }

  /** `joints` with the limbs of `limbs` attached one after the other. */
  function AttachAll(hypot: (real, real) -> real, joints: Joints, limbs: seq<Limb>, px: map<Limb, Point>, dims: BodyDims): Joints
    requires HasProximals(joints, limbs) && ReachesNonNegative(dims)
    decreases |limbs|
  {
    if limbs == [] then joints
    else AttachAll(hypot, WithLimb(hypot, joints, limbs[0], px, dims), limbs[1..], px, dims)
  }

  /** The joint dictionary `calculate_full_body_pose` returns. */
  function FullBodyPose(hypot: (real, real) -> real, state: ClimberState, dims: BodyDims,
                        coordsNorm: map<int, Point>, width: real, height: real): Joints
    requires state.ResolvesIn(coordsNorm) && ReachesNonNegative(dims)
  {
    var px := LimbPixels(state, coordsNorm, width, height, AllLimbs);
    var core := CoreOf(Contacts(state, coordsNorm, width, height, AllLimbs), dims.torsoHeight, width, height);
    AttachAll(hypot, Torso(core, dims.torsoWidth, dims.torsoHeight), AllLimbs, px, dims)
  }

  /** The first loop of `calculate_full_body_pose`: the pixel position of each
      placed limb's hold, as a dictionary and as the list of its values. */
  method CollectContacts(state: ClimberState, holdCoordsNorm: map<int, Point>, imageWidth: real, imageHeight: real)
    returns (limbCoordsPx: map<Limb, Point>, contactPoints: seq<Point>)
    requires state.ResolvesIn(holdCoordsNorm)
    ensures limbCoordsPx == LimbPixels(state, holdCoordsNorm, imageWidth, imageHeight, AllLimbs)
    ensures contactPoints == Contacts(state, holdCoordsNorm, imageWidth, imageHeight, AllLimbs)
  {
    limbCoordsPx := map[];
    contactPoints := [];
    for i := 0 to |AllLimbs|
      invariant limbCoordsPx == LimbPixels(state, holdCoordsNorm, imageWidth, imageHeight, AllLimbs[..i])
      invariant contactPoints == Contacts(state, holdCoordsNorm, imageWidth, imageHeight, AllLimbs[..i])
    {
      var limb := AllLimbs[i];
      assert AllLimbs[..i + 1] == AllLimbs[..i] + [limb];
      PixelsStep(state, holdCoordsNorm, imageWidth, imageHeight, AllLimbs[..i], limb);
      var holdId := state.Get(limb);
      if holdId.Some? {
        var pNorm := holdCoordsNorm[holdId.value];
        limbCoordsPx := limbCoordsPx[limb := Point(pNorm.x * imageWidth, pNorm.y * imageHeight)];
        contactPoints := contactPoints + [Point(pNorm.x * imageWidth, pNorm.y * imageHeight)];
      }
    }
    assert AllLimbs[..4] == AllLimbs;
  }

  /** One limb block of `calculate_full_body_pose`: a placed limb is solved
      from its shoulder or hip towards its hold and its two joints are added. */
  method AttachLimb(hypot: (real, real) -> real, joints: Joints, limb: Limb, limbCoordsPx: map<Limb, Point>, dims: BodyDims)
    returns (result: Joints)
    requires Proximal(limb) in joints && ReachesNonNegative(dims)
    ensures result == WithLimb(hypot, joints, limb, limbCoordsPx, dims)
  {
    result := joints;
    if limb in limbCoordsPx {
      var upper, lower := if limb.IsHand() then dims.upperArm else dims.thigh,
                          if limb.IsHand() then dims.forearm else dims.shin;
      var middle, distal := Solve2SegmentIK(hypot, joints[Proximal(limb)], limbCoordsPx[limb], upper, lower);
      result := result[Middle(limb) := middle][Distal(limb) := distal];
    }
  }

  /** The pose as written: the limb dictionary is filled limb by limb, then the
      joints dictionary key by key, solving each placed limb. An id missing
      from `holdCoordsNorm` would raise KeyError, hence the precondition. */
  method CalculateFullBodyPose(hypot: (real, real) -> real, state: ClimberState, climber: ClimberModel,
                               holdCoordsNorm: map<int, Point>, imageWidth: real, imageHeight: real)
    returns (joints: Joints)
    requires state.ResolvesIn(holdCoordsNorm) && ReachesNonNegative(climber.Dims())
    ensures joints == FullBodyPose(hypot, state, climber.Dims(), holdCoordsNorm, imageWidth, imageHeight)
  {
    var limbCoordsPx, contactPoints := CollectContacts(state, holdCoordsNorm, imageWidth, imageHeight);
    var dims := climber.Dims();
    var core := CoreOf(contactPoints, dims.torsoHeight, imageWidth, imageHeight);
    var shoulderR := Point(core.x + dims.torsoWidth / 2.0, core.y);
    var shoulderL := Point(core.x - dims.torsoWidth / 2.0, core.y);
    var hipR := Point(core.x + dims.torsoWidth / 2.0, core.y + dims.torsoHeight);
    var hipL := Point(core.x - dims.torsoWidth / 2.0, core.y + dims.torsoHeight);
    joints := map[Core := core, ShoulderR := shoulderR, ShoulderL := shoulderL, HipR := hipR, HipL := hipL];
    assert joints == Torso(core, dims.torsoWidth, dims.torsoHeight);
    ghost var torso := joints;
    joints := AttachLimb(hypot, joints, RightHand, limbCoordsPx, dims);
    joints := AttachLimb(hypot, joints, LeftHand, limbCoordsPx, dims);
    joints := AttachLimb(hypot, joints, RightFoot, limbCoordsPx, dims);
    joints := AttachLimb(hypot, joints, LeftFoot, limbCoordsPx, dims);
    AttachAllLimbs(hypot, torso, limbCoordsPx, dims);
  }

  // ---------------------------------------------------------------------------
  // Properties of the full-body pose

  /** The contact point of one limb, as a list of zero or one points. */
  function ContactOf(state: ClimberState, coordsNorm: map<int, Point>, width: real, height: real, l: Limb): seq<Point>
    requires state.ResolvesIn(coordsNorm)
  {
    if state.Get(l).Some? then [LimbPixel(state, coordsNorm, width, height, l)] else []
  }

  /** The number of placed limbs; a hold shared by two limbs counts twice. */
  function PlacedCount(state: ClimberState): nat
  {
    (if state.RH.Some? then 1 else 0) + (if state.LH.Some? then 1 else 0)
    + (if state.RF.Some? then 1 else 0) + (if state.LF.Some? then 1 else 0)
  }

  /** The sum of the pixel positions of the placed limbs. */
  function PlacedSum(state: ClimberState, coordsNorm: map<int, Point>, width: real, height: real): Point
    requires state.ResolvesIn(coordsNorm)
  {
    var r := if state.RH.Some? then LimbPixel(state, coordsNorm, width, height, RightHand) else Point(0.0, 0.0);
    var l := if state.LH.Some? then LimbPixel(state, coordsNorm, width, height, LeftHand) else Point(0.0, 0.0);
    var rf := if state.RF.Some? then LimbPixel(state, coordsNorm, width, height, RightFoot) else Point(0.0, 0.0);
    var lf := if state.LF.Some? then LimbPixel(state, coordsNorm, width, height, LeftFoot) else Point(0.0, 0.0);
    Point(r.x + l.x + rf.x + lf.x, r.y + l.y + rf.y + lf.y)
  }

  /** The contact list holds one point per placed limb, in limb order. */
  lemma ContactsInLimbOrder(state: ClimberState, coordsNorm: map<int, Point>, width: real, height: real)
    requires state.ResolvesIn(coordsNorm)
    ensures Contacts(state, coordsNorm, width, height, AllLimbs)
            == ContactOf(state, coordsNorm, width, height, RightHand) + ContactOf(state, coordsNorm, width, height, LeftHand)
               + ContactOf(state, coordsNorm, width, height, RightFoot) + ContactOf(state, coordsNorm, width, height, LeftFoot)
  {
    assert [] + [RightHand] == [RightHand];
    assert [RightHand] + [LeftHand] == [RightHand, LeftHand];
    assert [RightHand, LeftHand] + [RightFoot] == [RightHand, LeftHand, RightFoot];
    assert [RightHand, LeftHand, RightFoot] + [LeftFoot] == AllLimbs;
    assert Contacts(state, coordsNorm, width, height, []) == [];
    PixelsStep(state, coordsNorm, width, height, [], RightHand);
    PixelsStep(state, coordsNorm, width, height, [RightHand], LeftHand);
    PixelsStep(state, coordsNorm, width, height, [RightHand, LeftHand], RightFoot);
    PixelsStep(state, coordsNorm, width, height, [RightHand, LeftHand, RightFoot], LeftFoot);
  }

  /** The contact list has one entry per placed limb, and its coordinate sums
      are those of the placed limbs. */
  lemma ContactTotals(state: ClimberState, coordsNorm: map<int, Point>, width: real, height: real)
    requires state.ResolvesIn(coordsNorm)
    ensures |Contacts(state, coordsNorm, width, height, AllLimbs)| == PlacedCount(state)
    ensures SumX(Contacts(state, coordsNorm, width, height, AllLimbs)) == PlacedSum(state, coordsNorm, width, height).x
    ensures SumY(Contacts(state, coordsNorm, width, height, AllLimbs)) == PlacedSum(state, coordsNorm, width, height).y
  {
    var c1 := ContactOf(state, coordsNorm, width, height, RightHand);
    var c2 := ContactOf(state, coordsNorm, width, height, LeftHand);
    var c3 := ContactOf(state, coordsNorm, width, height, RightFoot);
    var c4 := ContactOf(state, coordsNorm, width, height, LeftFoot);
    ContactsInLimbOrder(state, coordsNorm, width, height);
    SumOfFour(c1, c2, c3, c4);
    var zero := Point(0.0, 0.0);
    SumOfOptional(c1, if state.RH.Some? then LimbPixel(state, coordsNorm, width, height, RightHand) else zero);
    SumOfOptional(c2, if state.LH.Some? then LimbPixel(state, coordsNorm, width, height, LeftHand) else zero);
    SumOfOptional(c3, if state.RF.Some? then LimbPixel(state, coordsNorm, width, height, RightFoot) else zero);
    SumOfOptional(c4, if state.LF.Some? then LimbPixel(state, coordsNorm, width, height, LeftFoot) else zero);
  }

  /** AttachAll over the four limbs is the four limb steps in order. */
  lemma AttachAllLimbs(hypot: (real, real) -> real, torso: Joints, px: map<Limb, Point>, dims: BodyDims)
    requires HasProximals(torso, AllLimbs) && ReachesNonNegative(dims)
    ensures AttachAll(hypot, torso, AllLimbs, px, dims)
            == WithLimb(hypot, WithLimb(hypot, WithLimb(hypot, WithLimb(hypot, torso, RightHand, px, dims),
                                                        LeftHand, px, dims), RightFoot, px, dims), LeftFoot, px, dims)
  {
    assert AllLimbs[1..] == [LeftHand, RightFoot, LeftFoot];
    assert AllLimbs[1..][1..] == [RightFoot, LeftFoot];
    assert AllLimbs[1..][1..][1..] == [LeftFoot];
    assert AllLimbs[1..][1..][1..][1..] == [];
  }

  /** Each joint name belongs to at most one limb, and shoulders and hips to none. */
  lemma JointOwnership(l: Limb, m: Limb)
    ensures Middle(l) in LimbJointNames(m) ==> l == m
    ensures Distal(l) in LimbJointNames(m) ==> l == m
    ensures Proximal(l) !in LimbJointNames(m)
  {
  }

  /** A joint no limb of `limbs` owns keeps its value. */
  lemma {:induction false} AttachAllKeeps(hypot: (real, real) -> real, joints: Joints, limbs: seq<Limb>,
                                          px: map<Limb, Point>, dims: BodyDims, j: JointName)
    requires HasProximals(joints, limbs) && ReachesNonNegative(dims)
    requires j in joints && forall m :: m in limbs ==> j !in LimbJointNames(m)
    ensures j in AttachAll(hypot, joints, limbs, px, dims)
    ensures AttachAll(hypot, joints, limbs, px, dims)[j] == joints[j]
    decreases |limbs|
  {
    if limbs != [] {
      var next := WithLimb(hypot, joints, limbs[0], px, dims);
      assert forall m :: m in limbs[1..] ==> m in limbs;
      AttachAllKeeps(hypot, next, limbs[1..], px, dims, j);
    }
  }

  /** The keys after attaching `limbs`: the old ones and the two joints of each
      limb of `limbs` that is placed. */
  lemma {:induction false} AttachAllKeys(hypot: (real, real) -> real, joints: Joints, limbs: seq<Limb>,
                                         px: map<Limb, Point>, dims: BodyDims, j: JointName)
    requires HasProximals(joints, limbs) && ReachesNonNegative(dims)
    ensures j in AttachAll(hypot, joints, limbs, px, dims)
            <==> j in joints || exists m :: m in limbs && m in px && j in LimbJointNames(m)
    decreases |limbs|
  {
    if limbs != [] {
      var next := WithLimb(hypot, joints, limbs[0], px, dims);
      assert forall m :: m in limbs[1..] ==> m in limbs;
      assert forall m :: m in limbs ==> m == limbs[0] || m in limbs[1..];
      AttachAllKeys(hypot, next, limbs[1..], px, dims, j);
    }
  }

  /** A placed limb that occurs once in `limbs` gets the two-segment solution
      from its shoulder or hip to `px`'s pixel. */
  lemma {:induction false} AttachAllSolves(hypot: (real, real) -> real, joints: Joints, limbs: seq<Limb>,
                                           px: map<Limb, Point>, dims: BodyDims, l: Limb)
    requires HasProximals(joints, limbs) && ReachesNonNegative(dims)
    requires l in limbs && l in px
    requires forall i, k :: 0 <= i < k < |limbs| ==> limbs[i] != limbs[k]
    ensures Middle(l) in AttachAll(hypot, joints, limbs, px, dims) && Distal(l) in AttachAll(hypot, joints, limbs, px, dims)
    ensures var ik := SolveIK(hypot, joints[Proximal(l)], px[l], Segments(dims, l).0, Segments(dims, l).1, DefaultIterations);
            && AttachAll(hypot, joints, limbs, px, dims)[Middle(l)] == ik.0
            && AttachAll(hypot, joints, limbs, px, dims)[Distal(l)] == ik.1
    decreases |limbs|
  {
    var next := WithLimb(hypot, joints, limbs[0], px, dims);
    var rest := limbs[1..];
    assert forall m :: m in rest ==> m in limbs;
    if limbs[0] == l {
      assert l !in rest;
      forall m | m in rest ensures Middle(l) !in LimbJointNames(m) && Distal(l) !in LimbJointNames(m) {
        JointOwnership(l, m);
      }
      AttachAllKeeps(hypot, next, rest, px, dims, Middle(l));
      AttachAllKeeps(hypot, next, rest, px, dims, Distal(l));
    } else {
      assert l in rest;
      JointOwnership(l, limbs[0]);
      assert next[Proximal(l)] == joints[Proximal(l)];
      forall i, k | 0 <= i < k < |rest| ensures rest[i] != rest[k] {
        assert rest[i] == limbs[i + 1] && rest[k] == limbs[k + 1];
      }
      AttachAllSolves(hypot, next, rest, px, dims, l);
    }
  }

  lemma PlacedLimbs(state: ClimberState, coordsNorm: map<int, Point>, width: real, height: real)
    requires state.ResolvesIn(coordsNorm)
    ensures forall l :: l in LimbPixels(state, coordsNorm, width, height, AllLimbs) <==> state.Get(l).Some?
  {
    forall l ensures l in LimbPixels(state, coordsNorm, width, height, AllLimbs) <==> state.Get(l).Some? {
      AllLimbsListed(l);
    }
  }

  /** The pose has the core and the four torso corners, and the elbow or knee
      and the hand or foot of a limb exactly when that limb is placed. */
  lemma PoseKeys(hypot: (real, real) -> real, state: ClimberState, dims: BodyDims,
                 coordsNorm: map<int, Point>, width: real, height: real)
    requires state.ResolvesIn(coordsNorm) && ReachesNonNegative(dims)
    ensures var pose := FullBodyPose(hypot, state, dims, coordsNorm, width, height);
            && Core in pose && TorsoCorners <= pose.Keys
            && forall l :: (Middle(l) in pose <==> state.Get(l).Some?) && (Distal(l) in pose <==> state.Get(l).Some?)
  {
    PoseKeepsTorso(hypot, state, dims, coordsNorm, width, height);
    var px := LimbPixels(state, coordsNorm, width, height, AllLimbs);
    var core := CoreOf(Contacts(state, coordsNorm, width, height, AllLimbs), dims.torsoHeight, width, height);
    var torso := Torso(core, dims.torsoWidth, dims.torsoHeight);
    PlacedLimbs(state, coordsNorm, width, height);
    forall l ensures (Middle(l) in FullBodyPose(hypot, state, dims, coordsNorm, width, height) <==> state.Get(l).Some?)
                  && (Distal(l) in FullBodyPose(hypot, state, dims, coordsNorm, width, height) <==> state.Get(l).Some?) {
      AllLimbsListed(l);
      AttachAllKeys(hypot, torso, AllLimbs, px, dims, Middle(l));
      AttachAllKeys(hypot, torso, AllLimbs, px, dims, Distal(l));
      forall m ensures Middle(l) in LimbJointNames(m) ==> l == m { JointOwnership(l, m); }
      forall m ensures Distal(l) in LimbJointNames(m) ==> l == m { JointOwnership(l, m); }
    }
  }

  /** The core and the torso corners keep the values the torso block gives them. */
  lemma PoseKeepsTorso(hypot: (real, real) -> real, state: ClimberState, dims: BodyDims,
                       coordsNorm: map<int, Point>, width: real, height: real)
    requires state.ResolvesIn(coordsNorm) && ReachesNonNegative(dims)
    ensures var core := CoreOf(Contacts(state, coordsNorm, width, height, AllLimbs), dims.torsoHeight, width, height);
            var torso := Torso(core, dims.torsoWidth, dims.torsoHeight);
            var pose := FullBodyPose(hypot, state, dims, coordsNorm, width, height);
            forall j :: j in torso ==> j in pose && pose[j] == torso[j]
  {
    var px := LimbPixels(state, coordsNorm, width, height, AllLimbs);
    var core := CoreOf(Contacts(state, coordsNorm, width, height, AllLimbs), dims.torsoHeight, width, height);
    var torso := Torso(core, dims.torsoWidth, dims.torsoHeight);
    forall j | j in torso
      ensures j in FullBodyPose(hypot, state, dims, coordsNorm, width, height)
      ensures FullBodyPose(hypot, state, dims, coordsNorm, width, height)[j] == torso[j]
    {
      AttachAllKeeps(hypot, torso, AllLimbs, px, dims, j);
    }
  }

  /** The torso block hangs from the core: shoulders level with it, hips one
      torso height below, right corners half a torso width to the right. */
  lemma PoseTorsoCorners(hypot: (real, real) -> real, state: ClimberState, dims: BodyDims,
                         coordsNorm: map<int, Point>, width: real, height: real)
    requires state.ResolvesIn(coordsNorm) && ReachesNonNegative(dims)
    ensures var pose := FullBodyPose(hypot, state, dims, coordsNorm, width, height);
            && Core in pose && TorsoCorners <= pose.Keys
            && pose[ShoulderR] == Point(pose[Core].x + dims.torsoWidth / 2.0, pose[Core].y)
            && pose[ShoulderL] == Point(pose[Core].x - dims.torsoWidth / 2.0, pose[Core].y)
            && pose[HipR] == Point(pose[Core].x + dims.torsoWidth / 2.0, pose[Core].y + dims.torsoHeight)
            && pose[HipL] == Point(pose[Core].x - dims.torsoWidth / 2.0, pose[Core].y + dims.torsoHeight)
  {
    PoseKeepsTorso(hypot, state, dims, coordsNorm, width, height);
  }

  /** The core is the mean of the placed limbs' hold positions, a hold used by
      two limbs weighing twice, raised by half the torso height; with no limb
      placed it is the frame centre. */
  lemma PoseCore(hypot: (real, real) -> real, state: ClimberState, dims: BodyDims,
                 coordsNorm: map<int, Point>, width: real, height: real)
    requires state.ResolvesIn(coordsNorm) && ReachesNonNegative(dims)
    ensures var pose := FullBodyPose(hypot, state, dims, coordsNorm, width, height);
            var n := PlacedCount(state) as real;
            var sum := PlacedSum(state, coordsNorm, width, height);
            && Core in pose
            && (PlacedCount(state) == 0 ==> pose[Core] == Point(width / 2.0, height / 2.0))
            && (PlacedCount(state) > 0 ==> pose[Core] == Point(sum.x / n, sum.y / n - dims.torsoHeight / 2.0))
  {
    PoseKeepsTorso(hypot, state, dims, coordsNorm, width, height);
    ContactTotals(state, coordsNorm, width, height);
  }

  lemma TorsoHasProximals(core: Point, torsoWidth: real, torsoHeight: real)
    ensures HasProximals(Torso(core, torsoWidth, torsoHeight), AllLimbs)
  {
  }

  lemma AllLimbsDistinct()
    ensures forall i, k :: 0 <= i < k < |AllLimbs| ==> AllLimbs[i] != AllLimbs[k]
  {
  }

  /** A placed limb is the two-segment solution from its shoulder or hip to its
      hold, with the arm or leg lengths of the model. */
  lemma PoseLimb(hypot: (real, real) -> real, state: ClimberState, dims: BodyDims,
                 coordsNorm: map<int, Point>, width: real, height: real, l: Limb)
    requires state.ResolvesIn(coordsNorm) && ReachesNonNegative(dims) && state.Get(l).Some?
    ensures var pose := FullBodyPose(hypot, state, dims, coordsNorm, width, height);
            && Proximal(l) in pose && Middle(l) in pose && Distal(l) in pose
            && var ik := SolveIK(hypot, pose[Proximal(l)], LimbPixel(state, coordsNorm, width, height, l),
                                 Segments(dims, l).0, Segments(dims, l).1, DefaultIterations);
               pose[Middle(l)] == ik.0 && pose[Distal(l)] == ik.1
  {
    var px := LimbPixels(state, coordsNorm, width, height, AllLimbs);
    var core := CoreOf(Contacts(state, coordsNorm, width, height, AllLimbs), dims.torsoHeight, width, height);
    var torso := Torso(core, dims.torsoWidth, dims.torsoHeight);
    AllLimbsListed(l);
    assert l in px;
    PoseKeepsTorso(hypot, state, dims, coordsNorm, width, height);
    TorsoHasProximals(core, dims.torsoWidth, dims.torsoHeight);
    AllLimbsDistinct();
    AttachAllSolves(hypot, torso, AllLimbs, px, dims, l);
    var pose := FullBodyPose(hypot, state, dims, coordsNorm, width, height);
    assert pose == AttachAll(hypot, torso, AllLimbs, px, dims);
    assert pose[Proximal(l)] == torso[Proximal(l)];
    assert px[l] == LimbPixel(state, coordsNorm, width, height, l);
  }

  /** A placed limb's hand or foot lands on its hold exactly when the hold is
      within the limb's length of its shoulder or hip. */
  lemma PoseReachesHold(hypot: (real, real) -> real, state: ClimberState, dims: BodyDims,
                        coordsNorm: map<int, Point>, width: real, height: real, l: Limb)
    requires IsHypot(hypot) && dims.NonNegative()
    requires state.ResolvesIn(coordsNorm) && state.Get(l).Some?
    ensures ReachesNonNegative(dims)
    ensures var pose := FullBodyPose(hypot, state, dims, coordsNorm, width, height);
            var hold := LimbPixel(state, coordsNorm, width, height, l);
            && Proximal(l) in pose && Distal(l) in pose
            && (pose[Distal(l)] == hold <==> Dist(hypot, hold, pose[Proximal(l)]) <= Segments(dims, l).0 + Segments(dims, l).1)
  {
    assert dims.Lengths()[0] >= 0.0 && dims.Lengths()[1] >= 0.0;
    assert dims.Lengths()[2] >= 0.0 && dims.Lengths()[3] >= 0.0;
    PoseLimb(hypot, state, dims, coordsNorm, width, height, l);
    var pose := FullBodyPose(hypot, state, dims, coordsNorm, width, height);
    var hold := LimbPixel(state, coordsNorm, width, height, l);
    var (seg1, seg2) := Segments(dims, l);
    if Dist(hypot, hold, pose[Proximal(l)]) > seg1 + seg2 {
      StretchFallsShort(hypot, pose[Proximal(l)], hold, seg1, seg2, DefaultIterations);
    }
  }
}
