/** Pose synthesis of the browser front end: hands and feet on their holds,
    the torso at the contacts' centroid and elbows and knees at bent midpoints
    (frontend/FermataBeta/src/utils/skeleton.ts). */
module Skeleton {
  import opened Types
  import Visualizer

  /** The body lengths the front end derives from the canvas height. */
  datatype CanvasModel = CanvasModel(
    torsoHeight: real, torsoWidth: real,
    upperArmLength: real, forearmLength: real, thighLength: real, shinLength: real)

  function ModelFor(canvasHeight: real): CanvasModel
  {
    CanvasModel(0.30 * canvasHeight, 0.15 * canvasHeight,
                0.25 * canvasHeight, 0.25 * canvasHeight, 0.30 * canvasHeight, 0.25 * canvasHeight)
  }

  /** How far an elbow hangs below, and a knee rises above, its limb's midpoint. */
  const Bend: real := 20.0

  /** The pixel index of the holds; a later hold with a repeated id replaces
      the earlier one. */
  function HoldCoordsById(holds: seq<Hold>, canvasWidth: real, canvasHeight: real): map<int, Point>
  {
    if holds == [] then map[]
    else
      var h := holds[|holds| - 1];
      HoldCoordsById(holds[..|holds| - 1], canvasWidth, canvasHeight)[h.id := ToPixels(h.xNorm, h.yNorm, canvasWidth, canvasHeight)]
  }

  /** The `forEach` that fills the index. */
  method IndexHolds(holds: seq<Hold>, canvasWidth: real, canvasHeight: real) returns (byId: map<int, Point>)
    ensures byId == HoldCoordsById(holds, canvasWidth, canvasHeight)
  {
    byId := map[];
    for i := 0 to |holds|
      invariant byId == HoldCoordsById(holds[..i], canvasWidth, canvasHeight)
    {
      assert holds[..i + 1][..i] == holds[..i];
      byId := byId[holds[i].id := ToPixels(holds[i].xNorm, holds[i].yNorm, canvasWidth, canvasHeight)];
    }
    assert holds[..|holds|] == holds;
  }

  /** The index has exactly the ids of the holds. */
  lemma {:induction false} HoldIndexKeys(holds: seq<Hold>, canvasWidth: real, canvasHeight: real)
    ensures HoldCoordsById(holds, canvasWidth, canvasHeight).Keys == HoldIds(holds)
  {
    if holds != [] {
      var init := holds[..|holds| - 1];
      HoldIndexKeys(init, canvasWidth, canvasHeight);
      assert holds == init + [holds[|holds| - 1]];
      assert HoldIds(holds) == HoldIds(init) + {holds[|holds| - 1].id};
    }
  }

  /** An id is mapped to the pixel of the last hold carrying it. */
  lemma {:induction false} HoldIndexLastWins(holds: seq<Hold>, canvasWidth: real, canvasHeight: real, i: nat)
    requires i < |holds| && forall k :: i < k < |holds| ==> holds[k].id != holds[i].id
    ensures holds[i].id in HoldCoordsById(holds, canvasWidth, canvasHeight)
    ensures HoldCoordsById(holds, canvasWidth, canvasHeight)[holds[i].id]
            == ToPixels(holds[i].xNorm, holds[i].yNorm, canvasWidth, canvasHeight)
  {
    if i < |holds| - 1 {
      var init := holds[..|holds| - 1];
      HoldIndexLastWins(init, canvasWidth, canvasHeight, i);
    }
  }

  lemma IndexResolves(state: ClimberState, holds: seq<Hold>, canvasWidth: real, canvasHeight: real)
    requires ResolvesInHolds(state, holds)
    ensures state.ResolvesIn(HoldCoordsById(holds, canvasWidth, canvasHeight))
  {
    HoldIndexKeys(holds, canvasWidth, canvasHeight);
  }

  /** `limbCoords` with the null entries dropped: the resolved pixel of each
      placed limb. */
  function LimbCoords(state: ClimberState, byId: map<int, Point>): map<Limb, Point>
    requires state.ResolvesIn(byId)
  {
    map l | l in AllLimbs && state.Get(l).Some? :: byId[state.Get(l).value]
  }

  function ContactOf(state: ClimberState, byId: map<int, Point>, l: Limb): seq<Point>
    requires state.ResolvesIn(byId)
  {
    if state.Get(l).Some? then [byId[state.Get(l).value]] else []
  }

  /** `Object.values(limbCoords)` without nulls, in the order RH, LH, RF, LF. */
  function ContactPoints(state: ClimberState, byId: map<int, Point>): seq<Point>
    requires state.ResolvesIn(byId)
  {
    ContactOf(state, byId, RightHand) + ContactOf(state, byId, LeftHand)
    + ContactOf(state, byId, RightFoot) + ContactOf(state, byId, LeftFoot)
  }

  /** The four torso corners around the core. */
  function CornersAt(coreX: real, coreY: real, m: CanvasModel): Joints
  {
    map[ShoulderR := Point(coreX + m.torsoWidth / 2.0, coreY),
        ShoulderL := Point(coreX - m.torsoWidth / 2.0, coreY),
        HipR := Point(coreX + m.torsoWidth / 2.0, coreY + m.torsoHeight),
        HipL := Point(coreX - m.torsoWidth / 2.0, coreY + m.torsoHeight)]
  }

  /** The hand or foot of a placed limb, put straight on its hold. */
  function WithEnd(joints: Joints, limbCoords: map<Limb, Point>, l: Limb): Joints
  {
    if l in limbCoords then joints[Distal(l) := limbCoords[l]] else joints
  }

  /** The midpoint of a limb pushed down by Bend for arms and up for legs. */
  function BentMidpoint(p: Point, q: Point, l: Limb): Point
  {
    Point((p.x + q.x) / 2.0, (p.y + q.y) / 2.0 + (if l.IsHand() then Bend else -Bend))
  }

  /** The elbow or knee of a limb whose hand or foot is present. */
  function WithBend(joints: Joints, l: Limb): Joints
    requires Proximal(l) in joints
  {
    if Distal(l) in joints then joints[Middle(l) := BentMidpoint(joints[Proximal(l)], joints[Distal(l)], l)]
    else joints
  }

  /** The four hands and feet, in the order the assignments are written. */
  function Ends(joints: Joints, limbCoords: map<Limb, Point>): Joints
  {
    WithEnd(WithEnd(WithEnd(WithEnd(joints, limbCoords, RightHand), limbCoords, LeftHand),
                    limbCoords, RightFoot), limbCoords, LeftFoot)
  }

  /** The four elbows and knees, in the order the assignments are written. */
  function Bends(joints: Joints): Joints
    requires TorsoCorners <= joints.Keys
  {
    WithBend(WithBend(WithBend(WithBend(joints, RightHand), LeftHand), RightFoot), LeftFoot)
  }

  /** The centre of the torso top edge: the contacts' centroid lifted by half
      the torso height, or the canvas centre. */
  function CoreFor(state: ClimberState, holds: seq<Hold>, canvasWidth: real, canvasHeight: real): Point
    requires ResolvesInHolds(state, holds)
  {
    var byId := HoldCoordsById(holds, canvasWidth, canvasHeight);
    IndexResolves(state, holds, canvasWidth, canvasHeight);
    Visualizer.CoreOf(ContactPoints(state, byId), ModelFor(canvasHeight).torsoHeight, canvasWidth, canvasHeight)
  }

  /** The joints `calculateFullBodyPose` returns (it has no `core` entry). */
  function Pose(state: ClimberState, holds: seq<Hold>, canvasWidth: real, canvasHeight: real): Joints
    requires ResolvesInHolds(state, holds)
  {
    var byId := HoldCoordsById(holds, canvasWidth, canvasHeight);
    IndexResolves(state, holds, canvasWidth, canvasHeight);
    var core := CoreFor(state, holds, canvasWidth, canvasHeight);
    Bends(Ends(CornersAt(core.x, core.y, ModelFor(canvasHeight)), LimbCoords(state, byId)))
  }

  /** The four torso corners are keys; so is every limb's shoulder or hip. */
  predicate HasCorners(joints: Joints)
  {
    ShoulderR in joints && ShoulderL in joints && HipR in joints && HipL in joints
  }

  /** `if (limbCoords.RH) joints.handR = limbCoords.RH;` and its three siblings. */
  method PlaceEnd(joints: Joints, limbCoords: map<Limb, Point>, limb: Limb) returns (result: Joints)
    ensures result == WithEnd(joints, limbCoords, limb)
    ensures HasCorners(joints) ==> HasCorners(result)
  {
    result := joints;
    if limb in limbCoords {
      result := result[Distal(limb) := limbCoords[limb]];
    }
  }

  /** `if (joints.handR) joints.elbowR = { ... }` and its three siblings. */
  method PlaceBend(joints: Joints, limb: Limb) returns (result: Joints)
    requires Proximal(limb) in joints
    ensures result == WithBend(joints, limb)
    ensures HasCorners(joints) ==> HasCorners(result)
  {
    result := joints;
    var p, q := Proximal(limb), Distal(limb);
    if q in result {
      var shift := if limb.IsHand() then 20.0 else -20.0;
      result := result[Middle(limb) := Point((result[p].x + result[q].x) / 2.0, (result[p].y + result[q].y) / 2.0 + shift)];
    }
  }

  /** The conditional assignments of the pose: hands and feet first, then
      elbows and knees. */
  method PlaceLimbs(corners: Joints, limbCoords: map<Limb, Point>) returns (joints: Joints)
    requires HasCorners(corners)
    ensures TorsoCorners <= Ends(corners, limbCoords).Keys
    ensures joints == Bends(Ends(corners, limbCoords))
  {
    joints := PlaceEnd(corners, limbCoords, RightHand);
    joints := PlaceEnd(joints, limbCoords, LeftHand);
    joints := PlaceEnd(joints, limbCoords, RightFoot);
    joints := PlaceEnd(joints, limbCoords, LeftFoot);
    CornerKeys(joints);
    joints := PlaceBend(joints, RightHand);
    joints := PlaceBend(joints, LeftHand);
    joints := PlaceBend(joints, RightFoot);
    joints := PlaceBend(joints, LeftFoot);
  }

  lemma CornerKeys(joints: Joints)
    requires HasCorners(joints)
    ensures TorsoCorners <= joints.Keys
  {
  }

  /** The pose as written: the index by `forEach`, the centroid by `reduce`,
      then conditional assignments, hands and feet first and bends after. */
  method CalculateFullBodyPose(state: ClimberState, holds: seq<Hold>, canvasWidth: real, canvasHeight: real)
    returns (joints: Joints)
    requires ResolvesInHolds(state, holds)
    ensures joints == Pose(state, holds, canvasWidth, canvasHeight)
  {
    var climberModel := ModelFor(canvasHeight);
    var holdCoordsById := IndexHolds(holds, canvasWidth, canvasHeight);
    IndexResolves(state, holds, canvasWidth, canvasHeight);
    var limbCoords := LimbCoords(state, holdCoordsById);
    var contactPoints := ContactPoints(state, holdCoordsById);
    var coreX: real, coreY: real;
    if |contactPoints| > 0 {
      var avgX := SumX(contactPoints) / (|contactPoints| as real);
      var avgY := SumY(contactPoints) / (|contactPoints| as real);
      coreX := avgX;
      coreY := avgY - climberModel.torsoHeight / 2.0;
    } else {
      coreX := canvasWidth / 2.0;
      coreY := canvasHeight / 2.0;
    }
    var corners := CornersAt(coreX, coreY, climberModel);
    assert Point(coreX, coreY)
           == Visualizer.CoreOf(contactPoints, climberModel.torsoHeight, canvasWidth, canvasHeight);
    joints := PlaceLimbs(corners, limbCoords);
    PoseUnfold(state, holds, canvasWidth, canvasHeight);
    assert CoreFor(state, holds, canvasWidth, canvasHeight) == Point(coreX, coreY);
  }

  /** `drawLimb`: the polyline through shoulder or hip, elbow or knee and hand
      or foot, drawn only when all three joints exist. */
  function LimbStroke(joints: Joints, l: Limb): Option<seq<Point>>
  {
    if Proximal(l) in joints && Middle(l) in joints && Distal(l) in joints
    then Some([joints[Proximal(l)], joints[Middle(l)], joints[Distal(l)]])
    else None
  }

  /** The limb a hand or foot joint belongs to. */
  function EndOf(q: JointName): Option<Limb>
  {
    match q
    case HandR => Some(RightHand)
    case HandL => Some(LeftHand)
    case FootR => Some(RightFoot)
    case FootL => Some(LeftFoot)
    case _ => None
  }

  lemma EndOfJoints(l: Limb)
    ensures EndOf(Distal(l)) == Some(l)
    ensures EndOf(Middle(l)) == None && EndOf(Proximal(l)) == None && EndOf(Core) == None
  {
  }

  /** One assignment of a hand or foot touches that joint only. */
  lemma EndStep(joints: Joints, limbCoords: map<Limb, Point>, k: Limb, q: JointName)
    ensures var r := WithEnd(joints, limbCoords, k);
            var hit := k in limbCoords && EndOf(q) == Some(k);
            && (q in r <==> q in joints || hit)
            && (hit ==> r[q] == limbCoords[k])
            && (!hit && q in joints ==> r[q] == joints[q])
  {
    EndOfJoints(k);
  }

  /** Every joint after the four hand and foot assignments: a hand or foot
      of a placed limb is on its hold; every other joint is unchanged. */
  lemma EndsAt(joints: Joints, limbCoords: map<Limb, Point>, q: JointName)
    ensures var r := Ends(joints, limbCoords);
            var hit := EndOf(q).Some? && EndOf(q).value in limbCoords;
            && (q in r <==> q in joints || hit)
            && (hit ==> r[q] == limbCoords[EndOf(q).value])
            && (!hit && q in joints ==> r[q] == joints[q])
  {
    var r1 := WithEnd(joints, limbCoords, RightHand);
    var r2 := WithEnd(r1, limbCoords, LeftHand);
    var r3 := WithEnd(r2, limbCoords, RightFoot);
    EndStep(joints, limbCoords, RightHand, q);
    EndStep(r1, limbCoords, LeftHand, q);
    EndStep(r2, limbCoords, RightFoot, q);
    EndStep(r3, limbCoords, LeftFoot, q);
  }

  /** The hands and feet land on their holds and nothing else changes. */
  lemma EndsPlaceHoldPixels(joints: Joints, limbCoords: map<Limb, Point>, l: Limb)
    ensures var r := Ends(joints, limbCoords);
            && (Distal(l) in r <==> Distal(l) in joints || l in limbCoords)
            && (l in limbCoords ==> r[Distal(l)] == limbCoords[l])
            && (l !in limbCoords && Distal(l) in joints ==> r[Distal(l)] == joints[Distal(l)])
            && (Middle(l) in r <==> Middle(l) in joints)
            && (Middle(l) in joints ==> r[Middle(l)] == joints[Middle(l)])
            && (Proximal(l) in joints ==> Proximal(l) in r && r[Proximal(l)] == joints[Proximal(l)])
            && (Core in r <==> Core in joints)
  {
    EndOfJoints(l);
    EndsAt(joints, limbCoords, Distal(l));
    EndsAt(joints, limbCoords, Middle(l));
    EndsAt(joints, limbCoords, Proximal(l));
    EndsAt(joints, limbCoords, Core);
  }

  /** The limb an elbow or knee joint belongs to. */
  function MidOf(q: JointName): Option<Limb>
  {
    match q
    case ElbowR => Some(RightHand)
    case ElbowL => Some(LeftHand)
    case KneeR => Some(RightFoot)
    case KneeL => Some(LeftFoot)
    case _ => None
  }

  lemma MidOfJoints(l: Limb)
    ensures MidOf(Middle(l)) == Some(l)
    ensures MidOf(Distal(l)) == None && MidOf(Proximal(l)) == None && MidOf(Core) == None
  {
  }

  /** `r` has the joints of `j` other than elbows and knees, in their places. */
  predicate KeepsOffMiddles(j: Joints, r: Joints)
  {
    forall q :: MidOf(q).None? ==> (q in r <==> q in j) && (q in j ==> r[q] == j[q])
  }

  /** One elbow or knee assignment, on joints that agree with `base` away
      from the elbows and knees, touches that joint only and computes it
      from the joints of `base`. */
  lemma BendStep(base: Joints, joints: Joints, k: Limb, q: JointName)
    requires KeepsOffMiddles(base, joints) && Proximal(k) in base
    ensures Proximal(k) in joints
    ensures KeepsOffMiddles(base, WithBend(joints, k))
    ensures var r := WithBend(joints, k);
            var hit := Distal(k) in base && MidOf(q) == Some(k);
            && (q in r <==> q in joints || hit)
            && (hit ==> r[q] == BentMidpoint(base[Proximal(k)], base[Distal(k)], k))
            && (!hit && q in joints ==> r[q] == joints[q])
  {
    MidOfJoints(k);
  }

  /** Every joint after the four elbow and knee assignments: the elbow or
      knee of a limb whose hand or foot is present is its bent midpoint;
      every other joint is unchanged. */
  lemma BendsAt(joints: Joints, q: JointName)
    requires TorsoCorners <= joints.Keys
    ensures var r := Bends(joints);
            var m := MidOf(q);
            var hit := m.Some? && Distal(m.value) in joints;
            && (q in r <==> q in joints || hit)
            && (hit ==> r[q] == BentMidpoint(joints[Proximal(m.value)], joints[Distal(m.value)], m.value))
            && (!hit && q in joints ==> r[q] == joints[q])
  {
    assert ShoulderR in joints && ShoulderL in joints && HipR in joints && HipL in joints;
    assert KeepsOffMiddles(joints, joints);
    BendStep(joints, joints, RightHand, q);
    var r1 := WithBend(joints, RightHand);
    BendStep(joints, r1, LeftHand, q);
    var r2 := WithBend(r1, LeftHand);
    BendStep(joints, r2, RightFoot, q);
    var r3 := WithBend(r2, RightFoot);
    BendStep(joints, r3, LeftFoot, q);
  }

  /** Each elbow or knee is the bent midpoint of its present limb; the other
      joints of the limb keep their places. */
  lemma BendsPlaceMidpoints(joints: Joints, l: Limb)
    requires TorsoCorners <= joints.Keys
    ensures var r := Bends(joints);
            && (Middle(l) in r <==> Middle(l) in joints || Distal(l) in joints)
            && (Distal(l) in joints ==> r[Middle(l)] == BentMidpoint(joints[Proximal(l)], joints[Distal(l)], l))
            && (Distal(l) in r <==> Distal(l) in joints)
            && (Distal(l) in joints ==> r[Distal(l)] == joints[Distal(l)])
            && Proximal(l) in r && r[Proximal(l)] == joints[Proximal(l)]
            && (Core in r <==> Core in joints)
  {
    MidOfJoints(l);
    BendsAt(joints, Middle(l));
    BendsAt(joints, Distal(l));
    BendsAt(joints, Proximal(l));
    BendsAt(joints, Core);
  }

  /** The sum of the pixel positions of the placed limbs (zero for a free limb). */
  function PlacedSum(state: ClimberState, byId: map<int, Point>): Point
    requires state.ResolvesIn(byId)
  {
    var zero := Point(0.0, 0.0);
    var r := if state.Get(RightHand).Some? then byId[state.Get(RightHand).value] else zero;
    var l := if state.Get(LeftHand).Some? then byId[state.Get(LeftHand).value] else zero;
    var rf := if state.Get(RightFoot).Some? then byId[state.Get(RightFoot).value] else zero;
    var lf := if state.Get(LeftFoot).Some? then byId[state.Get(LeftFoot).value] else zero;
    Point(r.x + l.x + rf.x + lf.x, r.y + l.y + rf.y + lf.y)
  }

  lemma ContactTotals(state: ClimberState, byId: map<int, Point>)
    requires state.ResolvesIn(byId)
    ensures |ContactPoints(state, byId)| == Visualizer.PlacedCount(state)
    ensures SumX(ContactPoints(state, byId)) == PlacedSum(state, byId).x
    ensures SumY(ContactPoints(state, byId)) == PlacedSum(state, byId).y
  {
    var c1, c2 := ContactOf(state, byId, RightHand), ContactOf(state, byId, LeftHand);
    var c3, c4 := ContactOf(state, byId, RightFoot), ContactOf(state, byId, LeftFoot);
    SumOfFour(c1, c2, c3, c4);
    var zero := Point(0.0, 0.0);
    SumOfOptional(c1, if state.Get(RightHand).Some? then byId[state.Get(RightHand).value] else zero);
    SumOfOptional(c2, if state.Get(LeftHand).Some? then byId[state.Get(LeftHand).value] else zero);
    SumOfOptional(c3, if state.Get(RightFoot).Some? then byId[state.Get(RightFoot).value] else zero);
    SumOfOptional(c4, if state.Get(LeftFoot).Some? then byId[state.Get(LeftFoot).value] else zero);
  }

  /** With at least one contact the core is the centroid of the placed limbs'
      hold pixels (a hold under two limbs counts twice) raised by half the
      torso height; with none it is the canvas centre, without that shift. */
  lemma CoreIsCentroid(state: ClimberState, holds: seq<Hold>, canvasWidth: real, canvasHeight: real)
    requires ResolvesInHolds(state, holds)
    ensures state.ResolvesIn(HoldCoordsById(holds, canvasWidth, canvasHeight))
    ensures var core := CoreFor(state, holds, canvasWidth, canvasHeight);
            var n := Visualizer.PlacedCount(state);
            var sum := PlacedSum(state, HoldCoordsById(holds, canvasWidth, canvasHeight));
            && (n == 0 ==> core == Point(canvasWidth / 2.0, canvasHeight / 2.0))
            && (n > 0 ==> core == Point(sum.x / n as real, sum.y / n as real - ModelFor(canvasHeight).torsoHeight / 2.0))
  {
    IndexResolves(state, holds, canvasWidth, canvasHeight);
    ContactTotals(state, HoldCoordsById(holds, canvasWidth, canvasHeight));
  }

  /** The keys of a pose built from any core, model and resolved limbs. */
  lemma {:induction false} ShapeKeys(coreX: real, coreY: real, m: CanvasModel, limbCoords: map<Limb, Point>, l: Limb)
    ensures var pose := Bends(Ends(CornersAt(coreX, coreY, m), limbCoords));
            && Core !in pose && Proximal(l) in pose
            && (Middle(l) in pose <==> l in limbCoords) && (Distal(l) in pose <==> l in limbCoords)
  {
    var torso := CornersAt(coreX, coreY, m);
    assert Middle(l) !in torso && Distal(l) !in torso && Core !in torso && Proximal(l) in torso;
    EndsPlaceHoldPixels(torso, limbCoords, l);
    var ends := Ends(torso, limbCoords);
    forall k ensures Proximal(k) in ends { EndsPlaceHoldPixels(torso, limbCoords, k); }
    assert TorsoCorners <= ends.Keys by {
      assert ShoulderR == Proximal(RightHand) && ShoulderL == Proximal(LeftHand);
      assert HipR == Proximal(RightFoot) && HipL == Proximal(LeftFoot);
    }
    BendsPlaceMidpoints(ends, l);
  }

  /** `Pose` spelled out around the core and the limb coordinates. */
  lemma PoseUnfold(state: ClimberState, holds: seq<Hold>, canvasWidth: real, canvasHeight: real)
    requires ResolvesInHolds(state, holds)
    ensures state.ResolvesIn(HoldCoordsById(holds, canvasWidth, canvasHeight))
    ensures var core := CoreFor(state, holds, canvasWidth, canvasHeight);
            var limbCoords := LimbCoords(state, HoldCoordsById(holds, canvasWidth, canvasHeight));
            var ends := Ends(CornersAt(core.x, core.y, ModelFor(canvasHeight)), limbCoords);
            && TorsoCorners <= ends.Keys
            && Pose(state, holds, canvasWidth, canvasHeight) == Bends(ends)
  {
    IndexResolves(state, holds, canvasWidth, canvasHeight);
  }

  /** The pose never has a `core` entry and always has the four torso
      corners; the elbow or knee and the hand or foot of a limb are present
      exactly when the limb is placed. */
  lemma PoseKeys(state: ClimberState, holds: seq<Hold>, canvasWidth: real, canvasHeight: real)
    requires ResolvesInHolds(state, holds)
    ensures var pose := Pose(state, holds, canvasWidth, canvasHeight);
            && Core !in pose && TorsoCorners <= pose.Keys
            && forall l :: (Middle(l) in pose <==> state.Get(l).Some?) && (Distal(l) in pose <==> state.Get(l).Some?)
  {
    var byId := HoldCoordsById(holds, canvasWidth, canvasHeight);
    IndexResolves(state, holds, canvasWidth, canvasHeight);
    var core := CoreFor(state, holds, canvasWidth, canvasHeight);
    var limbCoords := LimbCoords(state, byId);
    var pose := Pose(state, holds, canvasWidth, canvasHeight);
    PoseUnfold(state, holds, canvasWidth, canvasHeight);
    forall l ensures Proximal(l) in pose && (Middle(l) in pose <==> state.Get(l).Some?) && (Distal(l) in pose <==> state.Get(l).Some?) {
      CoordsOfPlaced(state, byId, l);
      ShapeKeys(core.x, core.y, ModelFor(canvasHeight), limbCoords, l);
    }
    assert Proximal(RightHand) in pose && Proximal(LeftHand) in pose;
    assert Proximal(RightFoot) in pose && Proximal(LeftFoot) in pose;
    ShapeKeys(core.x, core.y, ModelFor(canvasHeight), limbCoords, RightHand);
  }

  lemma CoordsOfPlaced(state: ClimberState, byId: map<int, Point>, l: Limb)
    requires state.ResolvesIn(byId)
    ensures l in LimbCoords(state, byId) <==> state.Get(l).Some?
    ensures l in LimbCoords(state, byId) ==> LimbCoords(state, byId)[l] == byId[state.Get(l).value]
  {
    AllLimbsListed(l);
  }

  /** The values of a pose built from any core, model and resolved limbs. */
  lemma ShapeValues(coreX: real, coreY: real, m: CanvasModel, limbCoords: map<Limb, Point>, l: Limb)
    ensures var torso := CornersAt(coreX, coreY, m);
            var pose := Bends(Ends(torso, limbCoords));
            && Proximal(l) in torso && Proximal(l) in pose && pose[Proximal(l)] == torso[Proximal(l)]
            && (l in limbCoords ==> && Distal(l) in pose && pose[Distal(l)] == limbCoords[l]
                                    && Middle(l) in pose && pose[Middle(l)] == BentMidpoint(torso[Proximal(l)], limbCoords[l], l))
  {
    var torso := CornersAt(coreX, coreY, m);
    assert Middle(l) !in torso && Distal(l) !in torso && Proximal(l) in torso;
    EndsPlaceHoldPixels(torso, limbCoords, l);
    var ends := Ends(torso, limbCoords);
    forall k ensures Proximal(k) in ends { EndsPlaceHoldPixels(torso, limbCoords, k); }
    assert TorsoCorners <= ends.Keys by {
      assert ShoulderR == Proximal(RightHand) && ShoulderL == Proximal(LeftHand);
      assert HipR == Proximal(RightFoot) && HipL == Proximal(LeftFoot);
    }
    BendsPlaceMidpoints(ends, l);
  }

  /** The torso block hangs from the core: shoulders level with it, hips one
      torso height below, right corners half a torso width to the right and
      left corners half a torso width to the left. */
  lemma PoseTorso(state: ClimberState, holds: seq<Hold>, canvasWidth: real, canvasHeight: real)
    requires ResolvesInHolds(state, holds)
    ensures var pose := Pose(state, holds, canvasWidth, canvasHeight);
            var core := CoreFor(state, holds, canvasWidth, canvasHeight);
            var m := ModelFor(canvasHeight);
            && TorsoCorners <= pose.Keys
            && pose[ShoulderR] == Point(core.x + m.torsoWidth / 2.0, core.y)
            && pose[ShoulderL] == Point(core.x - m.torsoWidth / 2.0, core.y)
            && pose[HipR] == Point(core.x + m.torsoWidth / 2.0, core.y + m.torsoHeight)
            && pose[HipL] == Point(core.x - m.torsoWidth / 2.0, core.y + m.torsoHeight)
  {
    var byId := HoldCoordsById(holds, canvasWidth, canvasHeight);
    IndexResolves(state, holds, canvasWidth, canvasHeight);
    var core := CoreFor(state, holds, canvasWidth, canvasHeight);
    var limbCoords := LimbCoords(state, byId);
    var pose := Pose(state, holds, canvasWidth, canvasHeight);
    PoseUnfold(state, holds, canvasWidth, canvasHeight);
    var m := ModelFor(canvasHeight);
    ShapeTorso(core.x, core.y, m, limbCoords);
  }

  lemma ShapeTorso(coreX: real, coreY: real, m: CanvasModel, limbCoords: map<Limb, Point>)
    ensures var pose := Bends(Ends(CornersAt(coreX, coreY, m), limbCoords));
            && TorsoCorners <= pose.Keys
            && pose[ShoulderR] == Point(coreX + m.torsoWidth / 2.0, coreY)
            && pose[ShoulderL] == Point(coreX - m.torsoWidth / 2.0, coreY)
            && pose[HipR] == Point(coreX + m.torsoWidth / 2.0, coreY + m.torsoHeight)
            && pose[HipL] == Point(coreX - m.torsoWidth / 2.0, coreY + m.torsoHeight)
  {
    ShapeValues(coreX, coreY, m, limbCoords, RightHand);
    ShapeValues(coreX, coreY, m, limbCoords, LeftHand);
    ShapeValues(coreX, coreY, m, limbCoords, RightFoot);
    ShapeValues(coreX, coreY, m, limbCoords, LeftFoot);
  }

  /** A placed limb's hand or foot sits on the pixel of its hold, that of the
      last hold carrying the id; its elbow or knee is the midpoint of its
      shoulder or hip and that pixel, Bend pixels down for an arm and up for a
      leg. */
  lemma PoseLimb(state: ClimberState, holds: seq<Hold>, canvasWidth: real, canvasHeight: real, l: Limb)
    requires ResolvesInHolds(state, holds) && state.Get(l).Some?
    ensures state.Get(l).value in HoldCoordsById(holds, canvasWidth, canvasHeight)
    ensures var pose := Pose(state, holds, canvasWidth, canvasHeight);
            var hold := HoldCoordsById(holds, canvasWidth, canvasHeight)[state.Get(l).value];
            && Proximal(l) in pose && Middle(l) in pose && Distal(l) in pose
            && pose[Distal(l)] == hold
            && pose[Middle(l)] == BentMidpoint(pose[Proximal(l)], hold, l)
  {
    var byId := HoldCoordsById(holds, canvasWidth, canvasHeight);
    IndexResolves(state, holds, canvasWidth, canvasHeight);
    var core := CoreFor(state, holds, canvasWidth, canvasHeight);
    var limbCoords := LimbCoords(state, byId);
    var pose := Pose(state, holds, canvasWidth, canvasHeight);
    PoseUnfold(state, holds, canvasWidth, canvasHeight);
    CoordsOfPlaced(state, byId, l);
    ShapeValues(core.x, core.y, ModelFor(canvasHeight), limbCoords, l);
  }

  /** The hand or foot of a placed limb is put on the last hold in `holds`
      with the limb's id. */
  lemma PoseEndOnLastHold(state: ClimberState, holds: seq<Hold>, canvasWidth: real, canvasHeight: real, l: Limb, i: nat)
    requires ResolvesInHolds(state, holds) && state.Get(l).Some?
    requires i < |holds| && holds[i].id == state.Get(l).value
    requires forall k :: i < k < |holds| ==> holds[k].id != holds[i].id
    ensures var pose := Pose(state, holds, canvasWidth, canvasHeight);
            Distal(l) in pose && pose[Distal(l)] == ToPixels(holds[i].xNorm, holds[i].yNorm, canvasWidth, canvasHeight)
  {
    PoseLimb(state, holds, canvasWidth, canvasHeight, l);
    HoldIndexLastWins(holds, canvasWidth, canvasHeight, i);
  }

  /** A limb is stroked exactly when it is placed, as the polyline from its
      shoulder or hip through the bent midpoint to its hold. */
  lemma PoseStroke(state: ClimberState, holds: seq<Hold>, canvasWidth: real, canvasHeight: real, l: Limb)
    requires ResolvesInHolds(state, holds)
    ensures state.ResolvesIn(HoldCoordsById(holds, canvasWidth, canvasHeight))
    ensures var pose := Pose(state, holds, canvasWidth, canvasHeight);
            var stroke := LimbStroke(pose, l);
            && (stroke.Some? <==> state.Get(l).Some?)
            && (stroke.Some? ==> var hold := HoldCoordsById(holds, canvasWidth, canvasHeight)[state.Get(l).value];
                                 stroke.value == [pose[Proximal(l)], BentMidpoint(pose[Proximal(l)], hold, l), hold])
  {
    IndexResolves(state, holds, canvasWidth, canvasHeight);
    PoseKeys(state, holds, canvasWidth, canvasHeight);
    if state.Get(l).Some? {
      PoseLimb(state, holds, canvasWidth, canvasHeight, l);
    }
  }

  /** The body is sized by the canvas height: torso 0.30 tall and 0.15 wide,
      thigh 0.30, upper arm, forearm and shin 0.25 each; so the torso is twice
      as tall as it is wide, the thigh as long as the torso, and the other
      three segments equal. */
  lemma ModelProportions(canvasHeight: real)
    ensures var m := ModelFor(canvasHeight);
            && m.torsoWidth == 0.15 * canvasHeight && m.torsoHeight == 0.30 * canvasHeight
            && m.upperArmLength == 0.25 * canvasHeight
            && m.torsoHeight == 2.0 * m.torsoWidth && m.thighLength == m.torsoHeight
            && m.upperArmLength == m.forearmLength == m.shinLength
  {
  }

  /** One hold at the canvas centre under the right hand, on a 400 x 600
      canvas: the core sits 90 pixels above the hold, the hand on the hold
      and the elbow 20 pixels below the shoulder-hand midpoint. */
  lemma OneHandScenario()
    ensures Pose(ClimberState(Some(1), None, None, None), [Hold(1, 0.5, 0.5, StartHand)], 400.0, 600.0)
            == map[ShoulderR := Point(245.0, 210.0), ShoulderL := Point(155.0, 210.0),
                   HipR := Point(245.0, 390.0), HipL := Point(155.0, 390.0),
                   HandR := Point(200.0, 300.0), ElbowR := Point(222.5, 275.0)]
  {
    var state := ClimberState(Some(1), None, None, None);
    var holds := [Hold(1, 0.5, 0.5, StartHand)];
    ScenarioIndex();
    var byId := map[1 := Point(200.0, 300.0)];
    ScenarioCore();
    ScenarioLimbs();
    ScenarioShape();
    assert Pose(state, holds, 400.0, 600.0)
           == Bends(Ends(CornersAt(200.0, 210.0, ModelFor(600.0)), LimbCoords(state, byId)));
  }

  lemma ScenarioIndex()
    ensures ResolvesInHolds(ClimberState(Some(1), None, None, None), [Hold(1, 0.5, 0.5, StartHand)])
    ensures HoldCoordsById([Hold(1, 0.5, 0.5, StartHand)], 400.0, 600.0) == map[1 := Point(200.0, 300.0)]
  {
    var holds := [Hold(1, 0.5, 0.5, StartHand)];
    assert holds[0] in holds;
    assert holds[..0] == [];
  }

  lemma ScenarioCore()
    ensures ResolvesInHolds(ClimberState(Some(1), None, None, None), [Hold(1, 0.5, 0.5, StartHand)])
    ensures CoreFor(ClimberState(Some(1), None, None, None), [Hold(1, 0.5, 0.5, StartHand)], 400.0, 600.0)
            == Point(200.0, 210.0)
  {
    ScenarioIndex();
    var state := ClimberState(Some(1), None, None, None);
    var contacts := ContactPoints(state, map[1 := Point(200.0, 300.0)]);
    assert contacts == [Point(200.0, 300.0)];
    SumOfOptional(contacts, Point(200.0, 300.0));
  }

  lemma ScenarioLimbs()
    ensures LimbCoords(ClimberState(Some(1), None, None, None), map[1 := Point(200.0, 300.0)])
            == map[RightHand := Point(200.0, 300.0)]
  {
    var state := ClimberState(Some(1), None, None, None);
    var byId := map[1 := Point(200.0, 300.0)];
    CoordsOfPlaced(state, byId, RightHand);
    CoordsOfPlaced(state, byId, LeftHand);
    CoordsOfPlaced(state, byId, RightFoot);
    CoordsOfPlaced(state, byId, LeftFoot);
  }

  lemma ScenarioShape()
    ensures Bends(Ends(CornersAt(200.0, 210.0, ModelFor(600.0)), map[RightHand := Point(200.0, 300.0)]))
            == map[ShoulderR := Point(245.0, 210.0), ShoulderL := Point(155.0, 210.0),
                   HipR := Point(245.0, 390.0), HipL := Point(155.0, 390.0),
                   HandR := Point(200.0, 300.0), ElbowR := Point(222.5, 275.0)]
  {
    var m := ModelFor(600.0);
    assert m == CanvasModel(180.0, 90.0, 150.0, 150.0, 180.0, 150.0);
    var torso := CornersAt(200.0, 210.0, m);
    assert torso == map[ShoulderR := Point(245.0, 210.0), ShoulderL := Point(155.0, 210.0),
                        HipR := Point(245.0, 390.0), HipL := Point(155.0, 390.0)];
    var ends := Ends(torso, map[RightHand := Point(200.0, 300.0)]);
    assert ends == torso[HandR := Point(200.0, 300.0)];
    assert Bends(ends) == ends[ElbowR := Point(222.5, 275.0)];
  }
}
