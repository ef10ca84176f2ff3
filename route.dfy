/** The planner's view of a route and its reachability test
    (backend/beta_generator/src/beta_engine.py, `is_reachable`). */
module Route {
  import opened Types
  import opened Climber

  /** The module globals the planner reads: the ids of the holds in input
      order, the coordinates of each hold, the climber's body lengths and
      the finish hold. */
  datatype RouteData = RouteData(holdIds: seq<int>, coords: map<int, Point>, dims: BodyDims, finishId: int)
  {
    /** Every listed hold and the finish hold have coordinates. */
    predicate WellFormed()
    {
      (forall i :: 0 <= i < |holdIds| ==> holdIds[i] in coords) && finishId in coords
    }
  }

  /** The slack added to a limb's reach. */
  const ReachSlack: real := 0.000001

  /** The limb names the planner uses. */
  function LimbName(l: Limb): string
  {
    match l
    case RightHand => "RH"
    case LeftHand => "LH"
    case RightFoot => "RF"
    case LeftFoot => "LF"
  }

  /** The limb a name denotes, if any. */
  function ParseLimb(name: string): Option<Limb>
  {
    if name == "RH" then Some(RightHand)
    else if name == "LH" then Some(LeftHand)
    else if name == "RF" then Some(RightFoot)
    else if name == "LF" then Some(LeftFoot)
    else None
  }

  /** Names and limbs correspond one to one. */
  lemma LimbNamesRoundTrip(l: Limb, name: string)
    ensures ParseLimb(LimbName(l)) == Some(l)
    ensures ParseLimb(name).Some? ==> LimbName(ParseLimb(name).value) == name
    ensures ParseLimb(name).None? <==> name !in ["RH", "LH", "RF", "LF"]
  {
  }

  /** `ids` extended by `h` unless `h` is empty or already listed. */
  function AddId(ids: seq<int>, h: Option<int>): seq<int>
  {
    if h.Some? && h.value !in ids then ids + [h.value] else ids
  }

  /** The set `{state.RH, state.LH, state.RF, state.LF}` without `None`,
      listed in first-occurrence order. */
  function HeldIds(state: ClimberState): seq<int>
  {
    AddId(AddId(AddId(AddId([], state.RH), state.LH), state.RF), state.LF)
  }

  /** The held ids are distinct and are exactly the holds some limb is on. */
  lemma HeldIdsAreTheHolds(state: ClimberState)
    ensures forall i, j :: 0 <= i < j < |HeldIds(state)| ==> HeldIds(state)[i] != HeldIds(state)[j]
    ensures forall x :: x in HeldIds(state) <==> exists l :: state.Get(l) == Some(x)
  {
    forall x ensures x in HeldIds(state) <==> exists l :: state.Get(l) == Some(x) {
      if x in HeldIds(state) {
        if state.RH == Some(x) { assert state.Get(RightHand) == Some(x); }
        else if state.LH == Some(x) { assert state.Get(LeftHand) == Some(x); }
        else if state.RF == Some(x) { assert state.Get(RightFoot) == Some(x); }
        else { assert state.Get(LeftFoot) == Some(x); }
      }
    }
  }

  /** The coordinates of the held holds. */
  function HeldPoints(ids: seq<int>, coords: map<int, Point>): (ps: seq<Point>)
    requires forall i :: 0 <= i < |ids| ==> ids[i] in coords
    ensures |ps| == |ids|
    ensures forall i :: 0 <= i < |ids| ==> ps[i] == coords[ids[i]]
  {
    if ids == [] then [] else HeldPoints(ids[..|ids| - 1], coords) + [coords[ids[|ids| - 1]]]
  }

  lemma HeldResolve(state: ClimberState, coords: map<int, Point>)
    requires state.ResolvesIn(coords)
    ensures forall i :: 0 <= i < |HeldIds(state)| ==> HeldIds(state)[i] in coords
  {
    HeldIdsAreTheHolds(state);
    forall i | 0 <= i < |HeldIds(state)| ensures HeldIds(state)[i] in coords {
      assert HeldIds(state)[i] in HeldIds(state);
    }
  }

  /** The estimated core: the mean of the distinct held holds, raised by half
      the torso height. A hold under two limbs counts once. */
  function ReachCore(state: ClimberState, coords: map<int, Point>, dims: BodyDims): Point
    requires state.ResolvesIn(coords) && HeldIds(state) != []
  {
    HeldResolve(state, coords);
    var ps := HeldPoints(HeldIds(state), coords);
    var n := |ps| as real;
    Point(SumX(ps) / n, SumY(ps) / n - dims.torsoHeight / 2.0)
  }

  /** The shoulder or hip the limb starts from. */
  function Anchor(l: Limb, core: Point, dims: BodyDims): Point
  {
    var x := if l.IsRight() then core.x + dims.torsoWidth / 2.0 else core.x - dims.torsoWidth / 2.0;
    if l.IsHand() then Point(x, core.y) else Point(x, core.y + dims.torsoHeight)
  }

  /** The sum of the two segment lengths of the limb. */
  function MaxReach(l: Limb, dims: BodyDims): real
  {
    if l.IsHand() then dims.upperArm + dims.forearm else dims.thigh + dims.shin
  }

  /** `is_reachable` for one of the four limbs: false without contacts,
      otherwise whether the target is within the limb's reach of its anchor. */
  function Reachable(hypot: (real, real) -> real, route: RouteData, l: Limb, target: int, state: ClimberState): bool
    requires state.ResolvesIn(route.coords) && target in route.coords
  {
    if HeldIds(state) == [] then false
    else
      var anchor := Anchor(l, ReachCore(state, route.coords, route.dims), route.dims);
      Dist(hypot, route.coords[target], anchor) <= MaxReach(l, route.dims) + ReachSlack
  }

  /** `is_reachable` on a limb given by name: an unknown name raises an
      error, but only once the contact check has passed. */
  function IsReachable(hypot: (real, real) -> real, route: RouteData, limb: string, target: int, state: ClimberState): (r: Result<bool>)
    requires state.ResolvesIn(route.coords) && target in route.coords
  {
    if HeldIds(state) == [] then Ok(false)
    else match ParseLimb(limb)
      case None => Err("Unknown limb: " + limb)
      case Some(l) => Ok(Reachable(hypot, route, l, target, state))
  }

  /** The three outcomes of the named test. */
  lemma IsReachableOutcomes(hypot: (real, real) -> real, route: RouteData, limb: string, target: int, state: ClimberState)
    requires state.ResolvesIn(route.coords) && target in route.coords
    ensures HeldIds(state) == [] ==> IsReachable(hypot, route, limb, target, state) == Ok(false)
    ensures IsReachable(hypot, route, limb, target, state).Err? <==> HeldIds(state) != [] && limb !in ["RH", "LH", "RF", "LF"]
    ensures forall l :: limb == LimbName(l) ==> IsReachable(hypot, route, limb, target, state) == Ok(Reachable(hypot, route, l, target, state))
  {
    LimbNamesRoundTrip(RightHand, limb);
  }

  /** With contacts and a non-negative reach, the target is reachable
      exactly when its squared distance from the anchor is at most the
      squared reach (slack included). */
  lemma ReachableBySquares(hypot: (real, real) -> real, route: RouteData, l: Limb, target: int, state: ClimberState)
    requires IsHypot(hypot) && state.ResolvesIn(route.coords) && target in route.coords
    requires HeldIds(state) != [] && MaxReach(l, route.dims) + ReachSlack >= 0.0
    ensures var anchor := Anchor(l, ReachCore(state, route.coords, route.dims), route.dims);
            var bound := MaxReach(l, route.dims) + ReachSlack;
            Reachable(hypot, route, l, target, state) <==> SqDist(route.coords[target], anchor) <= bound * bound
  {
    var anchor := Anchor(l, ReachCore(state, route.coords, route.dims), route.dims);
    DistAtMost(hypot, route.coords[target], anchor, MaxReach(l, route.dims) + ReachSlack);
  }

  /** Without contacts nothing is reachable. */
  lemma NoContactsNothingReachable(hypot: (real, real) -> real, route: RouteData, l: Limb, target: int)
    requires target in route.coords
    ensures EmptyState.ResolvesIn(route.coords)
    ensures !Reachable(hypot, route, l, target, EmptyState)
  {
  }

  /** Both hands on hold `a` and both feet on hold `b`: the core is the
      midpoint of the two holds, each counted once, raised by half the torso
      height. */
  lemma SharedHoldsCountOnce(route: RouteData, a: int, b: int)
    requires a in route.coords && b in route.coords && a != b
    ensures ClimberState(Some(a), Some(a), Some(b), Some(b)).ResolvesIn(route.coords)
    ensures var pa, pb := route.coords[a], route.coords[b];
            ReachCore(ClimberState(Some(a), Some(a), Some(b), Some(b)), route.coords, route.dims)
            == Point((pa.x + pb.x) / 2.0, (pa.y + pb.y) / 2.0 - route.dims.torsoHeight / 2.0)
  {
    var state := ClimberState(Some(a), Some(a), Some(b), Some(b));
    assert HeldIds(state) == [a, b];
    var pa, pb := route.coords[a], route.coords[b];
    var ps := HeldPoints([a, b], route.coords);
    assert ps == [pa, pb];
    SumOfTwo(pa, pb);
    assert |ps| as real == 2.0;
    assert ReachCore(state, route.coords, route.dims) == Point(SumX(ps) / 2.0, SumY(ps) / 2.0 - route.dims.torsoHeight / 2.0);
  }

  lemma SumOfTwo(p: Point, q: Point)
    ensures SumX([p, q]) == p.x + q.x && SumY([p, q]) == p.y + q.y
  {
    assert [p, q] == [p] + [q];
    SumAppend([p], [q]);
    SumOfOptional([p], p);
    SumOfOptional([q], q);
  }
}
