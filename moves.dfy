/** Single-limb move generation
    (backend/beta_generator/src/beta_engine.py, `get_valid_moves`). */
module Moves {
  import opened Types
  import opened Route
  import opened Stability

  /** Moving limb `l` to hold `h` is a valid move: the hold is a different
      one, lifting the limb leaves a stable stance, the hold is within reach
      as judged from the current state, and the new state is stable. */
  predicate IsMove(hypot: (real, real) -> real, route: RouteData, state: ClimberState, l: Limb, h: int)
    requires state.ResolvesIn(route.coords) && h in route.coords
  {
    Stable(state.Set(l, None), route.coords) && Lands(hypot, route, state, l, h)
  }

  /** The checks made per hold once the lift-off is known to be stable. */
  predicate Lands(hypot: (real, real) -> real, route: RouteData, state: ClimberState, l: Limb, h: int)
    requires state.ResolvesIn(route.coords) && h in route.coords
  {
    && Some(h) != state.Get(l)
    && Reachable(hypot, route, l, h, state)
    && Stable(state.Set(l, Some(h)), route.coords)
  }

  /** The moves of limb `l` to the holds of `ids`, in list order, for a limb
      whose lift-off has already been found stable. */
  function MovesTo(hypot: (real, real) -> real, route: RouteData, state: ClimberState, l: Limb, ids: seq<int>): seq<ClimberState>
    requires state.ResolvesIn(route.coords)
    requires forall i :: 0 <= i < |ids| ==> ids[i] in route.coords
  {
    if ids == [] then []
    else
      var h := ids[|ids| - 1];
      MovesTo(hypot, route, state, l, ids[..|ids| - 1])
      + (if Lands(hypot, route, state, l, h) then [state.Set(l, Some(h))] else [])
  }

  /** The moves of the limbs of `limbs`, in list order. */
  function MovesOf(hypot: (real, real) -> real, route: RouteData, state: ClimberState, limbs: seq<Limb>): seq<ClimberState>
    requires route.WellFormed() && state.ResolvesIn(route.coords)
  {
    if limbs == [] then []
    else
      var l := limbs[|limbs| - 1];
      MovesOf(hypot, route, state, limbs[..|limbs| - 1]) + LimbBlock(hypot, route, state, l)
  }

  /** The moves of one limb: none when its lift-off is unstable. */
  function LimbBlock(hypot: (real, real) -> real, route: RouteData, state: ClimberState, l: Limb): seq<ClimberState>
    requires route.WellFormed() && state.ResolvesIn(route.coords)
  {
    if Stable(state.Set(l, None), route.coords) then MovesTo(hypot, route, state, l, route.holdIds) else []
  }

  /** All valid next states: right hand, left hand, right foot, left foot,
      each over the holds in input order. */
  function ValidMoves(hypot: (real, real) -> real, route: RouteData, state: ClimberState): seq<ClimberState>
    requires route.WellFormed() && state.ResolvesIn(route.coords)
  {
    MovesOf(hypot, route, state, AllLimbs)
  }

  /** `get_valid_moves`. */
  method GetValidMoves(hypot: (real, real) -> real, route: RouteData, state: ClimberState) returns (next: seq<ClimberState>)
    requires route.WellFormed() && state.ResolvesIn(route.coords)
    ensures next == ValidMoves(hypot, route, state)
  {
    next := [];
    var limbs := AllLimbs;
    for i := 0 to |limbs|
      invariant next == MovesOf(hypot, route, state, limbs[..i])
    {
      var l := limbs[i];
      assert limbs[..i + 1][..i] == limbs[..i];
      var liftedStable := IsStable(state.Set(l, None), route.coords);
      if liftedStable {
        var ms := LimbMoves(hypot, route, state, l);
        next := next + ms;
      }
    }
    assert limbs[..|limbs|] == limbs;
  }

  /** The inner loop of `get_valid_moves`: the holds limb `l` can move to. */
  method LimbMoves(hypot: (real, real) -> real, route: RouteData, state: ClimberState, l: Limb) returns (ms: seq<ClimberState>)
    requires route.WellFormed() && state.ResolvesIn(route.coords)
    ensures ms == MovesTo(hypot, route, state, l, route.holdIds)
  {
    ms := [];
    var ids := route.holdIds;
    for j := 0 to |ids|
      invariant ms == MovesTo(hypot, route, state, l, ids[..j])
    {
      var h := ids[j];
      MovesToSnoc(hypot, route, state, l, j);
      if Some(h) == state.Get(l) {
        continue;
      }
      var moved := state.Set(l, Some(h));
      if Reachable(hypot, route, l, h, state) {
        var movedStable := IsStable(moved, route.coords);
        if movedStable {
          ms := ms + [moved];
        }
      }
    }
    assert ids[..|ids|] == ids;
  }

  /** One more hold of the route scanned. */
  lemma MovesToSnoc(hypot: (real, real) -> real, route: RouteData, state: ClimberState, l: Limb, j: nat)
    requires route.WellFormed() && state.ResolvesIn(route.coords) && j < |route.holdIds|
    ensures var ids, h := route.holdIds, route.holdIds[j];
            MovesTo(hypot, route, state, l, ids[..j + 1])
            == MovesTo(hypot, route, state, l, ids[..j]) + (if Lands(hypot, route, state, l, h) then [state.Set(l, Some(h))] else [])
  {
    assert route.holdIds[..j + 1][..j] == route.holdIds[..j];
  }

  /** The members of `MovesTo` are exactly the valid moves of `l` to a hold
      of `ids`. */
  lemma MovesToMembers(hypot: (real, real) -> real, route: RouteData, state: ClimberState, l: Limb, ids: seq<int>, s: ClimberState)
    requires state.ResolvesIn(route.coords)
    requires forall i :: 0 <= i < |ids| ==> ids[i] in route.coords
    ensures s in MovesTo(hypot, route, state, l, ids)
            <==> exists h :: h in ids && h in route.coords && Lands(hypot, route, state, l, h) && s == state.Set(l, Some(h))
  {
    if s in MovesTo(hypot, route, state, l, ids) {
      MovesToSound(hypot, route, state, l, ids, s);
    }
    if exists h :: h in ids && h in route.coords && Lands(hypot, route, state, l, h) && s == state.Set(l, Some(h)) {
      var h :| h in ids && h in route.coords && Lands(hypot, route, state, l, h) && s == state.Set(l, Some(h));
      MovesToComplete(hypot, route, state, l, ids, h);
    }
  }

  /** Every member of `MovesTo` moves `l` to a hold of `ids` it lands on. */
  lemma {:induction false} MovesToSound(hypot: (real, real) -> real, route: RouteData, state: ClimberState, l: Limb, ids: seq<int>, s: ClimberState)
    requires state.ResolvesIn(route.coords)
    requires forall i :: 0 <= i < |ids| ==> ids[i] in route.coords
    requires s in MovesTo(hypot, route, state, l, ids)
    ensures exists h :: h in ids && h in route.coords && Lands(hypot, route, state, l, h) && s == state.Set(l, Some(h))
  {
    var init := ids[..|ids| - 1];
    var last := ids[|ids| - 1];
    assert ids == init + [last];
    if s in MovesTo(hypot, route, state, l, init) {
      MovesToSound(hypot, route, state, l, init, s);
      var h :| h in init && h in route.coords && Lands(hypot, route, state, l, h) && s == state.Set(l, Some(h));
      assert h in ids;
    } else {
      assert Lands(hypot, route, state, l, last) && s == state.Set(l, Some(last));
      assert last in ids;
    }
  }

  /** Every hold of `ids` that `l` lands on gives a member of `MovesTo`. */
  lemma {:induction false} MovesToComplete(hypot: (real, real) -> real, route: RouteData, state: ClimberState, l: Limb, ids: seq<int>, h: int)
    requires state.ResolvesIn(route.coords)
    requires forall i :: 0 <= i < |ids| ==> ids[i] in route.coords
    requires h in ids && h in route.coords && Lands(hypot, route, state, l, h)
    ensures state.Set(l, Some(h)) in MovesTo(hypot, route, state, l, ids)
  {
    var init := ids[..|ids| - 1];
    var last := ids[|ids| - 1];
    assert ids == init + [last];
    if h in init {
      MovesToComplete(hypot, route, state, l, init, h);
    }
  }

  lemma {:induction false} MovesOfMembers(hypot: (real, real) -> real, route: RouteData, state: ClimberState, limbs: seq<Limb>, s: ClimberState)
    requires route.WellFormed() && state.ResolvesIn(route.coords)
    ensures s in MovesOf(hypot, route, state, limbs) <==> exists l :: l in limbs && s in LimbBlock(hypot, route, state, l)
  {
    if limbs != [] {
      var init := limbs[..|limbs| - 1];
      var l := limbs[|limbs| - 1];
      assert limbs == init + [l];
      MovesOfMembers(hypot, route, state, init, s);
    }
  }

  /** The members of one limb's block are its valid moves. */
  lemma LimbBlockMembers(hypot: (real, real) -> real, route: RouteData, state: ClimberState, l: Limb, s: ClimberState)
    requires route.WellFormed() && state.ResolvesIn(route.coords)
    ensures s in LimbBlock(hypot, route, state, l)
            <==> exists h :: h in route.holdIds && h in route.coords && IsMove(hypot, route, state, l, h) && s == state.Set(l, Some(h))
  {
    MovesToMembers(hypot, route, state, l, route.holdIds, s);
  }

  /** A state is a valid move exactly when it moves one limb to a different
      listed hold such that the lift-off and the new state are stable and the
      hold is reachable from the current state. */
  lemma ValidMovesMembers(hypot: (real, real) -> real, route: RouteData, state: ClimberState, s: ClimberState)
    requires route.WellFormed() && state.ResolvesIn(route.coords)
    ensures s in ValidMoves(hypot, route, state)
            <==> exists l, h :: h in route.holdIds && h in route.coords
                                && IsMove(hypot, route, state, l, h) && s == state.Set(l, Some(h))
  {
    MovesOfMembers(hypot, route, state, AllLimbs, s);
    if s in ValidMoves(hypot, route, state) {
      var l :| l in AllLimbs && s in LimbBlock(hypot, route, state, l);
      LimbBlockMembers(hypot, route, state, l, s);
    }
    if exists l, h :: h in route.holdIds && h in route.coords
                      && IsMove(hypot, route, state, l, h) && s == state.Set(l, Some(h)) {
      var l, h :| h in route.holdIds && h in route.coords
                  && IsMove(hypot, route, state, l, h) && s == state.Set(l, Some(h));
      AllLimbsListed(l);
      LimbBlockMembers(hypot, route, state, l, s);
      assert s in LimbBlock(hypot, route, state, l);
    }
  }

  /** Every valid move changes exactly one limb, to a listed hold other than
      the one it was on, and keeps every hold reference resolvable; a limb
      that cannot be lifted stably never moves. */
  lemma ValidMoveShape(hypot: (real, real) -> real, route: RouteData, state: ClimberState, s: ClimberState)
    requires route.WellFormed() && state.ResolvesIn(route.coords)
    requires s in ValidMoves(hypot, route, state)
    ensures exists l :: s.Get(l) != state.Get(l)
                        && s.Get(l).Some? && s.Get(l).value in route.holdIds
                        && Stable(state.Set(l, None), route.coords)
                        && (forall m :: m != l ==> s.Get(m) == state.Get(m))
    ensures s.ResolvesIn(route.coords)
  {
    ValidMovesMembers(hypot, route, state, s);
    var l, h :| h in route.holdIds && h in route.coords
                && IsMove(hypot, route, state, l, h) && s == state.Set(l, Some(h));
    MovedShape(state, l, h, route.coords);
    MoveParts(hypot, route, state, l, h);
    assert s.Get(l) != state.Get(l) && s.Get(l).value in route.holdIds;
  }

  /** A valid move lifts a limb stably and puts it on a hold it was not on. */
  lemma MoveParts(hypot: (real, real) -> real, route: RouteData, state: ClimberState, l: Limb, h: int)
    requires state.ResolvesIn(route.coords) && h in route.coords
    requires IsMove(hypot, route, state, l, h)
    ensures Stable(state.Set(l, None), route.coords) && Some(h) != state.Get(l)
  {
  }

  /** Moving one limb to a known hold changes that limb only. */
  lemma MovedShape(state: ClimberState, l: Limb, h: int, coords: map<int, Point>)
    requires state.ResolvesIn(coords) && h in coords
    ensures var s := state.Set(l, Some(h));
            && s.ResolvesIn(coords)
            && s.Get(l) == Some(h)
            && forall m :: m != l ==> s.Get(m) == state.Get(m)
  {
    var s := state.Set(l, Some(h));
    forall m ensures s.Get(m).Some? ==> s.Get(m).value in coords {
      if m != l { assert s.Get(m) == state.Get(m); }
    }
  }

  /** The checks of a move, stated through the named reachability test. */
  lemma MoveChecksByName(hypot: (real, real) -> real, route: RouteData, state: ClimberState, l: Limb, h: int)
    requires state.ResolvesIn(route.coords) && h in route.coords
    requires IsMove(hypot, route, state, l, h)
    ensures IsReachable(hypot, route, LimbName(l), h, state) == Ok(true)
    ensures state.Set(l, Some(h)).ResolvesIn(route.coords)
  {
    IsReachableOutcomes(hypot, route, LimbName(l), h, state);
  }

  /** A state without contacts has no moves: every lift-off is unstable. */
  lemma NoMovesWithoutContacts(hypot: (real, real) -> real, route: RouteData)
    requires route.WellFormed()
    ensures EmptyState.ResolvesIn(route.coords)
    ensures ValidMoves(hypot, route, EmptyState) == []
  {
    forall l: Limb ensures !Stable(EmptyState.Set(l, None), route.coords) {
      assert EmptyState.Set(l, None) == EmptyState;
      assert LimbPoints(EmptyState, route.coords) == [];
    }
    var ms := ValidMoves(hypot, route, EmptyState);
    if ms != [] {
      ValidMovesMembers(hypot, route, EmptyState, ms[0]);
    }
  }
}
