/** Move cost, heuristic and A* search over climber states
    (backend/beta_generator/src/beta_engine.py, `heuristic`, `cost_between`
    and `a_star_search`). */
module Search {
  import opened Types
  import opened Route
  import opened Moves

  /** A real number or positive infinity (`float('inf')`). */
  datatype Ext = Fin(v: real) | PosInf

  predicate ExtLe(a: Ext, b: Ext)
  {
    b.PosInf? || (a.Fin? && a.v <= b.v)
  }

  function ExtMin(a: Ext, b: Ext): Ext
  {
    if ExtLe(a, b) then a else b
  }

  function MaxReal(a: real, b: real): real
  {
    if a >= b then a else b
  }

  /** The vertical gain the heuristic credits to one move. */
  const GainPerMove: real := 0.20
  /** The move length that costs nothing extra. */
  const FreeLength: real := 0.10
  /** The extra cost per unit of length beyond `FreeLength`. */
  const LengthPenalty: real := 5.0
  /** The extra cost of a move to a lower hold. */
  const DropPenalty: real := 0.5

  /** Both hands on the finish hold. */
  predicate IsGoal(route: RouteData, s: ClimberState)
  {
    s.RH == Some(route.finishId) && s.LH == Some(route.finishId)
  }

  /** The height of a hand's hold; infinite for a free hand. */
  function HandY(route: RouteData, state: ClimberState, hand: Limb): Ext
    requires state.ResolvesIn(route.coords)
  {
    match state.Get(hand)
    case Some(id) => Fin(route.coords[id].y)
    case None => PosInf
  }

  /** `heuristic`: 0 with both hands on the finish, 1 with one of them,
      otherwise the height still to gain by the higher hand (y grows
      downwards) divided by the gain per move. */
  function Heuristic(route: RouteData, state: ClimberState): Ext
    requires route.WellFormed() && state.ResolvesIn(route.coords)
  {
    if IsGoal(route, state) then Fin(0.0)
    else
      var finishY := route.coords[route.finishId].y;
      var highest := ExtMin(HandY(route, state, RightHand), HandY(route, state, LeftHand));
      var estimate := match highest
        case Fin(y) => Fin(MaxReal(0.0, y - finishY) / GainPerMove)
        case PosInf => PosInf;
      if state.RH == Some(route.finishId) || state.LH == Some(route.finishId) then Fin(1.0)
      else estimate
  }

  /** What the heuristic promises: never negative, 0 exactly at a goal,
      1 with exactly one hand on the finish, otherwise the remaining height
      of the higher held hand (a free hand counts as infinitely low) in units
      of the gain per move; infinite exactly when both hands are free. */
  lemma HeuristicValues(route: RouteData, state: ClimberState)
    requires route.WellFormed() && state.ResolvesIn(route.coords)
    ensures Heuristic(route, state).Fin? ==> Heuristic(route, state).v >= 0.0
    ensures IsGoal(route, state) ==> Heuristic(route, state) == Fin(0.0)
    ensures !IsGoal(route, state) && (state.RH == Some(route.finishId) || state.LH == Some(route.finishId))
            ==> Heuristic(route, state) == Fin(1.0)
    ensures Heuristic(route, state).PosInf? <==> state.RH.None? && state.LH.None?
    ensures state.RH != Some(route.finishId) && state.LH != Some(route.finishId) && state.RH.Some? && state.LH.Some?
            ==> var finishY := route.coords[route.finishId].y;
                var top := if route.coords[state.RH.value].y <= route.coords[state.LH.value].y
                           then route.coords[state.RH.value].y else route.coords[state.LH.value].y;
                Heuristic(route, state) == Fin(MaxReal(0.0, top - finishY) / GainPerMove)
    ensures state.RH.Some? && state.LH.None? && state.RH != Some(route.finishId)
            ==> Heuristic(route, state)
                == Fin(MaxReal(0.0, route.coords[state.RH.value].y - route.coords[route.finishId].y) / GainPerMove)
    ensures state.LH.Some? && state.RH.None? && state.LH != Some(route.finishId)
            ==> Heuristic(route, state)
                == Fin(MaxReal(0.0, route.coords[state.LH.value].y - route.coords[route.finishId].y) / GainPerMove)
  {
  }

  /** The first limb, in the order RH, LH, RF, LF, whose hold differs. */
  function FirstMoved(s1: ClimberState, s2: ClimberState): (m: Option<Limb>)
    ensures m.None? <==> s1 == s2
    ensures m.Some? ==> s1.Get(m.value) != s2.Get(m.value)
  {
    if s1.RH != s2.RH then Some(RightHand)
    else if s1.LH != s2.LH then Some(LeftHand)
    else if s1.RF != s2.RF then Some(RightFoot)
    else if s1.LF != s2.LF then Some(LeftFoot)
    else None
  }

  /** `cost_between`: 0 for the same state; an error when the moved limb
      was or becomes free; otherwise 1, plus a penalty for length beyond the
      free length, plus a penalty for moving down. */
  function CostBetween(hypot: (real, real) -> real, route: RouteData, s1: ClimberState, s2: ClimberState): Result<real>
    requires s1.ResolvesIn(route.coords) && s2.ResolvesIn(route.coords)
  {
    match FirstMoved(s1, s2)
    case None => Ok(0.0)
    case Some(l) =>
      if s1.Get(l).None? || s2.Get(l).None? then Err("Move must be from one hold to another")
      else
        var src := route.coords[s1.Get(l).value];
        var dst := route.coords[s2.Get(l).value];
        var extra := MaxReal(0.0, Dist(hypot, dst, src) - FreeLength) * LengthPenalty;
        Ok(1.0 + extra + (if dst.y > src.y then DropPenalty else 0.0))
  }

  /** The cost is 0 exactly for identical states and at least 1 for any
      real move; it fails exactly when the first moved limb was or becomes
      free. */
  lemma CostBounds(hypot: (real, real) -> real, route: RouteData, s1: ClimberState, s2: ClimberState)
    requires s1.ResolvesIn(route.coords) && s2.ResolvesIn(route.coords)
    ensures CostBetween(hypot, route, s1, s2) == Ok(0.0) <==> s1 == s2
    ensures s1 != s2 && CostBetween(hypot, route, s1, s2).Ok? ==> CostBetween(hypot, route, s1, s2).value >= 1.0
    ensures CostBetween(hypot, route, s1, s2).Err?
            <==> FirstMoved(s1, s2).Some?
                 && (s1.Get(FirstMoved(s1, s2).value).None? || s2.Get(FirstMoved(s1, s2).value).None?)
  {
    var c := CostBetween(hypot, route, s1, s2);
    if s1 != s2 && c.Ok? {
      var l := FirstMoved(s1, s2).value;
      var src := route.coords[s1.Get(l).value];
      var dst := route.coords[s2.Get(l).value];
      var extra := MaxReal(0.0, Dist(hypot, dst, src) - FreeLength) * LengthPenalty;
      assert extra >= 0.0;
    }
  }

  /** For a single-limb move between two holds: a move to a lower hold costs
      at least 1.5, and a move no longer than the free length that does not
      go down costs exactly 1. */
  lemma MoveCostCases(hypot: (real, real) -> real, route: RouteData, state: ClimberState, l: Limb, h: int)
    requires IsHypot(hypot) && state.ResolvesIn(route.coords) && h in route.coords
    requires state.Get(l).Some? && state.Get(l) != Some(h)
    ensures state.Set(l, Some(h)).ResolvesIn(route.coords)
    ensures var src, dst := route.coords[state.Get(l).value], route.coords[h];
            var c := CostBetween(hypot, route, state, state.Set(l, Some(h)));
            && c.Ok?
            && (dst.y > src.y ==> c.value >= 1.0 + DropPenalty)
            && (dst.y <= src.y && SqDist(dst, src) <= FreeLength * FreeLength ==> c.value == 1.0)
  {
    var s := state.Set(l, Some(h));
    MovedShape(state, l, h, route.coords);
    assert FirstMoved(state, s) == Some(l) by {
      var m := FirstMoved(state, s);
      assert m.Some?;
      assert state.Get(m.value) != s.Get(m.value);
    }
    var src, dst := route.coords[state.Get(l).value], route.coords[h];
    DistAtMost(hypot, dst, src, FreeLength);
    DistSquared(hypot, dst, src);
  }

  /** A move out of a free limb makes the cost computation fail. */
  lemma FreeLimbMoveFails(hypot: (real, real) -> real, route: RouteData, state: ClimberState, l: Limb, h: int)
    requires state.ResolvesIn(route.coords) && h in route.coords && state.Get(l).None?
    ensures state.Set(l, Some(h)).ResolvesIn(route.coords)
    ensures CostBetween(hypot, route, state, state.Set(l, Some(h))).Err?
  {
    var s := state.Set(l, Some(h));
    MovedShape(state, l, h, route.coords);
    assert FirstMoved(state, s) == Some(l) by {
      var m := FirstMoved(state, s);
      assert m.Some?;
      assert state.Get(m.value) != s.Get(m.value);
    }
  }

  // ---------------------------------------------------------------------
  // A*

  /** A frontier entry `(f, g, state)`. */
  datatype Entry = Entry(f: Ext, g: real, state: ClimberState)

  /** The answer of the search. `CostFailed` is the failed assertion of
      `cost_between`; `OutOfFuel` marks the iteration bound of the model. */
  datatype SearchResult = Found(path: seq<ClimberState>) | NoPath | CostFailed | OutOfFuel

  /** `s` is one of the valid moves of `p`. */
  predicate MoveOf(hypot: (real, real) -> real, route: RouteData, p: ClimberState, s: ClimberState)
    requires route.WellFormed()
  {
    p.ResolvesIn(route.coords) && s in ValidMoves(hypot, route, p)
  }

  /** `s` has been reached from `p` by a valid move, and is at least one
      unit dearer. */
  predicate ChildOf(hypot: (real, real) -> real, route: RouteData, costSoFar: map<ClimberState, real>, p: ClimberState, s: ClimberState)
    requires route.WellFormed() && s in costSoFar
  {
    p in costSoFar && MoveOf(hypot, route, p, s) && costSoFar[s] >= costSoFar[p] + 1.0
  }

  /** Every reached state resolves and has a non-negative cost; the start
      costs 0 and is the only state without a parent. */
  predicate CostsOk(route: RouteData, start: ClimberState,
                    cameFrom: map<ClimberState, Option<ClimberState>>, costSoFar: map<ClimberState, real>)
  {
    && start in costSoFar && costSoFar[start] == 0.0
    && cameFrom.Keys == costSoFar.Keys
    && (forall s :: s in costSoFar ==> s.ResolvesIn(route.coords) && costSoFar[s] >= 0.0)
    && (forall s :: s in cameFrom ==> (cameFrom[s].None? <==> s == start))
  }

  /** Every recorded parent link is a valid move to a dearer state. */
  predicate ParentsOk(hypot: (real, real) -> real, route: RouteData,
                      cameFrom: map<ClimberState, Option<ClimberState>>, costSoFar: map<ClimberState, real>)
    requires route.WellFormed() && cameFrom.Keys == costSoFar.Keys
  {
    forall s :: s in cameFrom && cameFrom[s].Some? ==> ChildOf(hypot, route, costSoFar, cameFrom[s].value, s)
  }

  /** Every frontier entry names a reached state at no less than its cost. */
  predicate FrontierOk(costSoFar: map<ClimberState, real>, frontier: seq<Entry>)
  {
    forall e :: e in frontier ==> e.state in costSoFar && e.g >= costSoFar[e.state]
  }

  /** What holds of the search state between iterations. */
  predicate SearchInv(hypot: (real, real) -> real, route: RouteData, start: ClimberState,
                      cameFrom: map<ClimberState, Option<ClimberState>>, costSoFar: map<ClimberState, real>,
                      frontier: seq<Entry>)
    requires route.WellFormed()
  {
    && CostsOk(route, start, cameFrom, costSoFar)
    && ParentsOk(hypot, route, cameFrom, costSoFar)
    && FrontierOk(costSoFar, frontier)
  }

  /** One step of a path found by the search. */
  predicate Step(hypot: (real, real) -> real, route: RouteData, path: seq<ClimberState>, i: int)
    requires route.WellFormed() && 0 <= i < |path| - 1
  {
    MoveOf(hypot, route, path[i], path[i + 1])
  }

  /** A path from `start` to a goal in which each state is a valid move of
      the one before. */
  predicate IsPath(hypot: (real, real) -> real, route: RouteData, start: ClimberState, path: seq<ClimberState>)
    requires route.WellFormed()
  {
    && |path| >= 1
    && path[0] == start
    && IsGoal(route, path[|path| - 1])
    && forall i :: 0 <= i < |path| - 1 ==> Step(hypot, route, path, i)
  }

  /** The index of an entry with the least `f` (the heap's pop; ties are
      broken by position rather than by comparing states). */
  method PopMin(frontier: seq<Entry>) returns (i: nat)
    requires frontier != []
    ensures i < |frontier|
    ensures forall j :: 0 <= j < |frontier| ==> ExtLe(frontier[i].f, frontier[j].f)
  {
    i := 0;
    for j := 1 to |frontier|
      invariant i < j
      invariant forall k :: 0 <= k < j ==> ExtLe(frontier[i].f, frontier[k].f)
    {
      if !ExtLe(frontier[i].f, frontier[j].f) {
        i := j;
      }
    }
  }

  /** Walking the parent links back from `goal` and reversing the walk. */
  method Reconstruct(hypot: (real, real) -> real, route: RouteData, start: ClimberState,
                     cameFrom: map<ClimberState, Option<ClimberState>>, costSoFar: map<ClimberState, real>,
                     frontier: seq<Entry>, goal: ClimberState)
    returns (path: seq<ClimberState>)
    requires route.WellFormed() && SearchInv(hypot, route, start, cameFrom, costSoFar, frontier)
    requires goal in cameFrom
    ensures |path| >= 1 && path[0] == start && path[|path| - 1] == goal
    ensures forall i :: 0 <= i < |path| - 1 ==> Step(hypot, route, path, i)
    ensures goal == start ==> path == [start]
  {
    var back := [goal];
    var curr := goal;
    while cameFrom[curr].Some?
      invariant curr in cameFrom && |back| >= 1 && back[0] == goal && back[|back| - 1] == curr
      invariant BackLinked(hypot, route, back)
      invariant goal == start ==> back == [goal]
      decreases costSoFar[curr].Floor
    {
      var parent := cameFrom[curr].value;
      ParentLink(hypot, route, start, cameFrom, costSoFar, frontier, curr);
      BackLinkedSnoc(hypot, route, back, parent);
      back := back + [parent];
      curr := parent;
    }
    assert curr == start;
    path := Reversed(back);
    assert goal == start ==> path == [start];
    ReversedSteps(hypot, route, back);
  }

  /** Each state of `back` is a valid move of the state after it. */
  predicate BackLinked(hypot: (real, real) -> real, route: RouteData, back: seq<ClimberState>)
    requires route.WellFormed()
  {
    forall i :: 0 <= i < |back| - 1 ==> MoveOf(hypot, route, back[i + 1], back[i])
  }

  lemma BackLinkedSnoc(hypot: (real, real) -> real, route: RouteData, back: seq<ClimberState>, parent: ClimberState)
    requires route.WellFormed() && |back| >= 1 && BackLinked(hypot, route, back)
    requires MoveOf(hypot, route, parent, back[|back| - 1])
    ensures BackLinked(hypot, route, back + [parent])
  {
    var longer := back + [parent];
    forall i | 0 <= i < |longer| - 1 ensures MoveOf(hypot, route, longer[i + 1], longer[i]) {
      assert longer[i] == back[i];
      if i + 1 < |back| {
        assert longer[i + 1] == back[i + 1];
      }
    }
  }

  /** A backward walk along parent links, reversed, steps forward by valid
      moves. */
  lemma ReversedSteps(hypot: (real, real) -> real, route: RouteData, back: seq<ClimberState>)
    requires route.WellFormed() && BackLinked(hypot, route, back)
    ensures forall i :: 0 <= i < |back| - 1 ==> Step(hypot, route, Reversed(back), i)
  {
    var path := Reversed(back);
    forall i | 0 <= i < |path| - 1 ensures Step(hypot, route, path, i) {
      var k := |back| - 2 - i;
      assert path[i] == back[k + 1] && path[i + 1] == back[k];
    }
  }

  /** Following a parent link reaches a cheaper recorded state by a valid
      move. */
  lemma ParentLink(hypot: (real, real) -> real, route: RouteData, start: ClimberState,
                   cameFrom: map<ClimberState, Option<ClimberState>>, costSoFar: map<ClimberState, real>,
                   frontier: seq<Entry>, s: ClimberState)
    requires route.WellFormed() && SearchInv(hypot, route, start, cameFrom, costSoFar, frontier)
    requires s in cameFrom && cameFrom[s].Some?
    ensures var p := cameFrom[s].value;
            && p in cameFrom && MoveOf(hypot, route, p, s)
            && 0 <= costSoFar[p].Floor < costSoFar[s].Floor
  {
    var p := cameFrom[s].value;
    assert ChildOf(hypot, route, costSoFar, p, s);
    assert costSoFar[p] >= 0.0;
  }

  /** The `f` of a state reached at cost `g`. */
  function FScore(route: RouteData, g: real, s: ClimberState): Ext
    requires route.WellFormed() && s.ResolvesIn(route.coords)
  {
    match Heuristic(route, s)
    case Fin(h) => Fin(g + h)
    case PosInf => PosInf
  }

  /** The cost of the move from `current` to `s` can be computed. */
  predicate CostDefined(hypot: (real, real) -> real, route: RouteData, current: ClimberState, s: ClimberState)
    requires current.ResolvesIn(route.coords)
  {
    s.ResolvesIn(route.coords) && CostBetween(hypot, route, current, s).Ok?
  }

  predicate CostsDefined(hypot: (real, real) -> real, route: RouteData, current: ClimberState, ms: seq<ClimberState>)
    requires current.ResolvesIn(route.coords)
  {
    forall j :: 0 <= j < |ms| ==> CostDefined(hypot, route, current, ms[j])
  }

  /** The relaxation loop over the moves of `current`, expanded at its
      recorded cost `g`. It fails exactly when some move's cost fails;
      otherwise the invariant is kept, no recorded cost rises, and every
      state already reached stays reached. */
  method Relax(hypot: (real, real) -> real, route: RouteData, start: ClimberState,
               cameFrom: map<ClimberState, Option<ClimberState>>, costSoFar: map<ClimberState, real>,
               frontier: seq<Entry>, current: ClimberState, g: real, moves: seq<ClimberState>)
    returns (ok: bool, cameFrom': map<ClimberState, Option<ClimberState>>, costSoFar': map<ClimberState, real>,
             frontier': seq<Entry>)
    requires route.WellFormed() && SearchInv(hypot, route, start, cameFrom, costSoFar, frontier)
    requires current in costSoFar && g == costSoFar[current]
    requires moves == ValidMoves(hypot, route, current)
    ensures ok <==> CostsDefined(hypot, route, current, moves)
    ensures ok ==> SearchInv(hypot, route, start, cameFrom', costSoFar', frontier')
    ensures ok ==> NoDearer(costSoFar, costSoFar')
    ensures ok ==> AllReached(moves, costSoFar')
  {
    cameFrom', costSoFar', frontier' := cameFrom, costSoFar, frontier;
    for k := 0 to |moves|
      invariant SearchInv(hypot, route, start, cameFrom', costSoFar', frontier')
      invariant current in costSoFar' && costSoFar'[current] == g
      invariant NoDearer(costSoFar, costSoFar')
      invariant CostsDefined(hypot, route, current, moves[..k])
      invariant AllReached(moves[..k], costSoFar')
    {
      var next := moves[k];
      assert MoveOf(hypot, route, current, next);
      var stepOk, cf, cs, fr := RelaxMove(hypot, route, start, cameFrom', costSoFar', frontier', current, g, next);
      if !stepOk {
        assert !CostDefined(hypot, route, current, moves[k]);
        ok := false;
        return;
      }
      StepKeeps(hypot, route, current, costSoFar, costSoFar', cs, moves, k);
      cameFrom', costSoFar', frontier' := cf, cs, fr;
    }
    assert moves[..|moves|] == moves;
    ok := true;
  }

  /** One pass of the relaxation loop: compute the cost of the move to
      `next` and record it when it is the first or a cheaper way there. */
  method RelaxMove(hypot: (real, real) -> real, route: RouteData, start: ClimberState,
                   cameFrom: map<ClimberState, Option<ClimberState>>, costSoFar: map<ClimberState, real>,
                   frontier: seq<Entry>, current: ClimberState, g: real, next: ClimberState)
    returns (ok: bool, cameFrom': map<ClimberState, Option<ClimberState>>, costSoFar': map<ClimberState, real>,
             frontier': seq<Entry>)
    requires route.WellFormed() && SearchInv(hypot, route, start, cameFrom, costSoFar, frontier)
    requires current in costSoFar && g == costSoFar[current]
    requires MoveOf(hypot, route, current, next)
    ensures ok <==> CostDefined(hypot, route, current, next)
    ensures ok ==> && SearchInv(hypot, route, start, cameFrom', costSoFar', frontier')
                   && current in costSoFar' && costSoFar'[current] == g
                   && next in costSoFar'
                   && NoDearer(costSoFar, costSoFar')
  {
    MoveDiffers(hypot, route, current, next);
    cameFrom', costSoFar', frontier' := cameFrom, costSoFar, frontier;
    var cost := CostBetween(hypot, route, current, next);
    if cost.Err? {
      ok := false;
      return;
    }
    ok := true;
    CostBounds(hypot, route, current, next);
    var newCost := g + cost.value;
    if next !in costSoFar || newCost < costSoFar[next] {
      RelaxKeeps(hypot, route, start, cameFrom, costSoFar, frontier, current, next, newCost);
      RecordKeeps(costSoFar, next, newCost);
      costSoFar' := costSoFar[next := newCost];
      cameFrom' := cameFrom[next := Some(current)];
      frontier' := frontier + [Entry(FScore(route, newCost, next), newCost, next)];
    }
  }

  /** A pass that succeeded carries the loop's bookkeeping one move on. */
  lemma StepKeeps(hypot: (real, real) -> real, route: RouteData, current: ClimberState,
                  base: map<ClimberState, real>, cs: map<ClimberState, real>, cs': map<ClimberState, real>,
                  moves: seq<ClimberState>, k: nat)
    requires current.ResolvesIn(route.coords) && k < |moves|
    requires NoDearer(base, cs) && NoDearer(cs, cs')
    requires CostsDefined(hypot, route, current, moves[..k]) && CostDefined(hypot, route, current, moves[k])
    requires AllReached(moves[..k], cs) && moves[k] in cs'
    ensures NoDearer(base, cs')
    ensures CostsDefined(hypot, route, current, moves[..k + 1])
    ensures AllReached(moves[..k + 1], cs')
  {
    assert moves[..k + 1] == moves[..k] + [moves[k]];
    forall s | s in base ensures s in cs' && cs'[s] <= base[s] {
      assert s in cs;
    }
    var ms, init := moves[..k + 1], moves[..k];
    forall j | 0 <= j < |ms| ensures ms[j] in cs' {
      if j < k { assert ms[j] == init[j]; }
    }
  }

  /** No recorded cost of `costSoFar` is missing from or lower than in
      `costSoFar'`. */
  predicate NoDearer(costSoFar: map<ClimberState, real>, costSoFar': map<ClimberState, real>)
  {
    forall s :: s in costSoFar ==> s in costSoFar' && costSoFar'[s] <= costSoFar[s]
  }

  predicate AllReached(ms: seq<ClimberState>, costSoFar: map<ClimberState, real>)
  {
    forall j :: 0 <= j < |ms| ==> ms[j] in costSoFar
  }

  /** Recording a lower or first cost for `next` raises no cost. */
  lemma RecordKeeps(costSoFar: map<ClimberState, real>, next: ClimberState, newCost: real)
    requires next !in costSoFar || newCost < costSoFar[next]
    ensures NoDearer(costSoFar, costSoFar[next := newCost])
  {
  }

  /** A valid move is another state, and resolves. */
  lemma MoveDiffers(hypot: (real, real) -> real, route: RouteData, current: ClimberState, next: ClimberState)
    requires route.WellFormed() && MoveOf(hypot, route, current, next)
    ensures next != current && next.ResolvesIn(route.coords)
  {
    ValidMoveShape(hypot, route, current, next);
  }

  /** Recording a cheaper cost for a valid move of `current` keeps the
      invariant. */
  lemma RelaxKeeps(hypot: (real, real) -> real, route: RouteData, start: ClimberState,
                   cameFrom: map<ClimberState, Option<ClimberState>>, costSoFar: map<ClimberState, real>,
                   frontier: seq<Entry>, current: ClimberState, next: ClimberState, newCost: real)
    requires route.WellFormed() && SearchInv(hypot, route, start, cameFrom, costSoFar, frontier)
    requires current in costSoFar && MoveOf(hypot, route, current, next) && next != current
    requires next.ResolvesIn(route.coords)
    requires newCost >= costSoFar[current] + 1.0
    requires next !in costSoFar || newCost < costSoFar[next]
    ensures next != start
    ensures SearchInv(hypot, route, start, cameFrom[next := Some(current)], costSoFar[next := newCost],
                      frontier + [Entry(FScore(route, newCost, next), newCost, next)])
  {
    var cf, cs := cameFrom[next := Some(current)], costSoFar[next := newCost];
    assert CostsOk(route, start, cf, cs);
    ParentsKept(hypot, route, cameFrom, costSoFar, current, next, newCost);
    FrontierKept(costSoFar, frontier, next, newCost, FScore(route, newCost, next));
  }

  lemma ParentsKept(hypot: (real, real) -> real, route: RouteData,
                    cameFrom: map<ClimberState, Option<ClimberState>>, costSoFar: map<ClimberState, real>,
                    current: ClimberState, next: ClimberState, newCost: real)
    requires route.WellFormed() && cameFrom.Keys == costSoFar.Keys && ParentsOk(hypot, route, cameFrom, costSoFar)
    requires current in costSoFar && MoveOf(hypot, route, current, next) && next != current
    requires newCost >= costSoFar[current] + 1.0
    requires next !in costSoFar || newCost < costSoFar[next]
    ensures ParentsOk(hypot, route, cameFrom[next := Some(current)], costSoFar[next := newCost])
  {
    var cf, cs := cameFrom[next := Some(current)], costSoFar[next := newCost];
    forall s | s in cf && cf[s].Some? ensures ChildOf(hypot, route, cs, cf[s].value, s) {
      if s != next {
        var p := cf[s].value;
        assert ChildOf(hypot, route, costSoFar, p, s);
        assert cs[p] <= costSoFar[p];
      }
    }
  }

  lemma FrontierKept(costSoFar: map<ClimberState, real>, frontier: seq<Entry>, next: ClimberState, newCost: real, f: Ext)
    requires FrontierOk(costSoFar, frontier)
    requires next !in costSoFar || newCost < costSoFar[next]
    ensures FrontierOk(costSoFar[next := newCost], frontier + [Entry(f, newCost, next)])
  {
    var cs := costSoFar[next := newCost];
    var fr := frontier + [Entry(f, newCost, next)];
    forall e | e in fr ensures e.state in cs && e.g >= cs[e.state] {
      if e != fr[|fr| - 1] {
        assert e in frontier;
      }
    }
  }

  /** `a_star_search` with at most `fuel` expansions. A found path starts at
      `start`, ends at a goal and moves by valid moves; a start that is
      already a goal is the whole path. */
  method AStarSearch(hypot: (real, real) -> real, route: RouteData, start: ClimberState, fuel: nat)
    returns (r: SearchResult)
    requires route.WellFormed() && start.ResolvesIn(route.coords)
    ensures r.Found? ==> IsPath(hypot, route, start, r.path)
    ensures IsGoal(route, start) ==> r == if fuel > 0 then Found([start]) else OutOfFuel
  {
    var frontier := [Entry(FScore(route, 0.0, start), 0.0, start)];
    var cameFrom: map<ClimberState, Option<ClimberState>> := map[start := None];
    var costSoFar: map<ClimberState, real> := map[start := 0.0];
    var budget := fuel;
    ghost var first := true;
    while frontier != []
      invariant SearchInv(hypot, route, start, cameFrom, costSoFar, frontier)
      invariant first ==> budget == fuel && frontier == [Entry(FScore(route, 0.0, start), 0.0, start)]
      invariant !first ==> !IsGoal(route, start)
      decreases budget
    {
      if budget == 0 {
        return OutOfFuel;
      }
      budget := budget - 1;
      var i := PopMin(frontier);
      var entry := frontier[i];
      assert entry in frontier;
      ghost var before := frontier;
      frontier := frontier[..i] + frontier[i + 1..];
      assert forall e :: e in frontier ==> e in before;
      var g, current := entry.g, entry.state;
      if g > costSoFar[current] {
        first := false;
        continue;
      }
      if IsGoal(route, current) {
        var path := Reconstruct(hypot, route, start, cameFrom, costSoFar, frontier, current);
        return Found(path);
      }
      first := false;
      var moves := GetValidMoves(hypot, route, current);
      var ok;
      ok, cameFrom, costSoFar, frontier := Relax(hypot, route, start, cameFrom, costSoFar, frontier, current, g, moves);
      if !ok {
        return CostFailed;
      }
    }
    return NoPath;
  }
}
