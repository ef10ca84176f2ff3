/** The annotator's hold and start-state manager: the holds placed on the
    image, the selected hold, the limbs of the start position, the finish
    hold and the counter that issues hold ids
    (frontend/FermataBeta/src/hooks/useHoldsManager.ts). */
module HoldsManager {
  import opened Types

  /** Every id is a counter value issued before `bound`. */
  predicate IdsBelow(holds: seq<Hold>, bound: int)
  {
    forall h :: h in holds ==> 0 <= h.id < bound
  }

  /** No two holds share an id. */
  predicate DistinctIds(holds: seq<Hold>)
  {
    forall i, j :: 0 <= i < j < |holds| ==> holds[i].id != holds[j].id
  }

  /** The holds with the hold `id` given type `t` (`prev.map(...)` in
      `assignHoldType`). */
  function Retype(holds: seq<Hold>, id: int, t: HoldType): (r: seq<Hold>)
    ensures |r| == |holds|
  {
    seq(|holds|, i requires 0 <= i < |holds| => if holds[i].id == id then holds[i].(holdType := t) else holds[i])
  }

  /** The type a start limb gives a plain climbing hold. */
  function StartType(limb: Limb): HoldType
  {
    if limb.IsHand() then StartHand else StartFoot
  }

  /** The holds with the hold `id` marked as a start hold for `limb`, but only
      if it is still a plain climbing hold (`prev.map(...)` in
      `assignLimbToHold`). */
  function Upgrade(holds: seq<Hold>, id: int, limb: Limb): (r: seq<Hold>)
    ensures |r| == |holds|
  {
    seq(|holds|, i requires 0 <= i < |holds| =>
      if holds[i].id == id && holds[i].holdType == ClimbingHold then holds[i].(holdType := StartType(limb)) else holds[i])
  }

  /** The holds whose id is not `id`, in their order (`prev.filter(...)`). */
  function Without(holds: seq<Hold>, id: int): (r: seq<Hold>)
    ensures |r| <= |holds|
  {
    if holds == [] then []
    else if holds[0].id == id then Without(holds[1..], id)
    else [holds[0]] + Without(holds[1..], id)
  }

  /** The start state with every limb on hold `id` taken off. */
  function ClearRefs(state: ClimberState, id: int): ClimberState
  {
    ClimberState(if state.RH == Some(id) then None else state.RH,
                 if state.LH == Some(id) then None else state.LH,
                 if state.RF == Some(id) then None else state.RF,
                 if state.LF == Some(id) then None else state.LF)
  }

  class HoldsManager {
    var holds: seq<Hold>
    var selectedHold: Option<int>
    var startState: ClimberState
    var finishHold: Option<int>
    var nextHoldId: nat

    /** Hold ids are pairwise distinct and all issued by the counter. */
    predicate Valid()
      reads this
    {
      DistinctIds(holds) && IdsBelow(holds, nextHoldId)
    }

    /** The start limbs and the finish hold refer to holds that exist. */
    predicate NoDangling()
      reads this
    {
      ResolvesInHolds(startState, holds) && (finishHold.Some? ==> finishHold.value in HoldIds(holds))
    }

    /** The selection, if any, is a hold that exists. */
    predicate SelectionResolves()
      reads this
    {
      selectedHold.Some? ==> selectedHold.value in HoldIds(holds)
    }

    /** The initial state of the hook. */
    constructor ()
      ensures holds == [] && selectedHold == None && startState == EmptyState
      ensures finishHold == None && nextHoldId == 0
      ensures Valid() && NoDangling() && SelectionResolves()
    {
      holds := [];
      selectedHold := None;
      startState := EmptyState;
      finishHold := None;
      nextHoldId := 0;
    }

    /** Appends a climbing hold with the next id, selects it and advances
        the counter. */
    method AddHold(xNorm: real, yNorm: real)
      modifies this
      ensures holds == old(holds) + [Hold(old(nextHoldId), xNorm, yNorm, ClimbingHold)]
      ensures selectedHold == Some(old(nextHoldId)) && nextHoldId == old(nextHoldId) + 1
      ensures startState == old(startState) && finishHold == old(finishHold)
      ensures old(Valid()) ==> old(nextHoldId) !in HoldIds(old(holds)) && Valid()
      ensures old(NoDangling()) ==> NoDangling()
      ensures SelectionResolves()
    {
      var newHold := Hold(nextHoldId, xNorm, yNorm, ClimbingHold);
      holds := holds + [newHold];
      selectedHold := Some(newHold.id);
      nextHoldId := nextHoldId + 1;
      assert newHold in holds;
      assert HoldIds(holds) == HoldIds(old(holds)) + {newHold.id};
    }

    /** Selects `holdId`, or clears the selection when `holdId` is already
        selected. */
    method SelectHold(holdId: Option<int>)
      modifies this
      ensures selectedHold == (if old(selectedHold) == holdId then None else holdId)
      ensures holds == old(holds) && startState == old(startState)
      ensures finishHold == old(finishHold) && nextHoldId == old(nextHoldId)
      ensures (holdId.Some? ==> holdId.value in HoldIds(holds)) ==> SelectionResolves()
    {
      selectedHold := if selectedHold == holdId then None else holdId;
    }

    /** Gives the selected hold type `t`, records it as the finish hold when
        `t` is the finish type, and clears the selection; nothing happens
        without a selection. */
    method AssignHoldType(t: HoldType)
      modifies this
      ensures old(selectedHold).None? ==> holds == old(holds) && selectedHold == old(selectedHold)
                                           && finishHold == old(finishHold)
      ensures old(selectedHold).Some? ==>
                && holds == Retype(old(holds), old(selectedHold).value, t)
                && finishHold == (if t == FinishHold then old(selectedHold) else old(finishHold))
                && selectedHold == None
      ensures startState == old(startState) && nextHoldId == old(nextHoldId)
      ensures old(Valid()) ==> Valid()
      ensures old(NoDangling()) && old(SelectionResolves()) ==> NoDangling()
    {
      if selectedHold == None {
        return;
      }
      var id := selectedHold.value;
      RetypeKeepsIds(holds, id, t);
      holds := Retype(holds, id, t);
      if t == FinishHold {
        finishHold := selectedHold;
      }
      selectedHold := None;
    }

    /** Puts `limb` on the selected hold, marks that hold as a start hold if
        it was a plain climbing hold, and clears the selection; nothing
        happens without a selection. */
    method AssignLimbToHold(limb: Limb)
      modifies this
      ensures old(selectedHold).None? ==> holds == old(holds) && selectedHold == old(selectedHold)
                                           && startState == old(startState)
      ensures old(selectedHold).Some? ==>
                && startState == old(startState).Set(limb, old(selectedHold))
                && holds == Upgrade(old(holds), old(selectedHold).value, limb)
                && selectedHold == None
      ensures finishHold == old(finishHold) && nextHoldId == old(nextHoldId)
      ensures old(Valid()) ==> Valid()
      ensures old(NoDangling()) && old(SelectionResolves()) ==> NoDangling()
    {
      if selectedHold == None {
        return;
      }
      var id := selectedHold.value;
      startState := startState.Set(limb, selectedHold);
      UpgradeKeepsIds(holds, id, limb, nextHoldId);
      holds := Upgrade(holds, id, limb);
      selectedHold := None;
    }

    /** Deletes the selected hold, takes every limb off it, forgets it as the
        finish hold and clears the selection; the counter is left alone, so
        the id is not issued again. Nothing happens without a selection. */
    method RemoveSelectedHold()
      modifies this
      ensures old(selectedHold).None? ==> holds == old(holds) && startState == old(startState)
                                           && finishHold == old(finishHold) && selectedHold == old(selectedHold)
      ensures old(selectedHold).Some? ==>
                var id := old(selectedHold).value;
                && holds == Without(old(holds), id)
                && startState == ClearRefs(old(startState), id)
                && finishHold == (if old(finishHold) == Some(id) then None else old(finishHold))
                && selectedHold == None
                && id !in HoldIds(holds)
      ensures nextHoldId == old(nextHoldId)
      ensures old(Valid()) ==> Valid()
      ensures old(NoDangling()) ==> NoDangling()
    {
      if selectedHold == None {
        return;
      }
      var id := selectedHold.value;
      WithoutIds(holds, id);
      WithoutKeepsDistinct(holds, id);
      holds := Without(holds, id);
      var updated := startState;
      for i := 0 to |AllLimbs|
        invariant forall l :: updated.Get(l) == (if l in AllLimbs[..i] && startState.Get(l) == Some(id) then None else startState.Get(l))
      {
        var limb := AllLimbs[i];
        if updated.Get(limb) == Some(id) {
          updated := updated.Set(limb, None);
        }
        assert AllLimbs[..i + 1] == AllLimbs[..i] + [limb];
      }
      assert AllLimbs[..|AllLimbs|] == AllLimbs;
      forall l ensures updated.Get(l) == ClearRefs(startState, id).Get(l) { AllLimbsListed(l); }
      StateExtensionality(updated, ClearRefs(startState, id));
      startState := updated;
      if finishHold == Some(id) {
        finishHold := None;
      }
      selectedHold := None;
    }

    /** Back to the initial state, the counter included. */
    method ResetState()
      modifies this
      ensures holds == [] && selectedHold == None && startState == EmptyState
      ensures finishHold == None && nextHoldId == 0
      ensures Valid() && NoDangling() && SelectionResolves()
    {
      holds := [];
      selectedHold := None;
      startState := EmptyState;
      finishHold := None;
      nextHoldId := 0;
    }
  }

  /** Retyping keeps every hold's id and position and changes only the type
      of the holds with the given id. */
  lemma RetypeKeepsIds(holds: seq<Hold>, id: int, t: HoldType)
    ensures HoldIds(Retype(holds, id, t)) == HoldIds(holds)
    ensures DistinctIds(holds) ==> DistinctIds(Retype(holds, id, t))
    ensures forall h :: h in Retype(holds, id, t) ==> exists g :: g in holds && g.id == h.id
  {
    var r := Retype(holds, id, t);
    forall x | x in HoldIds(holds) ensures x in HoldIds(r) {
      var i :| 0 <= i < |holds| && holds[i].id == x;
      assert r[i].id == x;
    }
    forall x | x in HoldIds(r) ensures x in HoldIds(holds) {
      var i :| 0 <= i < |r| && r[i].id == x;
      assert holds[i].id == x;
    }
    forall h | h in r ensures exists g :: g in holds && g.id == h.id {
      var i :| 0 <= i < |r| && r[i] == h;
      assert holds[i] in holds;
    }
  }

  /** Marking a start hold keeps every hold's id. */
  lemma UpgradeKeepsIds(holds: seq<Hold>, id: int, limb: Limb, bound: int)
    ensures HoldIds(Upgrade(holds, id, limb)) == HoldIds(holds)
    ensures DistinctIds(holds) ==> DistinctIds(Upgrade(holds, id, limb))
    ensures IdsBelow(holds, bound) ==> IdsBelow(Upgrade(holds, id, limb), bound)
  {
    var r := Upgrade(holds, id, limb);
    forall x | x in HoldIds(holds) ensures x in HoldIds(r) {
      var i :| 0 <= i < |holds| && holds[i].id == x;
      assert r[i].id == x;
    }
    forall x | x in HoldIds(r) ensures x in HoldIds(holds) {
      var i :| 0 <= i < |r| && r[i].id == x;
      assert holds[i].id == x;
    }
    if IdsBelow(holds, bound) {
      forall h | h in r ensures 0 <= h.id < bound {
        var i :| 0 <= i < |r| && r[i] == h;
        assert holds[i] in holds;
      }
    }
  }

  /** The filtered list holds exactly the holds with another id. */
  lemma {:induction false} WithoutIds(holds: seq<Hold>, id: int)
    ensures forall h :: h in Without(holds, id) <==> h in holds && h.id != id
    ensures HoldIds(Without(holds, id)) == HoldIds(holds) - {id}
  {
    if holds != [] {
      WithoutIds(holds[1..], id);
      assert holds == [holds[0]] + holds[1..];
      assert HoldIds(holds) == {holds[0].id} + HoldIds(holds[1..]);
      if holds[0].id != id {
        assert HoldIds(Without(holds, id)) == {holds[0].id} + HoldIds(Without(holds[1..], id));
      }
    }
  }

  /** Filtering keeps the ids distinct, and with distinct ids it removes
      exactly one hold when the id is present. */
  lemma {:induction false} WithoutKeepsDistinct(holds: seq<Hold>, id: int)
    ensures DistinctIds(holds) ==> DistinctIds(Without(holds, id))
    ensures DistinctIds(holds) && id in HoldIds(holds) ==> |Without(holds, id)| == |holds| - 1
    ensures id !in HoldIds(holds) ==> Without(holds, id) == holds
  {
    if holds != [] {
      var rest := holds[1..];
      WithoutKeepsDistinct(rest, id);
      assert holds == [holds[0]] + rest;
      assert HoldIds(holds) == {holds[0].id} + HoldIds(rest);
      if DistinctIds(holds) {
        DistinctSplit(holds);
        if holds[0].id != id {
          WithoutIds(rest, id);
          DistinctCons(holds[0], Without(rest, id));
        }
      }
    }
  }

  /** A list with distinct ids has a tail with distinct ids, and its head's
      id does not occur in the tail. */
  lemma DistinctSplit(holds: seq<Hold>)
    requires holds != [] && DistinctIds(holds)
    ensures DistinctIds(holds[1..]) && holds[0].id !in HoldIds(holds[1..])
  {
    var rest := holds[1..];
    forall i, j | 0 <= i < j < |rest| ensures rest[i].id != rest[j].id {
      assert rest[i] == holds[i + 1] && rest[j] == holds[j + 1];
    }
    forall k | 0 <= k < |rest| ensures rest[k].id != holds[0].id {
      assert rest[k] == holds[k + 1];
    }
  }

  /** Putting a hold with a fresh id in front keeps the ids distinct. */
  lemma DistinctCons(h: Hold, w: seq<Hold>)
    requires DistinctIds(w) && h.id !in HoldIds(w)
    ensures DistinctIds([h] + w)
  {
    var c := [h] + w;
    forall i, j | 0 <= i < j < |c| ensures c[i].id != c[j].id {
      assert c[j] == w[j - 1];
      assert w[j - 1] in w;
      if i > 0 { assert c[i] == w[i - 1]; }
    }
  }

  /** After taking limbs off hold `id`, no limb is on it and every other limb
      is where it was. */
  lemma ClearRefsSpec(state: ClimberState, id: int)
    ensures forall l :: ClearRefs(state, id).Get(l) != Some(id)
    ensures forall l :: state.Get(l) != Some(id) ==> ClearRefs(state, id).Get(l) == state.Get(l)
    ensures forall l :: state.Get(l) == Some(id) ==> ClearRefs(state, id).Get(l) == None
  {
    forall l ensures ClearRefs(state, id).Get(l) == (if state.Get(l) == Some(id) then None else state.Get(l)) {
      match l
      case RightHand =>
      case LeftHand =>
      case RightFoot =>
      case LeftFoot =>
    }
  }

  /** Retyping touches only the holds with the given id, and a later
      retyping of the same hold overrides an earlier one. */
  lemma RetypeOnlySelected(holds: seq<Hold>, id: int, t: HoldType, t2: HoldType)
    ensures forall i :: 0 <= i < |holds| && holds[i].id != id ==> Retype(holds, id, t)[i] == holds[i]
    ensures forall i :: 0 <= i < |holds| && holds[i].id == id ==>
              Retype(holds, id, t)[i].holdType == t && Retype(holds, id, t)[i].(holdType := holds[i].holdType) == holds[i]
    ensures Retype(Retype(holds, id, t), id, t2) == Retype(holds, id, t2)
    ensures id !in HoldIds(holds) ==> Retype(holds, id, t) == holds
  {
    if id !in HoldIds(holds) {
      forall i | 0 <= i < |holds| ensures Retype(holds, id, t)[i] == holds[i] {
        assert holds[i] in holds;
      }
    }
  }

  /** Only a plain climbing hold is marked; the first start limb on a hold
      decides its type, so a start hand hold stays one when a foot joins it. */
  lemma UpgradeOnlyClimbing(holds: seq<Hold>, id: int, limb: Limb, limb2: Limb)
    ensures forall i :: 0 <= i < |holds| && (holds[i].id != id || holds[i].holdType != ClimbingHold) ==>
              Upgrade(holds, id, limb)[i] == holds[i]
    ensures forall i :: 0 <= i < |holds| && holds[i].id == id && holds[i].holdType == ClimbingHold ==>
              Upgrade(holds, id, limb)[i] == holds[i].(holdType := StartType(limb))
    ensures Upgrade(Upgrade(holds, id, limb), id, limb2) == Upgrade(holds, id, limb)
  {
  }

  /** Removing a hold twice is removing it once, and removal commutes. */
  lemma {:induction false} WithoutTwice(holds: seq<Hold>, id: int, id2: int)
    ensures Without(Without(holds, id), id) == Without(holds, id)
    ensures Without(Without(holds, id), id2) == Without(Without(holds, id2), id)
  {
    if holds != [] {
      WithoutTwice(holds[1..], id, id2);
      var w := Without(holds[1..], id);
      if holds[0].id != id {
        assert ([holds[0]] + w)[0] == holds[0] && ([holds[0]] + w)[1..] == w;
      }
      var w2 := Without(holds[1..], id2);
      if holds[0].id != id2 {
        assert ([holds[0]] + w2)[0] == holds[0] && ([holds[0]] + w2)[1..] == w2;
      }
    }
  }

  /** Two holds are added, the first is removed and a third is added: the
      new hold gets id 2, not the removed id 0. */
  method IdsNotReusedExample() returns (m: HoldsManager)
    ensures m.holds == [Hold(1, 0.5, 0.5, ClimbingHold), Hold(2, 0.75, 0.25, ClimbingHold)]
    ensures m.nextHoldId == 3 && m.selectedHold == Some(2)
  {
    m := new HoldsManager();
    m.AddHold(0.25, 0.75);
    m.AddHold(0.5, 0.5);
    m.SelectHold(Some(0));
    assert m.holds == [Hold(0, 0.25, 0.75, ClimbingHold), Hold(1, 0.5, 0.5, ClimbingHold)];
    m.RemoveSelectedHold();
    assert m.holds == [Hold(1, 0.5, 0.5, ClimbingHold)];
    m.AddHold(0.75, 0.25);
  }

  /** The finish hold is not forgotten when it is later given another type:
      after marking hold 0 as the finish and then as a climbing hold,
      `finishHold` still names hold 0. */
  method RetypedFinishExample() returns (m: HoldsManager)
    ensures m.finishHold == Some(0)
    ensures m.holds == [Hold(0, 0.5, 0.5, ClimbingHold)]
  {
    m := new HoldsManager();
    m.AddHold(0.5, 0.5);
    m.AssignHoldType(FinishHold);
    m.SelectHold(Some(0));
    m.AssignHoldType(ClimbingHold);
  }
}
