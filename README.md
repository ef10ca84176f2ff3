# FermataBeta core in Dafny

FermataBeta plans climbing "betas". A user marks holds on a wall photo and picks the start
and finish holds. A planner then searches for a sequence of single-limb moves from the start
stance to a stance with both hands on the finish hold. The climber is drawn as a stick
figure in each stance.

This project models the deterministic core of that system and proves properties of it:

- `types.dfy` (module `Types`): points, limbs, holds and hold types, the four-limb climber
  state, joint names, and sums over point lists.
  - Square roots are not built into the model. The distance function `hypot` is a
    parameter, constrained by `IsHypot`: the result is non-negative and its square is
    `dx² + dy²`.
- `climber.dfy` (module `Climber`): the anthropometric model, a class with six lengths and an
  in-place scaling to image pixels.
- `visualizer.dfy` (module `Visualizer`): the back end's pose synthesis.
  - A two-segment FABRIK solver: the forward and backward reaching passes, plus a straight
    "stretch" branch for out-of-reach targets.
  - The full-body pose built with that solver.
- `skeleton.ts` pose synthesis (module `Skeleton`, `skeleton.dfy`): the front end's variant.
  - Elbows and knees go at a midpoint shifted by 20 pixels.
  - The hold index is built by id, and a later duplicate id wins.
  - A limb is stroked only when all three of its joints exist.
- `holds_manager.dfy` (module `HoldsManager`): the hold editor's state machine as a class.
  - The fields are holds, selection, start state, finish hold and id counter.
  - The six operations are add, select, assign type, assign limb, remove and reset.
- The planner, in four modules:
  - `route.dfy` (`Route`): the reachability test;
  - `stability.dfy` (`Stability`): monotone-chain convex hull, even-odd ray casting and the
    stability test;
  - `moves.dfy` (`Moves`): single-limb move generation;
  - `search.dfy` (`Search`): move cost, heuristic and A* search.
- `hold_detector.dfy` (module `HoldDetector`): the per-contour acceptance, centre and
  confidence arithmetic of the colour detector, and its greedy removal of duplicates in
  confidence order.

Arithmetic is over Dafny `real` (coordinates, lengths, costs) and `int` (pixel centres, hold
ids). The planner's module globals (hold list, coordinates, climber, finish hold) become one
`RouteData` parameter.

Two behaviours of the code are modelled as written:

- `get_valid_moves` lets a free limb grab a hold whenever the remaining stance is stable.
- `cost_between` asserts that the moved limb was on a hold.

So the search can stop with that assertion (`CostFailed`), and `Search.FreeLimbMoveFails`
states when.

## Model

| member | source | states |
|---|---|---|
| Climber.ClimberModel.constructor | backend/beta_generator/src/climber_model.py:4-12 | A fresh model has upper arm 0.15, forearm 0.15, thigh 0.25, shin 0.20, torso width 0.15 and torso height 0.25, all positive |
| Climber.ClimberModel.ScaleToImage | backend/beta_generator/src/climber_model.py:14-28 | Every one of the six lengths becomes its old value times imageHeight / realClimberHeightM (default height 1.7); a zero height, which raises, is excluded |
| Climber.ScaledLengths | backend/beta_generator/src/climber_model.py:23-28 | Each length of a scaled snapshot is the old length times the same factor |
| Climber.ScalingKeepsRatios | backend/beta_generator/src/climber_model.py:23-28 | For a non-zero factor, the ratio between any two lengths (non-zero divisor) is the same before and after scaling |
| Climber.ScalingCompounds | backend/beta_generator/src/climber_model.py:23-28 | Scaling by k1 and then by k2 equals one scaling by k1·k2: two calls compound |
| Climber.ScalingNotIdempotent | backend/beta_generator/src/climber_model.py:23-28 | For any factor other than 0 and 1, scaling the defaults twice gives different lengths from scaling them once |
| Climber.ScaledDefaultsExample | backend/beta_generator/src/climber_model.py:4-28 | A fresh model scaled for a 1000-pixel image at the default height has the defaults times 1000/1.7; its upper arm is 1500/17 pixels |
| Visualizer.Reach | backend/beta_generator/src/visualizer.py:52-62 | A reaching step leaves a point within 1e-6 of its anchor where it is, so nothing is divided by a zero distance |
| Visualizer.ReachStep | backend/beta_generator/src/visualizer.py:52-62 | The in-place update of the mid joint's two coordinates is one reaching step towards the anchor |
| Visualizer.ReachPlacesAtLength | backend/beta_generator/src/visualizer.py:52-62 | When the point is farther than 1e-6 from the anchor, the step puts it at distance exactly `len` from the anchor, on the ray from the anchor through it |
| Visualizer.RescaledDistance | backend/beta_generator/src/visualizer.py:59-62 | Dividing the offset by its own length and multiplying by `len` gives a point at squared distance len² from the anchor |
| Visualizer.SolveIK | backend/beta_generator/src/visualizer.py:23-64 | When the target is within seg1+seg2 of the base, the end effector is the target; with zero iterations the mid joint is the seed (base_x, base_y + seg1) |
| Visualizer.Solve2SegmentIK | backend/beta_generator/src/visualizer.py:7-64 | The solver returns the mid joint and end effector of the stretch branch or of the reaching loop |
| Visualizer.FabrikLoop | backend/beta_generator/src/visualizer.py:44-62 | After n loop iterations the mid joint is n forward-then-backward reaching passes applied to the seed |
| Visualizer.StretchValue | backend/beta_generator/src/visualizer.py:30-40 | In the stretch branch, mid = base + u·seg1 and end = base + u·(seg1+seg2), with u the offset to the target divided by its length |
| Visualizer.StretchTowardsTarget | backend/beta_generator/src/visualizer.py:30-40 | Out of reach, mid and end lie on the segment from base to target at fractions seg1/d and (seg1+seg2)/d, with 0 ≤ seg1/d ≤ (seg1+seg2)/d < 1 |
| Visualizer.StretchFallsShort | backend/beta_generator/src/visualizer.py:30-40 | Out of reach, the end effector is not the target |
| Visualizer.StretchKeepsSegmentLengths | backend/beta_generator/src/visualizer.py:30-40 | Out of reach, the first segment has length seg1 and the second length seg2 (as squared distances) |
| Visualizer.StretchScenario | backend/beta_generator/src/visualizer.py:30-40 | Base (0,0), target (100,0) and segments 10 and 10 give mid (10,0) and end (20,0) |
| Visualizer.LastBackwardPassLength | backend/beta_generator/src/visualizer.py:58-62 | In the reachable branch with at least one iteration, if the last backward step normalised (distance > 1e-6), the mid joint is exactly seg1 from the base |
| Visualizer.PixelsStep | backend/beta_generator/src/visualizer.py:85-91 | Visiting one more limb adds its pixel (x_norm·width, y_norm·height) exactly when it holds a hold, and appends that pixel to the contact list |
| Visualizer.CollectContacts | backend/beta_generator/src/visualizer.py:81-91 | The limb-to-pixel map and the contact list are those of the limbs RH, LH, RF, LF in that order |
| Visualizer.PlacedLimbs | backend/beta_generator/src/visualizer.py:84-88 | A limb has a pixel position exactly when it holds a hold |
| Visualizer.ContactsInLimbOrder | backend/beta_generator/src/visualizer.py:91 | The contact list is the held limbs' pixels in the order RH, LH, RF, LF |
| Visualizer.ContactTotals | backend/beta_generator/src/visualizer.py:91-97 | The number of contacts is the number of held limbs, and their sums are the per-limb sums, so a hold under two limbs counts twice |
| Visualizer.WithLimb | backend/beta_generator/src/visualizer.py:114-149 | Attaching a limb adds its middle and distal joints exactly when it has a pixel, placed at the IK solution from its proximal joint, and changes no other joint |
| Visualizer.AttachLimb | backend/beta_generator/src/visualizer.py:114-149 | The method's result is that attachment |
| Visualizer.AttachAllLimbs | backend/beta_generator/src/visualizer.py:114-149 | The limbs are attached in the order right arm, left arm, right leg, left leg |
| Visualizer.AttachAllKeeps | backend/beta_generator/src/visualizer.py:114-149 | A joint owned by none of the attached limbs keeps its value |
| Visualizer.AttachAllKeys | backend/beta_generator/src/visualizer.py:114-149 | After attaching, a joint is present exactly when it was before or belongs to an attached limb that has a pixel |
| Visualizer.AttachAllSolves | backend/beta_generator/src/visualizer.py:114-149 | Each attached limb with a pixel gets the IK mid joint and end effector computed from its proximal joint |
| Visualizer.CalculateFullBodyPose | backend/beta_generator/src/visualizer.py:67-151 | The method builds the full-body pose: pixels, core, torso corners, then the four limbs |
| Visualizer.PoseKeys | backend/beta_generator/src/visualizer.py:108-149 | The pose always has the core and the four torso corners; elbow/hand (knee/foot) are present exactly when that hand (foot) is assigned |
| Visualizer.PoseCore | backend/beta_generator/src/visualizer.py:90-100 | With no contacts the core is (width/2, height/2); otherwise it is the per-limb centroid raised by torso_height/2 |
| Visualizer.PoseTorsoCorners | backend/beta_generator/src/visualizer.py:102-112 | Shoulders are at core_y and hips at core_y + torso_height; the right side is at +torso_width/2 and the left at −torso_width/2 |
| Visualizer.PoseKeepsTorso | backend/beta_generator/src/visualizer.py:102-149 | Attaching the limbs changes none of the core and torso-corner joints |
| Visualizer.PoseLimb | backend/beta_generator/src/visualizer.py:114-149 | An assigned limb's middle and distal joints are the IK solution from its shoulder (upper arm, forearm) or hip (thigh, shin) to its hold pixel |
| Visualizer.PoseReachesHold | backend/beta_generator/src/visualizer.py:28-64 | An assigned limb's end is drawn on its hold exactly when the hold is within the limb's total length of its shoulder or hip |
| Skeleton.ModelProportions | frontend/FermataBeta/src/utils/skeleton.ts:15-22 | The torso is 0.30·canvasHeight tall and 0.15·canvasHeight wide, the thigh is 0.30·canvasHeight and upper arm, forearm and shin are 0.25·canvasHeight each; so the torso is twice as tall as wide, the thigh equals the torso height and the three other segments are equal |
| Skeleton.IndexHolds | frontend/FermataBeta/src/utils/skeleton.ts:24-27 | The `forEach` loop builds the id-to-pixel index |
| Skeleton.HoldIndexKeys | frontend/FermataBeta/src/utils/skeleton.ts:24-27 | The index's keys are exactly the ids of the holds |
| Skeleton.HoldIndexLastWins | frontend/FermataBeta/src/utils/skeleton.ts:24-27 | An id maps to the pixel (xNorm·width, yNorm·height) of the last hold carrying it |
| Skeleton.IndexResolves | frontend/FermataBeta/src/utils/skeleton.ts:29-34 | If every assigned limb's id is among the holds, every assigned limb resolves in the index |
| Skeleton.CoordsOfPlaced | frontend/FermataBeta/src/utils/skeleton.ts:29-34 | A limb has coordinates exactly when it is assigned, and they are its hold's pixel |
| Skeleton.ContactTotals | frontend/FermataBeta/src/utils/skeleton.ts:36-41 | The contact list has one point per assigned limb, and its sums are the per-limb sums |
| Skeleton.CoreIsCentroid | frontend/FermataBeta/src/utils/skeleton.ts:38-47 | With no contacts the core is exactly (canvasWidth/2, canvasHeight/2); otherwise it is the centroid raised by torsoHeight/2 |
| Skeleton.ShapeTorso | frontend/FermataBeta/src/utils/skeleton.ts:49-54 | For any core, the four corners are at ±torsoWidth/2, with the hips torsoHeight below the shoulders |
| Skeleton.PoseTorso | frontend/FermataBeta/src/utils/skeleton.ts:49-54 | The pose's four corners are at ±torsoWidth/2 of the computed core, with the hips torsoHeight below the shoulders |
| Skeleton.PlaceEnd | frontend/FermataBeta/src/utils/skeleton.ts:59-62 | One conditional assignment sets that limb's hand or foot and keeps the corners |
| Skeleton.EndsAt | frontend/FermataBeta/src/utils/skeleton.ts:59-62 | After the four assignments, a joint gets a limb's coordinates exactly when it is that limb's hand or foot and the limb resolved; every other joint is unchanged |
| Skeleton.EndsPlaceHoldPixels | frontend/FermataBeta/src/utils/skeleton.ts:59-62 | A limb's hand or foot is present exactly when it was already or the limb resolved, and then it equals the hold's coordinates; elbows, knees, corners and core are untouched |
| Skeleton.PlaceBend | frontend/FermataBeta/src/utils/skeleton.ts:64-68 | One conditional assignment sets that limb's elbow or knee and keeps the corners |
| Skeleton.BendsAt | frontend/FermataBeta/src/utils/skeleton.ts:64-68 | After the four assignments, an elbow or knee is the shifted midpoint of the shoulder or hip and the hand or foot when that end exists; every other joint is unchanged |
| Skeleton.BendsPlaceMidpoints | frontend/FermataBeta/src/utils/skeleton.ts:64-68 | Elbow = midpoint(shoulder, hand) + (0, 20) and knee = midpoint(hip, foot) − (0, 20), present exactly when the end is; hands, feet, corners and core are untouched |
| Skeleton.PlaceLimbs | frontend/FermataBeta/src/utils/skeleton.ts:59-68 | The eight conditional assignments place the ends and then the midpoints, starting from the corners |
| Skeleton.ShapeKeys | frontend/FermataBeta/src/utils/skeleton.ts:49-68 | The pose has no core entry and always has the shoulders and hips; a limb's middle and end joints are present exactly when it resolved |
| Skeleton.ShapeValues | frontend/FermataBeta/src/utils/skeleton.ts:49-68 | For any core, a resolved limb's end is its hold and its middle is the shifted midpoint from its corner joint, which is unchanged |
| Skeleton.CalculateFullBodyPose | frontend/FermataBeta/src/utils/skeleton.ts:9-71 | The method computes the pose: index, limb coordinates, core, corners, ends, midpoints |
| Skeleton.PoseKeys | frontend/FermataBeta/src/utils/skeleton.ts:49-68 | The pose has the four corners and no core; a limb's middle and end joints are present exactly when the limb is assigned |
| Skeleton.PoseLimb | frontend/FermataBeta/src/utils/skeleton.ts:59-68 | An assigned limb's end is its hold's pixel and its middle is the shifted midpoint between its corner and that pixel |
| Skeleton.PoseEndOnLastHold | frontend/FermataBeta/src/utils/skeleton.ts:24-62 | With duplicate ids, an assigned limb's end is drawn at the last hold with its id |
| Skeleton.PoseStroke | frontend/FermataBeta/src/utils/skeleton.ts:90-114 | A limb is stroked exactly when it is assigned, through its corner, its shifted midpoint and its hold |
| Skeleton.OneHandScenario | frontend/FermataBeta/src/utils/skeleton.ts:9-71 | On a 400×600 canvas with the right hand on a central hold, the pose has exactly the corners (245,210), (155,210), (245,390), (155,390), the hand (200,300) and the elbow (222.5,275) |
| HoldsManager.HoldsManager.constructor | frontend/FermataBeta/src/hooks/useHoldsManager.ts:5-11 | The initial state has no holds, no selection, a free start state, no finish and a counter of 0 |
| HoldsManager.HoldsManager.AddHold | frontend/FermataBeta/src/hooks/useHoldsManager.ts:13-23 | Appends a climbing hold with id nextHoldId, selects it and increments the counter; the id was unused, so ids stay distinct and below the counter |
| HoldsManager.HoldsManager.SelectHold | frontend/FermataBeta/src/hooks/useHoldsManager.ts:25-27 | Selecting the selected hold clears the selection, and selecting any other id selects it; nothing else changes |
| HoldsManager.HoldsManager.AssignHoldType | frontend/FermataBeta/src/hooks/useHoldsManager.ts:29-36 | No-op without a selection; otherwise retypes the selected hold, records it as the finish when the type is finish_hold (an earlier finish keeps its type), and clears the selection |
| HoldsManager.HoldsManager.AssignLimbToHold | frontend/FermataBeta/src/hooks/useHoldsManager.ts:38-50 | No-op without a selection; otherwise puts the limb on the selected hold, upgrades that hold to start_hand or start_foot only if it was a climbing hold, and clears the selection |
| HoldsManager.HoldsManager.RemoveSelectedHold | frontend/FermataBeta/src/hooks/useHoldsManager.ts:52-68 | No-op without a selection; otherwise deletes that hold, frees every limb on it, clears the finish if it was that hold and clears the selection; the counter is unchanged and no reference dangles |
| HoldsManager.HoldsManager.ResetState | frontend/FermataBeta/src/hooks/useHoldsManager.ts:70-76 | Empty holds, no selection, a free start state, no finish and a counter of 0 |
| HoldsManager.RetypeKeepsIds | frontend/FermataBeta/src/hooks/useHoldsManager.ts:31 | Retyping keeps the set of ids and their distinctness |
| HoldsManager.RetypeOnlySelected | frontend/FermataBeta/src/hooks/useHoldsManager.ts:31 | Only holds with the selected id change, and only in type; retyping twice is retyping once with the last type; an absent id changes nothing |
| HoldsManager.UpgradeKeepsIds | frontend/FermataBeta/src/hooks/useHoldsManager.ts:42-48 | The upgrade keeps the set of ids, their distinctness and their bound |
| HoldsManager.UpgradeOnlyClimbing | frontend/FermataBeta/src/hooks/useHoldsManager.ts:42-48 | Only a climbing hold with the selected id changes, to the limb's start type; a second upgrade of the same hold changes nothing |
| HoldsManager.WithoutIds | frontend/FermataBeta/src/hooks/useHoldsManager.ts:54 | The filter keeps exactly the holds whose id differs, so the ids become the old ids minus the removed one |
| HoldsManager.WithoutKeepsDistinct | frontend/FermataBeta/src/hooks/useHoldsManager.ts:54 | With distinct ids, removal keeps them distinct and deletes exactly one hold when the id is present; an absent id changes nothing |
| HoldsManager.WithoutTwice | frontend/FermataBeta/src/hooks/useHoldsManager.ts:54 | Removing an id twice is removing it once, and removals commute |
| HoldsManager.ClearRefsSpec | frontend/FermataBeta/src/hooks/useHoldsManager.ts:55-63 | After clearing, no limb is on the removed hold; limbs on it become free and the others keep their hold |
| HoldsManager.IdsNotReusedExample | frontend/FermataBeta/src/hooks/useHoldsManager.ts:13-68 | Add two holds, remove hold 0, add one more: the new hold gets id 2 and the counter is 3 |
| HoldsManager.RetypedFinishExample | frontend/FermataBeta/src/hooks/useHoldsManager.ts:29-36 | Marking hold 0 as finish and then as a climbing hold leaves finishHold at hold 0 |
| Route.LimbNamesRoundTrip | backend/beta_generator/src/beta_engine.py:34-43 | The names RH, LH, RF, LF and the four limbs correspond one to one; any other name is unknown |
| Route.HeldIdsAreTheHolds | backend/beta_generator/src/beta_engine.py:23 | The contact ids are distinct and are exactly the holds some limb is on |
| Route.IsReachableOutcomes | backend/beta_generator/src/beta_engine.py:18-47 | False without contacts; an error exactly for an unknown name once contacts exist; otherwise the per-limb reach test |
| Route.ReachableBySquares | backend/beta_generator/src/beta_engine.py:26-47 | With contacts, the target is reachable exactly when its squared distance from the shoulder or hip (core = mean of distinct holds raised by torso_height/2) is at most (reach + 1e-6)² |
| Route.NoContactsNothingReachable | backend/beta_generator/src/beta_engine.py:23-24 | Without contacts no limb reaches anything |
| Route.SharedHoldsCountOnce | backend/beta_generator/src/beta_engine.py:23-31 | With both hands on one hold and both feet on another, the core is their midpoint raised by torso_height/2: each hold counts once |
| Stability.Dedup | backend/beta_generator/src/beta_engine.py:63 | The contact points without repeats: distinct, with the same members |
| Stability.SortPointsSorted | backend/beta_generator/src/beta_engine.py:73 | Sorting distinct points gives a lexicographically strictly increasing permutation |
| Stability.PopConcave | backend/beta_generator/src/beta_engine.py:81-82 | The pops leave a non-empty prefix of the stack whose last two points turn strictly left towards the new point |
| Stability.Chain | backend/beta_generator/src/beta_engine.py:79-89 | A half hull of a non-empty list ends with the list's last point |
| Stability.HalfHull | backend/beta_generator/src/beta_engine.py:79-89 | The pop/append loop computes the half hull |
| Stability.ChainTurnsLeft | backend/beta_generator/src/beta_engine.py:79-89 | Every consecutive triple of a half hull turns strictly counter-clockwise (cross > 0) |
| Stability.ChainFromInput | backend/beta_generator/src/beta_engine.py:79-89 | Every half-hull vertex is an input point, and the first vertex is the first input point |
| Stability.HullFromInput | backend/beta_generator/src/beta_engine.py:73-91 | Every hull vertex is one of the input points |
| Stability.ChainOfThree | backend/beta_generator/src/beta_engine.py:79-83 | The half hull of three points keeps the middle one exactly when the turn is strictly left |
| Stability.HullOfThree | backend/beta_generator/src/beta_engine.py:79-91 | The hull of three sorted points is the triangle in counter-clockwise order, or the two end points when they are collinear |
| Stability.PointInPolygon | backend/beta_generator/src/beta_engine.py:49-58 | The answer is true exactly when an odd number of edges cross the rightward ray; the division happens only on edges whose ends straddle the ray |
| Stability.OutsideBandNoCrossings | backend/beta_generator/src/beta_engine.py:56 | A point that is at or above every vertex, or strictly below all of them, is crossed by no edge |
| Stability.UnitSquare | backend/beta_generator/src/beta_engine.py:49-58 | For the unit square, (0.5, 0.5) is inside and (1.5, 0.5) is outside |
| Stability.OnHullEdge | backend/beta_generator/src/beta_engine.py:96-104 | The loop finds whether the centroid is within 1e-9 cross distance of some hull edge and inside that edge's bounding box |
| Stability.IsStable | backend/beta_generator/src/beta_engine.py:60-105 | The method computes the stability test: distinct contacts, centroid, sort, both half hulls, ray casting, then the edge test |
| Stability.StableNeedsThreeContacts | backend/beta_generator/src/beta_engine.py:63-66 | A stable stance has at least three distinct contact points |
| Stability.StableDependsOnPositions | backend/beta_generator/src/beta_engine.py:60-105 | Two stances whose limbs touch the same set of positions (whichever limbs hold them, however many share a hold, over any coordinate maps) are both stable or both unstable: the deduplicated contacts, their sorted order and their centroid depend only on that set |
| Stability.CollinearContactsStable | backend/beta_generator/src/beta_engine.py:60-105 | Three distinct contacts on one horizontal line are judged stable, through the edge test |
| Stability.TriangleStable | backend/beta_generator/src/beta_engine.py:60-105 | Contacts at (0,0), (4,0) and (0,4) are stable |
| Moves.GetValidMoves | backend/beta_generator/src/beta_engine.py:107-136 | The nested loops return the valid moves for RH, LH, RF, LF in turn, each over the holds in input order |
| Moves.LimbMoves | backend/beta_generator/src/beta_engine.py:124-135 | The inner loop collects, in hold order, the states with the limb on each other hold that is reachable and stable |
| Moves.MovesToMembers | backend/beta_generator/src/beta_engine.py:124-135 | A state is collected by the inner loop exactly when it puts the limb on a listed hold that passes the checks |
| Moves.MovesOfMembers | backend/beta_generator/src/beta_engine.py:112-136 | A state is produced exactly when some limb of the list produces it |
| Moves.LimbBlockMembers | backend/beta_generator/src/beta_engine.py:113-135 | A limb produces a state exactly when that state is a valid move of the limb to a listed hold; an unstable lift-off yields nothing |
| Moves.ValidMovesMembers | backend/beta_generator/src/beta_engine.py:107-136 | A state is a valid move exactly when it puts one limb on a listed hold that is different from its current one, with a stable lift-off, reachable from the original state, and stable |
| Moves.ValidMoveShape | backend/beta_generator/src/beta_engine.py:107-136 | Each valid move differs from the input in exactly one limb, whose new hold is a listed hold different from the old one, and whose lift-off is stable |
| Moves.MoveChecksByName | backend/beta_generator/src/beta_engine.py:134 | Each valid move passes `is_reachable` under the limb's name, evaluated on the original state |
| Moves.NoMovesWithoutContacts | backend/beta_generator/src/beta_engine.py:120-122 | A stance with no contacts has no valid moves |
| Search.HeuristicValues | backend/beta_generator/src/beta_engine.py:138-160 | The heuristic is 0 at a goal, 1 with exactly one hand on the finish, and infinite exactly when both hands are free; otherwise it is max(0, y − finish_y)/0.20 where y is the higher of the two held hands, or the one held hand's y when the other is free; it is never negative |
| Search.FirstMoved | backend/beta_generator/src/beta_engine.py:164 | The first limb that differs is none exactly for equal states, and otherwise really differs |
| Search.CostBounds | backend/beta_generator/src/beta_engine.py:162-185 | The cost is 0 exactly for identical states and at least 1 otherwise; the assertion fails exactly when the first moved limb was or becomes free |
| Search.MoveCostCases | backend/beta_generator/src/beta_engine.py:172-185 | A move between two holds costs at least 1.5 when it goes down, and exactly 1 when it goes up or level by at most 0.10 |
| Search.FreeLimbMoveFails | backend/beta_generator/src/beta_engine.py:170 | Putting a free limb on a hold makes `cost_between` fail its assertion |
| Search.PopMin | backend/beta_generator/src/beta_engine.py:202 | The popped entry has the least f of the frontier |
| Search.Reconstruct | backend/beta_generator/src/beta_engine.py:210-217 | The reconstructed path starts at the start state, ends at the goal, and each state is a valid move of the one before |
| Search.ReversedSteps | backend/beta_generator/src/beta_engine.py:212-217 | Reversing a list in which each state is a move from the next gives a list in which each is a move to the next |
| Search.ParentLink | backend/beta_generator/src/beta_engine.py:219-225 | A recorded parent was reached; the state is a valid move from it and costs at least one unit more |
| Search.RecordKeeps | backend/beta_generator/src/beta_engine.py:221-222 | Recording a new cost only lowers a state's recorded cost or adds a state |
| Search.RelaxKeeps | backend/beta_generator/src/beta_engine.py:221-225 | Recording a cheaper path, its parent and the frontier entry keeps the search invariant |
| Search.RelaxMove | backend/beta_generator/src/beta_engine.py:220-225 | Fails exactly when the move's cost fails; otherwise keeps the invariant, reaches the next state and lowers no cost |
| Search.Relax | backend/beta_generator/src/beta_engine.py:219-225 | Fails exactly when some move's cost fails; otherwise keeps the invariant, reaches every move and never raises a recorded cost |
| Search.AStarSearch | backend/beta_generator/src/beta_engine.py:187-228 | A found path starts at the start state, ends with both hands on the finish, and moves by valid moves; a start that is already a goal is the whole path |
| HoldDetector.DetectionBounds | frontend/FermataBeta/src/v1.py:60-68 | An accepted contour's centre is (x + w//2, y + h//2), its normalised centre is the centre over the image size, and its confidence is in (0, 0.99] |
| HoldDetector.CollectDetections | frontend/FermataBeta/src/v1.py:47-74 | The contour loop collects the detections of the accepted contours in order |
| HoldDetector.DetectAllAccepted | frontend/FermataBeta/src/v1.py:47-74 | A detection is kept exactly for the contours with 200 < area < 8000, perimeter > 0 and circularity > 0.3 |
| HoldDetector.SortDescSorted | frontend/FermataBeta/src/v1.py:87 | The sort by confidence is non-increasing and a permutation of its input |
| HoldDetector.SortByConfidence | frontend/FermataBeta/src/v1.py:87 | The in-place insertion sort leaves the caller's array sorted by non-increasing confidence |
| HoldDetector.NearKept | frontend/FermataBeta/src/v1.py:94-102 | The inner loop flags a duplicate exactly when some kept hold's centre is closer than 30 pixels |
| HoldDetector.RemoveDuplicates | frontend/FermataBeta/src/v1.py:81-107 | An empty input is returned as is; otherwise the caller's list is sorted in place and the greedy filter keeps each hold not close to an earlier kept one |
| HoldDetector.NothingToFilter | frontend/FermataBeta/src/v1.py:83-84 | Nothing in, nothing out |
| HoldDetector.KeptSubsequence | frontend/FermataBeta/src/v1.py:89-105 | The kept holds are a subsequence of the sorted input |
| HoldDetector.KeptSorted | frontend/FermataBeta/src/v1.py:87-105 | The output is sorted by non-increasing confidence and drawn from the input |
| HoldDetector.KeptFirst | frontend/FermataBeta/src/v1.py:89-105 | The first (highest-confidence) hold is always kept |
| HoldDetector.KeptPrefix | frontend/FermataBeta/src/v1.py:89-105 | The filter never takes back a decision: the holds kept from a prefix are a prefix of those kept overall |
| HoldDetector.KeptApart | frontend/FermataBeta/src/v1.py:94-105 | Any two kept holds have centres at least 30 pixels apart |
| HoldDetector.NearKeptHold | frontend/FermataBeta/src/v1.py:94-102 | Each hold lies within 30 pixels of a kept hold at or before it in confidence order, so each dropped hold is near an earlier kept one |

## Left out

- IEEE-754 arithmetic: coordinates, lengths and costs are exact reals, without rounding, NaN or signed zero. `float('inf')` in `heuristic` and `a_star_search` becomes the `PosInf` case of `Search.Ext`.
- `math.hypot` and `np.sqrt` are not defined. The model takes a distance function as a parameter, and lemmas assume only that it is a non-negative square root of `dx² + dy²`.
- The duplicate test `sqrt(d²) < 30` is a comparison of the integer squared distance against 900. For non-negative reals the two agree.
- π is the real 3.141592653589793, the shortest decimal representation of the double `np.pi`.
- OpenCV (`cvtColor`, `GaussianBlur`, `inRange`, `morphologyEx`, `findContours`, `contourArea`, `arcLength`, `boundingRect`): foreign library calls. A contour enters the model as its colour, area, perimeter and bounding box. The per-colour mask loop is represented only by the list of contours it yields. The colour ranges of `setup_color_detection`, `draw_holds`, the webcam mode and `main` are not part of this model.
- HoldDetector.Detect requires positive image dimensions. A zero dimension would raise when the centre is normalised, and an image always has positive size.
- HoldDetector.SortByConfidence: the insertion sort leaves equal-confidence detections in input order, as Python's stable `sort` does, but the contract does not state stability. The contract states only the result `SortDesc` and its sortedness and permutation.
- Printing, the expansion counter and `main.py`'s file I/O are not part of this model. `backend/index.js` and the React components, whose concerns are upload, fetch, JSX and canvas painting, are not part of this model either. Nor is PDF export.
- Canvas calls in `drawClimber` (stroke style, paths, the torso outline): only the rule that a limb is stroked when all three joints exist is modelled (`Skeleton.LimbStroke`).
- Search.AStarSearch takes a `fuel` bound on the number of pops so that termination can be proved; `OutOfFuel` is a result of the model only. Python's loop always ends because there are finitely many states, but this is not proved.
- Search.PopMin breaks ties between equal f by frontier position, not as `heapq` does. On equal (f, g), `heapq` compares the state tuples field by field; that comparison raises a TypeError only when the first differing field pairs `None` with an int. The model reproduces neither the tuple order nor the TypeError.
- Search.AStarSearch does not prove that the path is of least cost. Only the validity of the path and the decrease of the recorded costs are proved.
- Stability.StableNeedsThreeContacts states only one direction. Geometrically, the centroid of three or more distinct points always lies in their hull, so the test could be proved equivalent to having three distinct contacts. That needs a correctness proof of ray casting, which is not attempted; `Stability.StableDependsOnPositions` and the concrete lemmas state what the code computes.
- Search.HeuristicValues does not state admissibility. The heuristic mixes the 0.20 normalised gain with pixel coordinates, so nothing in the code makes it a lower bound on the cost.
- Missing dictionary keys (`KeyError`) are preconditions rather than error paths:
  - hold ids of a state or a move that have no coordinates (`ResolvesIn`, `RouteData.WellFormed`);
  - limb ids in `calculate_full_body_pose`.
- Route.ReachCore requires a non-empty contact set; the empty case is handled before it, as in the code.
- The backend's `assert climber is not None` and `assert finish_id is not None` are not modelled, because `RouteData` always carries both.
- Skeleton.CalculateFullBodyPose requires every assigned limb's id to be among the holds. The TypeScript code would dereference `undefined` at line 40 otherwise.
- `holds_data` is reduced to its list of ids, since `get_valid_moves` reads only `hold['id']`.
- Python's iteration order over the set `{state.RH, …}` is taken as first occurrence in the order RH, LH, RF, LF. The sums over it are the same for any order.
- Climber.ClimberModel.ScaleToImage requires only a non-zero height: only 0 raises, and a negative height is accepted by the code.
- Visualizer.Solve2SegmentIK requires that the base-target distance is non-zero whenever the total segment length is negative. Only then does the stretch branch divide by zero.
- `frontend/FermataBeta/src/types/types.ts` is not part of this model: its hold type omits `climbing_hold`, and the four-valued type of `types/index.ts` is used.
