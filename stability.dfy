/** Static stability of a climber state: the centroid of the distinct contact
    points must lie in, or on the boundary of, their convex hull
    (backend/beta_generator/src/beta_engine.py, `point_in_polygon` and
    `is_stable`). */
module Stability {
  import opened Types

  /** How close to a hull edge, measured by the cross product, a centroid
      counts as lying on it. */
  const EdgeTolerance: real := 0.000000001

  /** `cross(o, a, b)`: positive when o, a, b turn counter-clockwise. */
  function Cross(o: Point, a: Point, b: Point): real
  {
    (a.x - o.x) * (b.y - o.y) - (a.y - o.y) * (b.x - o.x)
  }

  /** The order Python uses on coordinate tuples. */
  predicate LexLess(a: Point, b: Point)
  {
    a.x < b.x || (a.x == b.x && a.y < b.y)
  }

  predicate StrictlySorted(ps: seq<Point>)
  {
    forall i, j :: 0 <= i < j < |ps| ==> LexLess(ps[i], ps[j])
  }

  predicate Distinct(ps: seq<Point>)
  {
    forall i, j :: 0 <= i < j < |ps| ==> ps[i] != ps[j]
  }

  // ---------------------------------------------------------------------
  // Contacts and centroid

  /** `list(set(...))`: the points without repeats, first occurrences kept. */
  function Dedup(ps: seq<Point>): (r: seq<Point>)
    ensures Distinct(r) && |r| <= |ps|
    ensures forall p :: p in r <==> p in ps
  {
    if ps == [] then []
    else
      var d := Dedup(ps[..|ps| - 1]);
      assert forall p :: p in ps <==> p in ps[..|ps| - 1] || p == ps[|ps| - 1] by {
        assert ps == ps[..|ps| - 1] + [ps[|ps| - 1]];
      }
      if ps[|ps| - 1] in d then d else d + [ps[|ps| - 1]]
  }

  /** The coordinates of the limbs that are on a hold, in limb order,
      repeats included. */
  function LimbPoints(state: ClimberState, coords: map<int, Point>): seq<Point>
    requires state.ResolvesIn(coords)
  {
    (if state.Get(RightHand).Some? then [coords[state.Get(RightHand).value]] else [])
    + (if state.Get(LeftHand).Some? then [coords[state.Get(LeftHand).value]] else [])
    + (if state.Get(RightFoot).Some? then [coords[state.Get(RightFoot).value]] else [])
    + (if state.Get(LeftFoot).Some? then [coords[state.Get(LeftFoot).value]] else [])
  }

  /** The distinct contact coordinates of a state. */
  function Contacts(state: ClimberState, coords: map<int, Point>): seq<Point>
    requires state.ResolvesIn(coords)
  {
    Dedup(LimbPoints(state, coords))
  }

  function Centroid(ps: seq<Point>): Point
    requires ps != []
  {
    Point(SumX(ps) / (|ps| as real), SumY(ps) / (|ps| as real))
  }

  // ---------------------------------------------------------------------
  // Sorting (`sorted`)

  function Insert(sorted: seq<Point>, p: Point): (r: seq<Point>)
    ensures |r| == |sorted| + 1
  {
    if sorted == [] then [p]
    else if LexLess(sorted[0], p) then [sorted[0]] + Insert(sorted[1..], p)
    else [p] + sorted
  }

  /** The points in increasing tuple order. */
  function SortPoints(ps: seq<Point>): (r: seq<Point>)
    ensures |r| == |ps|
  {
    if ps == [] then [] else Insert(SortPoints(ps[..|ps| - 1]), ps[|ps| - 1])
  }

  lemma LexTotal(a: Point, b: Point)
    ensures a == b || LexLess(a, b) || LexLess(b, a)
  {
  }

  lemma {:induction false} InsertSorted(sorted: seq<Point>, p: Point)
    requires StrictlySorted(sorted) && p !in sorted
    ensures StrictlySorted(Insert(sorted, p))
    ensures multiset(Insert(sorted, p)) == multiset(sorted) + multiset{p}
    ensures sorted != [] && Insert(sorted, p)[0] != p ==> Insert(sorted, p)[0] == sorted[0]
  {
    if sorted != [] {
      LexTotal(sorted[0], p);
      var rest := sorted[1..];
      assert sorted == [sorted[0]] + rest;
      TailSorted(sorted);
      if LexLess(sorted[0], p) {
        InsertSorted(rest, p);
        var ins := Insert(rest, p);
        AllAbove(sorted[0], ins, rest, p);
        ConsSorted(sorted[0], ins);
      } else {
        assert LexLess(p, sorted[0]);
        forall k | 0 <= k < |sorted| ensures LexLess(p, sorted[k]) {
          if k > 0 { assert LexLess(sorted[0], sorted[k]); }
        }
        ConsSorted(p, sorted);
      }
    }
  }

  /** The tail of a strictly sorted list is strictly sorted and above its
      head. */
  lemma TailSorted(sorted: seq<Point>)
    requires StrictlySorted(sorted) && sorted != []
    ensures StrictlySorted(sorted[1..])
    ensures forall k :: 0 <= k < |sorted[1..]| ==> LexLess(sorted[0], sorted[1..][k])
  {
    var rest := sorted[1..];
    forall i, j | 0 <= i < j < |rest| ensures LexLess(rest[i], rest[j]) {
      assert rest[i] == sorted[i + 1] && rest[j] == sorted[j + 1];
    }
    forall k | 0 <= k < |rest| ensures LexLess(sorted[0], rest[k]) {
      assert rest[k] == sorted[k + 1];
    }
  }

  /** A point below every element of a strictly sorted list can be put in
      front of it. */
  lemma ConsSorted(x: Point, s: seq<Point>)
    requires StrictlySorted(s)
    requires forall k :: 0 <= k < |s| ==> LexLess(x, s[k])
    ensures StrictlySorted([x] + s)
  {
    var r := [x] + s;
    forall i, j | 0 <= i < j < |r| ensures LexLess(r[i], r[j]) {
      if i == 0 {
        assert r[j] == s[j - 1];
      } else {
        assert r[i] == s[i - 1] && r[j] == s[j - 1];
      }
    }
  }

  /** A bound below `rest` and `p` is a bound below any arrangement of them. */
  lemma AllAbove(x: Point, ins: seq<Point>, rest: seq<Point>, p: Point)
    requires multiset(ins) == multiset(rest) + multiset{p}
    requires forall k :: 0 <= k < |rest| ==> LexLess(x, rest[k])
    requires LexLess(x, p)
    ensures forall k :: 0 <= k < |ins| ==> LexLess(x, ins[k])
  {
    forall k | 0 <= k < |ins| ensures LexLess(x, ins[k]) {
      assert ins[k] in multiset(ins);
      if ins[k] != p {
        assert ins[k] in multiset(rest);
        var m :| 0 <= m < |rest| && rest[m] == ins[k];
      }
    }
  }

  /** Sorting distinct points yields a strictly increasing permutation. */
  lemma {:induction false} SortPointsSorted(ps: seq<Point>)
    requires Distinct(ps)
    ensures StrictlySorted(SortPoints(ps))
    ensures multiset(SortPoints(ps)) == multiset(ps)
  {
    if ps != [] {
      var init := ps[..|ps| - 1];
      var last := ps[|ps| - 1];
      assert ps == init + [last];
      assert Distinct(init) by {
        forall i, j | 0 <= i < j < |init| ensures init[i] != init[j] {
          assert init[i] == ps[i] && init[j] == ps[j];
        }
      }
      SortPointsSorted(init);
      assert last !in init by {
        forall m | 0 <= m < |init| ensures init[m] != last {
          assert init[m] == ps[m];
        }
      }
      assert last !in multiset(SortPoints(init));
      InsertSorted(SortPoints(init), last);
    }
  }

  // ---------------------------------------------------------------------
  // Monotone chain

  /** The `while` that pops the last point while it does not make a
      counter-clockwise turn towards `p`. */
  function PopConcave(stack: seq<Point>, p: Point): (r: seq<Point>)
    ensures |r| <= |stack| && r == stack[..|r|]
    ensures stack != [] ==> r != []
    ensures |r| >= 2 ==> Cross(r[|r| - 2], r[|r| - 1], p) > 0.0
    decreases |stack|
  {
    if |stack| >= 2 && Cross(stack[|stack| - 2], stack[|stack| - 1], p) <= 0.0
    then
      var r := PopConcave(stack[..|stack| - 1], p);
      assert stack[..|stack| - 1][..|r|] == stack[..|r|];
      r
    else stack
  }

  /** One half of the hull: each point pops the concave tail, then is
      appended. */
  function Chain(pts: seq<Point>): (r: seq<Point>)
    ensures pts != [] ==> r != [] && r[|r| - 1] == pts[|pts| - 1]
  {
    if pts == [] then [] else PopConcave(Chain(pts[..|pts| - 1]), pts[|pts| - 1]) + [pts[|pts| - 1]]
  }

  predicate TurnsLeft(c: seq<Point>)
  {
    forall i :: 0 <= i && i + 2 < |c| ==> LeftAt(c, i)
  }

  /** The points at `i`, `i + 1` and `i + 2` turn counter-clockwise. */
  predicate LeftAt(c: seq<Point>, i: int)
    requires 0 <= i && i + 2 < |c|
  {
    Cross(c[i], c[i + 1], c[i + 2]) > 0.0
  }

  /** Every consecutive triple of a chain turns strictly counter-clockwise. */
  lemma {:induction false} ChainTurnsLeft(pts: seq<Point>)
    ensures TurnsLeft(Chain(pts))
  {
    if pts != [] {
      var init := pts[..|pts| - 1];
      var p := pts[|pts| - 1];
      ChainTurnsLeft(init);
      var prev := Chain(init);
      var kept := PopConcave(prev, p);
      PrefixTurnsLeft(prev, |kept|);
      AppendTurnsLeft(kept, p);
    }
  }

  /** Every prefix of a left-turning chain turns left. */
  lemma PrefixTurnsLeft(c: seq<Point>, n: nat)
    requires TurnsLeft(c) && n <= |c|
    ensures TurnsLeft(c[..n])
  {
    var d := c[..n];
    forall i | 0 <= i && i + 2 < |d| ensures LeftAt(d, i) {
      assert LeftAt(c, i);
      assert d[i] == c[i] && d[i + 1] == c[i + 1] && d[i + 2] == c[i + 2];
    }
  }

  /** A point that the last two points turn left towards extends a
      left-turning chain. */
  lemma AppendTurnsLeft(c: seq<Point>, p: Point)
    requires TurnsLeft(c)
    requires |c| >= 2 ==> Cross(c[|c| - 2], c[|c| - 1], p) > 0.0
    ensures TurnsLeft(c + [p])
  {
    var d := c + [p];
    forall i | 0 <= i && i + 2 < |d| ensures LeftAt(d, i) {
      if i + 2 < |c| {
        assert LeftAt(c, i);
        assert d[i] == c[i] && d[i + 1] == c[i + 1] && d[i + 2] == c[i + 2];
      } else {
        assert d[i] == c[|c| - 2] && d[i + 1] == c[|c| - 1] && d[i + 2] == p;
      }
    }
  }

  /** A chain keeps the first point and uses only input points. */
  lemma {:induction false} ChainFromInput(pts: seq<Point>)
    ensures forall q :: q in Chain(pts) ==> q in pts
    ensures pts != [] ==> Chain(pts)[0] == pts[0]
  {
    if pts != [] {
      var init := pts[..|pts| - 1];
      var p := pts[|pts| - 1];
      ChainFromInput(init);
      var kept := PopConcave(Chain(init), p);
      forall q | q in Chain(pts) ensures q in pts {
        if q != p {
          assert q in kept;
          assert q in Chain(init);
          assert q in init;
        }
      }
      if init != [] {
        assert kept[0] == Chain(init)[0];
      }
    }
  }

  /** `lower[:-1] + upper[:-1]`. */
  function Hull(pts: seq<Point>): seq<Point>
    requires pts != []
  {
    var lower := Chain(pts);
    var upper := Chain(Reversed(pts));
    lower[..|lower| - 1] + upper[..|upper| - 1]
  }

  /** Every hull vertex is an input point. */
  lemma HullFromInput(pts: seq<Point>)
    requires pts != []
    ensures forall q :: q in Hull(pts) ==> q in pts
  {
    var lower := Chain(pts);
    var upper := Chain(Reversed(pts));
    ChainFromInput(pts);
    ChainFromInput(Reversed(pts));
    forall q | q in Hull(pts) ensures q in pts {
      if q in lower[..|lower| - 1] {
        assert q in lower;
      } else {
        assert q in upper;
        var k :| 0 <= k < |pts| && Reversed(pts)[k] == q;
        assert pts[|pts| - 1 - k] == q;
      }
    }
  }

  /** The chain loops of `is_stable`, run on `pts` or on `reversed(pts)`. */
  method HalfHull(pts: seq<Point>) returns (chain: seq<Point>)
    ensures chain == Chain(pts)
  {
    chain := [];
    for k := 0 to |pts|
      invariant chain == Chain(pts[..k])
    {
      var p := pts[k];
      assert pts[..k + 1][..k] == pts[..k];
      while |chain| >= 2 && Cross(chain[|chain| - 2], chain[|chain| - 1], p) <= 0.0
        invariant PopConcave(chain, p) == PopConcave(Chain(pts[..k]), p)
        decreases |chain|
      {
        chain := chain[..|chain| - 1];
      }
      chain := chain + [p];
    }
    assert pts[..|pts|] == pts;
  }

  // ---------------------------------------------------------------------
  // Ray casting

  /** The edge from `a` to `b` straddles the horizontal through the point
      and meets it to the right of the point. The division happens only
      when the straddle test has shown `a.y != b.y`. */
  predicate EdgeCrosses(px: real, py: real, a: Point, b: Point)
  {
    ((a.y > py) != (b.y > py)) && px < (b.x - a.x) * (py - a.y) / (b.y - a.y) + a.x
  }

  /** The number of crossing edges among the first `k` edges of the polygon
      (edge i joins vertex i to vertex i + 1, wrapping around). */
  function Crossings(px: real, py: real, polygon: seq<Point>, k: nat): nat
    requires k <= |polygon|
  {
    if k == 0 then 0
    else Crossings(px, py, polygon, k - 1)
         + (if EdgeCrosses(px, py, polygon[k - 1], polygon[k % |polygon|]) then 1 else 0)
  }

  /** `point_in_polygon`: inside exactly when an odd number of edges cross. */
  method PointInPolygon(px: real, py: real, polygon: seq<Point>) returns (inside: bool)
    ensures inside <==> Crossings(px, py, polygon, |polygon|) % 2 == 1
  {
    inside := false;
    var n := |polygon|;
    for i := 0 to n
      invariant inside <==> Crossings(px, py, polygon, i) % 2 == 1
    {
      var p1 := polygon[i];
      var p2 := polygon[(i + 1) % n];
      if EdgeCrosses(px, py, p1, p2) {
        inside := !inside;
      }
    }
  }

  /** No edge crosses the horizontal through a point on or above every
      vertex, or below every vertex: such a point is outside. */
  lemma {:induction false} OutsideBandNoCrossings(px: real, py: real, polygon: seq<Point>, k: nat)
    requires k <= |polygon|
    requires (forall i :: 0 <= i < |polygon| ==> polygon[i].y <= py) || (forall i :: 0 <= i < |polygon| ==> polygon[i].y > py)
    ensures Crossings(px, py, polygon, k) == 0
  {
    if k > 0 {
      OutsideBandNoCrossings(px, py, polygon, k - 1);
      assert polygon[k - 1].y > py <==> polygon[k % |polygon|].y > py;
    }
  }

  /** The unit square contains its centre and not a point to its right. */
  lemma UnitSquare()
    ensures var square := [Point(0.0, 0.0), Point(1.0, 0.0), Point(1.0, 1.0), Point(0.0, 1.0)];
            && Crossings(0.5, 0.5, square, 4) % 2 == 1
            && Crossings(1.5, 0.5, square, 4) % 2 == 0
  {
    var square := [Point(0.0, 0.0), Point(1.0, 0.0), Point(1.0, 1.0), Point(0.0, 1.0)];
    assert Crossings(0.5, 0.5, square, 1) == 0;
    assert Crossings(0.5, 0.5, square, 2) == 1;
    assert Crossings(0.5, 0.5, square, 4) == 1;
    assert Crossings(1.5, 0.5, square, 2) == 0;
    assert Crossings(1.5, 0.5, square, 4) == 0;
  }

  // ---------------------------------------------------------------------
  // On an edge

  function Abs(a: real): real { if a < 0.0 then -a else a }
  function Min(a: real, b: real): real { if a <= b then a else b }
  function Max(a: real, b: real): real { if a >= b then a else b }

  /** `c` is collinear with the edge within the tolerance and inside its
      bounding box. */
  predicate NearEdge(p1: Point, p2: Point, c: Point)
  {
    && Abs(Cross(p1, p2, c)) < EdgeTolerance
    && Min(p1.x, p2.x) <= c.x <= Max(p1.x, p2.x)
    && Min(p1.y, p2.y) <= c.y <= Max(p1.y, p2.y)
  }

  /** `c` lies on edge i of the polygon. */
  predicate NearEdgeAt(hull: seq<Point>, i: int, c: Point)
    requires 0 <= i < |hull|
  {
    NearEdge(hull[i], hull[(i + 1) % |hull|], c)
  }

  predicate OnSomeEdge(hull: seq<Point>, c: Point)
  {
    exists i :: 0 <= i < |hull| && NearEdgeAt(hull, i, c)
  }

  /** The edge loop at the end of `is_stable`. */
  method OnHullEdge(hull: seq<Point>, c: Point) returns (onEdge: bool)
    ensures onEdge == OnSomeEdge(hull, c)
  {
    for i := 0 to |hull|
      invariant forall k :: 0 <= k < i ==> !NearEdgeAt(hull, k, c)
    {
      var p1 := hull[i];
      var p2 := hull[(i + 1) % |hull|];
      if Abs(Cross(p1, p2, c)) < EdgeTolerance {
        if Min(p1.x, p2.x) <= c.x <= Max(p1.x, p2.x) && Min(p1.y, p2.y) <= c.y <= Max(p1.y, p2.y) {
          assert NearEdgeAt(hull, i, c);
          return true;
        }
      }
    }
    return false;
  }

  // ---------------------------------------------------------------------
  // Stability

  /** `is_stable`: at least three distinct contact points, and their
      centroid inside their hull or on one of its edges. */
  function Stable(state: ClimberState, coords: map<int, Point>): bool
    requires state.ResolvesIn(coords)
  {
    var contacts := Contacts(state, coords);
    if |contacts| < 3 then false
    else
      var com := Centroid(contacts);
      var pts := SortPoints(contacts);
      if |pts| <= 2 then false
      else
        var hull := Hull(pts);
        Crossings(com.x, com.y, hull, |hull|) % 2 == 1 || OnSomeEdge(hull, com)
  }

  method IsStable(state: ClimberState, coords: map<int, Point>) returns (stable: bool)
    requires state.ResolvesIn(coords)
    ensures stable == Stable(state, coords)
  {
    var contacts := Contacts(state, coords);
    if |contacts| < 3 {
      return false;
    }
    var com := Centroid(contacts);
    var pts := SortPoints(contacts);
    if |pts| <= 2 {
      return false;
    }
    var lower := HalfHull(pts);
    var upper := HalfHull(Reversed(pts));
    var hull := lower[..|lower| - 1] + upper[..|upper| - 1];
    assert hull == Hull(pts);
    var inside := PointInPolygon(com.x, com.y, hull);
    if inside {
      return true;
    }
    stable := OnHullEdge(hull, com);
  }

  /** A stable state has at least three limbs on holds, at three distinct
      positions. */
  lemma StableNeedsThreeContacts(state: ClimberState, coords: map<int, Point>)
    requires state.ResolvesIn(coords) && Stable(state, coords)
    ensures |LimbPoints(state, coords)| >= 3
    ensures |Contacts(state, coords)| >= 3 && Distinct(Contacts(state, coords))
  {
  }

  /** Inserting a point adds its coordinates to the sums. */
  lemma {:induction false} InsertSums(sorted: seq<Point>, p: Point)
    ensures SumX(Insert(sorted, p)) == SumX(sorted) + p.x
    ensures SumY(Insert(sorted, p)) == SumY(sorted) + p.y
    decreases |sorted|
  {
    SumOfOptional([p], p);
    if sorted == [] {
    } else {
      var s0, rest := sorted[0], sorted[1..];
      assert sorted == [s0] + rest;
      SumOfOptional([s0], s0);
      SumAppend([s0], rest);
      if LexLess(s0, p) {
        InsertSums(rest, p);
        SumAppend([s0], Insert(rest, p));
      } else {
        SumAppend([p], sorted);
      }
    }
  }

  /** Sorting does not change the coordinate sums. */
  lemma {:induction false} SortSums(ps: seq<Point>)
    ensures SumX(SortPoints(ps)) == SumX(ps) && SumY(SortPoints(ps)) == SumY(ps)
  {
    if ps != [] {
      SortSums(ps[..|ps| - 1]);
      InsertSums(SortPoints(ps[..|ps| - 1]), ps[|ps| - 1]);
    }
  }

  /** Every member of a strictly increasing list is its head or after it. */
  lemma HeadIsLeast(sorted: seq<Point>, p: Point)
    requires StrictlySorted(sorted) && p in sorted
    ensures p == sorted[0] || LexLess(sorted[0], p)
  {
    var i :| 0 <= i < |sorted| && sorted[i] == p;
    if i > 0 {
      assert LexLess(sorted[0], sorted[i]);
    }
  }

  /** Two strictly increasing lists with the same members are the same list. */
  lemma {:induction false} SortedUnique(a: seq<Point>, b: seq<Point>)
    requires StrictlySorted(a) && StrictlySorted(b)
    requires forall p :: p in a <==> p in b
    ensures a == b
    decreases |a|
  {
    if a == [] {
      assert forall k :: 0 <= k < |b| ==> b[k] in a;
    } else {
      assert b != [] by { assert a[0] in b; }
      TailSorted(a);
      TailSorted(b);
      HeadIsLeast(a, b[0]);
      HeadIsLeast(b, a[0]);
      assert a[0] == b[0];
      forall p ensures p in a[1..] <==> p in b[1..] {
        if p in a[1..] {
          var k :| 0 <= k < |a[1..]| && a[1..][k] == p;
          assert p in a;
          var m :| 0 <= m < |b| && b[m] == p;
          assert m != 0;
          assert b[1..][m - 1] == p;
        }
        if p in b[1..] {
          var k :| 0 <= k < |b[1..]| && b[1..][k] == p;
          assert p in b;
          var m :| 0 <= m < |a| && a[m] == p;
          assert m != 0;
          assert a[1..][m - 1] == p;
        }
      }
      SortedUnique(a[1..], b[1..]);
      assert a == [a[0]] + a[1..] && b == [b[0]] + b[1..];
    }
  }

  /** Stability depends only on where the limbs are, not on which limb is
      where or how many limbs share a hold: two stances (over possibly
      different coordinate maps) with the same set of contact positions are
      both stable or both unstable. */
  lemma StableDependsOnPositions(s1: ClimberState, c1: map<int, Point>, s2: ClimberState, c2: map<int, Point>)
    requires s1.ResolvesIn(c1) && s2.ResolvesIn(c2)
    requires forall p :: p in LimbPoints(s1, c1) <==> p in LimbPoints(s2, c2)
    ensures Stable(s1, c1) == Stable(s2, c2)
  {
    var a, b := Contacts(s1, c1), Contacts(s2, c2);
    SortPointsSorted(a);
    SortPointsSorted(b);
    var sa, sb := SortPoints(a), SortPoints(b);
    forall p ensures p in sa <==> p in sb {
      calc {
        p in sa;
        p in multiset(sa);
        p in multiset(a);
        p in a;
        p in b;
        p in multiset(b);
        p in multiset(sb);
        p in sb;
      }
    }
    SortedUnique(sa, sb);
    assert |a| == |b|;
    SortSums(a);
    SortSums(b);
    assert SumX(a) == SumX(b) && SumY(a) == SumY(b);
    if |a| >= 3 {
      assert Centroid(a) == Centroid(b);
    }
  }

  /** The slices the recursive definitions take of a three-point list. */
  lemma Slices(a: Point, b: Point, c: Point)
    ensures [a, b, c][..2] == [a, b] && [a, b][..1] == [a] && [a][..0] == []
    ensures [a, b, c][1..] == [b, c] && [b, c][1..] == [c] && [c][1..] == []
  {
  }

  /** The contacts, sorted order and centroid of three distinct points. */
  lemma ThreePoints(a: Point, b: Point, c: Point)
    requires a != b && a != c && b != c
    ensures Dedup([a, b, c]) == [a, b, c]
    ensures SumX([a, b, c]) == a.x + b.x + c.x && SumY([a, b, c]) == a.y + b.y + c.y
  {
    Slices(a, b, c);
    assert Dedup([a]) == [a];
    assert Dedup([a, b]) == [a, b];
    assert SumX([a]) == a.x && SumY([a]) == a.y;
    assert SumX([a, b]) == a.x + b.x && SumY([a, b]) == a.y + b.y;
  }

  /** The chain of three points: the middle one is dropped unless the
      three turn counter-clockwise. */
  lemma ChainOfThree(a: Point, b: Point, c: Point)
    ensures Chain([a, b, c]) == if Cross(a, b, c) > 0.0 then [a, b, c] else [a, c]
  {
    Slices(a, b, c);
    assert Chain([a]) == [a];
    assert Chain([a, b]) == [a, b];
  }

  /** Reversing a triple flips its orientation. */
  lemma CrossReversed(a: Point, b: Point, c: Point)
    ensures Cross(c, b, a) == -Cross(a, b, c)
  {
  }

  /** The hull of three points taken in the given order: all three in
      counter-clockwise order, or the two ends when they are collinear. */
  lemma HullOfThree(a: Point, b: Point, c: Point)
    ensures Hull([a, b, c]) == if Cross(a, b, c) > 0.0 then [a, b, c]
                               else if Cross(a, b, c) < 0.0 then [a, c, b]
                               else [a, c]
  {
    var turn := Cross(a, b, c);
    var lower, upper := Chain([a, b, c]), Chain([c, b, a]);
    ChainOfThree(a, b, c);
    ChainOfThree(c, b, a);
    CrossReversed(a, b, c);
    assert Reversed([a, b, c]) == [c, b, a];
    assert Hull([a, b, c]) == lower[..|lower| - 1] + upper[..|upper| - 1];
    if turn > 0.0 {
      assert lower == [a, b, c] && upper == [c, a];
      assert lower[..2] + upper[..1] == [a, b, c];
    } else if turn < 0.0 {
      assert lower == [a, c] && upper == [c, b, a];
      assert lower[..1] + upper[..2] == [a, c, b];
    } else {
      assert lower == [a, c] && upper == [c, a];
      assert lower[..1] + upper[..1] == [a, c];
    }
  }

  /** Three points already in increasing order stay in that order. */
  lemma SortThreeInOrder(a: Point, b: Point, c: Point)
    requires LexLess(a, b) && LexLess(b, c)
    ensures SortPoints([a, b, c]) == [a, b, c]
  {
    Slices(a, b, c);
    assert SortPoints([a]) == [a];
    assert Insert([a], b) == [a] + Insert([], b);
    assert SortPoints([a, b]) == [a, b];
    assert Insert([a, b], c) == [a] + Insert([b], c);
    assert Insert([b], c) == [b] + Insert([], c);
  }

  /** Three points whose last one belongs in the middle. */
  lemma SortThreeLastMiddle(a: Point, b: Point, c: Point)
    requires LexLess(a, b) && LexLess(a, c) && LexLess(c, b)
    ensures SortPoints([a, b, c]) == [a, c, b]
  {
    Slices(a, b, c);
    assert SortPoints([a]) == [a];
    assert Insert([a], b) == [a] + Insert([], b);
    assert SortPoints([a, b]) == [a, b];
    assert Insert([a, b], c) == [a] + Insert([b], c);
  }

  /** Stability once the contacts, their sorted order and their hull are
      known. */
  lemma StableFrom(state: ClimberState, coords: map<int, Point>, pts: seq<Point>, hull: seq<Point>)
    requires state.ResolvesIn(coords) && |Contacts(state, coords)| >= 3
    requires SortPoints(Contacts(state, coords)) == pts && Hull(pts) == hull
    ensures var com := Centroid(Contacts(state, coords));
            Stable(state, coords) <==> Crossings(com.x, com.y, hull, |hull|) % 2 == 1 || OnSomeEdge(hull, com)
  {
  }

  /** Three contacts on one horizontal line, listed from left to right:
      the hull degenerates to the segment between the outer two, no edge
      crosses, and the centroid is stable because it lies on that segment. */
  lemma CollinearContactsStable(coords: map<int, Point>, i: int, j: int, k: int)
    requires i in coords && j in coords && k in coords
    requires coords[i].y == coords[j].y == coords[k].y
    requires coords[i].x < coords[j].x < coords[k].x
    ensures ClimberState(Some(i), Some(j), Some(k), None).ResolvesIn(coords)
    ensures Stable(ClimberState(Some(i), Some(j), Some(k), None), coords)
  {
    var state := ClimberState(Some(i), Some(j), Some(k), None);
    var a, b, c := coords[i], coords[j], coords[k];
    assert state.ResolvesIn(coords);
    assert LimbPoints(state, coords) == [a, b, c];
    ThreePoints(a, b, c);
    var com := Centroid([a, b, c]);
    assert com.y == a.y;
    assert a.x < com.x < c.x;
    assert Cross(a, b, c) == 0.0 by {
      assert c.y - a.y == 0.0 && b.y - a.y == 0.0;
    }
    assert Cross(a, c, com) == 0.0 by {
      assert com.y - a.y == 0.0 && c.y - a.y == 0.0;
    }
    assert NearEdgeAt([a, c], 0, com);
    SortThreeInOrder(a, b, c);
    HullOfThree(a, b, c);
    StableFrom(state, coords, [a, b, c], [a, c]);
  }

  /** A right triangle of contacts holds its centroid strictly inside. */
  lemma TriangleStable()
    ensures var coords := map[1 := Point(0.0, 0.0), 2 := Point(4.0, 0.0), 3 := Point(0.0, 4.0)];
            var state := ClimberState(Some(1), None, Some(2), Some(3));
            state.ResolvesIn(coords) && Stable(state, coords)
  {
    var coords := map[1 := Point(0.0, 0.0), 2 := Point(4.0, 0.0), 3 := Point(0.0, 4.0)];
    var state := ClimberState(Some(1), None, Some(2), Some(3));
    var a, b, c := Point(0.0, 0.0), Point(4.0, 0.0), Point(0.0, 4.0);
    assert Cross(a, c, b) < 0.0;
    var hull := [a, b, c];
    assert Crossings(4.0 / 3.0, 4.0 / 3.0, hull, 1) == 0;
    assert Crossings(4.0 / 3.0, 4.0 / 3.0, hull, 2) == 1;
    assert Crossings(4.0 / 3.0, 4.0 / 3.0, hull, 3) == 1;
    assert LimbPoints(state, coords) == [a, b, c];
    ThreePoints(a, b, c);
    assert Centroid([a, b, c]) == Point(4.0 / 3.0, 4.0 / 3.0);
    SortThreeLastMiddle(a, b, c);
    HullOfThree(a, c, b);
    StableFrom(state, coords, [a, c, b], hull);
  }
}
