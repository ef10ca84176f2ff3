/** Shared vocabulary of the route annotator and the move planner: points, limbs,
    climber states, holds and the names of skeleton joints. */
module Types {

  datatype Option<+T> = None | Some(value: T)

  /** An outcome that is either a value or the message of the error raised. */
  datatype Result<+T> = Ok(value: T) | Err(error: string)

  /** A 2-D point; the y axis grows downwards, as on an image. */
  datatype Point = Point(x: real, y: real)

  /** Squared Euclidean distance between two points. */
  function SqDist(p: Point, q: Point): (d: real)
    ensures d >= 0.0
  {
    var dx, dy := p.x - q.x, p.y - q.y;
    SquareNonNegative(dx);
    SquareNonNegative(dy);
    dx * dx + dy * dy
  }

  lemma SquareNonNegative(a: real)
    ensures a * a >= 0.0
  {
    if a < 0.0 { assert a * a == (-a) * (-a); }
  }

  lemma SquarePositive(a: real)
    requires a != 0.0
    ensures a * a > 0.0
  {
    if a < 0.0 { assert a * a == (-a) * (-a); }
  }

  lemma SignOfProduct(a: real, b: real)
    requires a >= 0.0 && b >= 0.0
    ensures a * b >= 0.0
  {
  }

  lemma SignOfProductStrict(a: real, b: real)
    requires a > 0.0 && b > 0.0
    ensures a * b > 0.0
  {
  }

  /** On non-negative reals, squaring preserves and reflects order. */
  lemma SquaresOrdered(a: real, b: real)
    requires a >= 0.0 && b >= 0.0
    ensures a <= b <==> a * a <= b * b
  {
    assert b * b - a * a == (b - a) * (b + a);
    if a <= b {
      SignOfProduct(b - a, b + a);
    } else {
      SignOfProductStrict(a - b, a + b);
      assert a * a - b * b == (a - b) * (a + b);
    }
  }

  lemma ProductZero(a: real, b: real)
    requires a * b == 0.0 && b != 0.0
    ensures a == 0.0
  {
    assert a == (a * b) / b;
  }

  lemma SignOfNonZeroProduct(a: real, b: real)
    requires a != 0.0 && b != 0.0
    ensures a * b != 0.0
  {
    if a * b == 0.0 { ProductZero(a, b); }
  }

  /** The contract of Python's `math.hypot`, for a distance function passed in
      as a parameter: never negative, and its square is the squared length. */
  ghost predicate IsHypot(hypot: (real, real) -> real)
  {
    forall dx: real, dy: real :: hypot(dx, dy) >= 0.0 && hypot(dx, dy) * hypot(dx, dy) == dx * dx + dy * dy
  }

  /** The distance between two points as measured by `hypot`. */
  function Dist(hypot: (real, real) -> real, p: Point, q: Point): real
  {
    hypot(p.x - q.x, p.y - q.y)
  }

  /** A non-negative real whose square is `s` is the only such one. */
  lemma RootUnique(r: real, s: real, len: real)
    requires r >= 0.0 && len >= 0.0
    requires r * r == s && len * len == s
    ensures r == len
  {
    assert (r - len) * (r + len) == r * r - len * len;
    if r + len != 0.0 { ProductZero(r - len, r + len); }
  }

  /** `Dist` is the square root of `SqDist`. */
  lemma DistSquared(hypot: (real, real) -> real, p: Point, q: Point)
    requires IsHypot(hypot)
    ensures Dist(hypot, p, q) >= 0.0
    ensures Dist(hypot, p, q) * Dist(hypot, p, q) == SqDist(p, q)
  {
    var h := hypot(p.x - q.x, p.y - q.y);
    assert h >= 0.0 && h * h == (p.x - q.x) * (p.x - q.x) + (p.y - q.y) * (p.y - q.y);
  }

  /** A comparison of a distance with a non-negative bound can be decided on squares. */
  lemma DistAtMost(hypot: (real, real) -> real, p: Point, q: Point, bound: real)
    requires IsHypot(hypot) && bound >= 0.0
    ensures Dist(hypot, p, q) <= bound <==> SqDist(p, q) <= bound * bound
  {
    DistSquared(hypot, p, q);
    SquaresOrdered(Dist(hypot, p, q), bound);
  }

  /** The list in the opposite order (Python's `reversed` and `[::-1]`). */
  function Reversed<T>(s: seq<T>): (r: seq<T>)
    ensures |r| == |s| && forall i :: 0 <= i < |s| ==> r[i] == s[|s| - 1 - i]
  {
    seq(|s|, i requires 0 <= i < |s| => s[|s| - 1 - i])
  }

  /** The coordinate sums of a list of points. */
  function SumX(ps: seq<Point>): real
  {
    if ps == [] then 0.0 else SumX(ps[..|ps| - 1]) + ps[|ps| - 1].x
  }

  function SumY(ps: seq<Point>): real
  {
    if ps == [] then 0.0 else SumY(ps[..|ps| - 1]) + ps[|ps| - 1].y
  }

  lemma {:induction false} SumAppend(a: seq<Point>, b: seq<Point>)
    ensures SumX(a + b) == SumX(a) + SumX(b)
    ensures SumY(a + b) == SumY(a) + SumY(b)
    decreases |b|
  {
    if b == [] {
      assert a + b == a;
    } else {
      assert (a + b)[..|a + b| - 1] == a + b[..|b| - 1];
      SumAppend(a, b[..|b| - 1]);
    }
  }

  lemma SumOfFour(c1: seq<Point>, c2: seq<Point>, c3: seq<Point>, c4: seq<Point>)
    ensures SumX(c1 + c2 + c3 + c4) == SumX(c1) + SumX(c2) + SumX(c3) + SumX(c4)
    ensures SumY(c1 + c2 + c3 + c4) == SumY(c1) + SumY(c2) + SumY(c3) + SumY(c4)
  {
    SumAppend(c1, c2);
    SumAppend(c1 + c2, c3);
    SumAppend(c1 + c2 + c3, c4);
  }

  /** A list of at most one point sums to that point, or to the origin when it
      is empty. */
  lemma SumOfOptional(c: seq<Point>, p: Point)
    requires c == [p] || (c == [] && p == Point(0.0, 0.0))
    ensures SumX(c) == p.x && SumY(c) == p.y
  {
    if c == [p] {
      assert c[..0] == [];
    }
  }

  /** The four limbs, in the order every component of the system visits them. */
  datatype Limb = RightHand | LeftHand | RightFoot | LeftFoot
  {
    predicate IsHand() { this == RightHand || this == LeftHand }
    predicate IsRight() { this == RightHand || this == RightFoot }
  }

  const AllLimbs: seq<Limb> := [RightHand, LeftHand, RightFoot, LeftFoot]

  lemma AllLimbsListed(l: Limb)
    ensures l in AllLimbs
  {
  }

  /** One body configuration: the hold id each limb is on, if any
      (`State` of the planner, `ClimberState` of the annotator). */
  datatype ClimberState = ClimberState(RH: Option<int>, LH: Option<int>, RF: Option<int>, LF: Option<int>)
  {
    function Get(l: Limb): Option<int>
    {
      match l
      case RightHand => RH
      case LeftHand => LH
      case RightFoot => RF
      case LeftFoot => LF
    }

    function Set(l: Limb, v: Option<int>): (s: ClimberState)
      ensures s.Get(l) == v
      ensures forall m :: m != l ==> s.Get(m) == Get(m)
    {
      match l
      case RightHand => this.(RH := v)
      case LeftHand => this.(LH := v)
      case RightFoot => this.(RF := v)
      case LeftFoot => this.(LF := v)
    }

    /** Every assigned limb refers to a key of `coords`. */
    predicate ResolvesIn<V>(coords: map<int, V>)
    {
      forall l :: Get(l).Some? ==> Get(l).value in coords
    }
  }

  const EmptyState := ClimberState(None, None, None, None)

  /** Two states are equal exactly when every limb agrees. */
  lemma StateExtensionality(s: ClimberState, t: ClimberState)
    requires forall l :: s.Get(l) == t.Get(l)
    ensures s == t
  {
    assert s.Get(RightHand) == t.Get(RightHand);
    assert s.Get(LeftHand) == t.Get(LeftHand);
    assert s.Get(RightFoot) == t.Get(RightFoot);
    assert s.Get(LeftFoot) == t.Get(LeftFoot);
  }

  datatype HoldType = StartHand | StartFoot | FinishHold | ClimbingHold

  /** An annotated hold; the position is normalised to the image size. */
  datatype Hold = Hold(id: int, xNorm: real, yNorm: real, holdType: HoldType)

  /** The ids that occur among `holds`. */
  function HoldIds(holds: seq<Hold>): set<int>
  {
    set h | h in holds :: h.id
  }

  /** Every placed limb names a hold that exists; no limb refers to
      a hold that is missing. */
  predicate ResolvesInHolds(state: ClimberState, holds: seq<Hold>)
  {
    forall l :: state.Get(l).Some? ==> state.Get(l).value in HoldIds(holds)
  }

  /** The planner's answer: successive climber states. */
  type BetaSequence = seq<ClimberState>

  /** The names under which a synthesised skeleton reports its joints. */
  datatype JointName =
    | Core
    | ShoulderR | ShoulderL | HipR | HipL
    | ElbowR | HandR | ElbowL | HandL
    | KneeR | FootR | KneeL | FootL

  type Joints = map<JointName, Point>

  /** The joint a limb hangs from: shoulder for hands, hip for feet. */
  function Proximal(l: Limb): JointName
  {
    match l
    case RightHand => ShoulderR
    case LeftHand => ShoulderL
    case RightFoot => HipR
    case LeftFoot => HipL
  }

  /** The bending joint of a limb: elbow or knee. */
  function Middle(l: Limb): JointName
  {
    match l
    case RightHand => ElbowR
    case LeftHand => ElbowL
    case RightFoot => KneeR
    case LeftFoot => KneeL
  }

  /** The end of a limb: hand or foot. */
  function Distal(l: Limb): JointName
  {
    match l
    case RightHand => HandR
    case LeftHand => HandL
    case RightFoot => FootR
    case LeftFoot => FootL
  }

  /** The joints that belong to the torso block. */
  const TorsoCorners: set<JointName> := {ShoulderR, ShoulderL, HipR, HipL}

  /** The joints that exist only when the limb is placed. */
  function LimbJointNames(l: Limb): (names: set<JointName>)
    ensures names !! TorsoCorners && Core !in names
  {
    {Middle(l), Distal(l)}
  }

  /** Normalised coordinates scaled into a frame of the given size. */
  function ToPixels(xNorm: real, yNorm: real, width: real, height: real): Point
  {
    Point(xNorm * width, yNorm * height)
  }
}
