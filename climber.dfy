/** Anthropometric model of the climber: six body lengths, first as fractions
    of the climber's height and then, once scaled, in pixels. */
module Climber {
  import opened Types

  /** A snapshot of the six lengths of a climber model. */
  datatype BodyDims = BodyDims(
    upperArm: real, forearm: real, thigh: real, shin: real,
    torsoWidth: real, torsoHeight: real)
  {
    /** Every length multiplied by `k`. */
    function Scaled(k: real): BodyDims
    {
      BodyDims(upperArm * k, forearm * k, thigh * k, shin * k, torsoWidth * k, torsoHeight * k)
    }

    /** The lengths as a list, in declaration order. */
    function Lengths(): (ls: seq<real>)
      ensures |ls| == 6
    {
      [upperArm, forearm, thigh, shin, torsoWidth, torsoHeight]
    }

    predicate NonNegative()
    {
      forall i :: 0 <= i < |Lengths()| ==> Lengths()[i] >= 0.0
    }

    predicate Positive()
    {
      forall i :: 0 <= i < |Lengths()| ==> Lengths()[i] > 0.0
    }
  }

  /** The lengths a fresh model starts with, as fractions of body height. */
  const Defaults := BodyDims(0.15, 0.15, 0.25, 0.20, 0.15, 0.25)

  /** The climber height assumed when the caller gives none, in metres. */
  const DefaultHeightM: real := 1.7

  class ClimberModel {
    var upperArmLength: real
    var forearmLength: real
    var thighLength: real
    var shinLength: real
    var torsoWidth: real
    var torsoHeight: real

    function Dims(): BodyDims
      reads this
    {
      BodyDims(upperArmLength, forearmLength, thighLength, shinLength, torsoWidth, torsoHeight)
    }

    constructor ()
      ensures Dims() == Defaults
      ensures Dims().Positive()
    {
      upperArmLength := 0.15;
      forearmLength := 0.15;
      thighLength := 0.25;
      shinLength := 0.20;
      torsoWidth := 0.15;
      torsoHeight := 0.25;
    }

    /** Converts every length in place with the factor
        imageHeight / realClimberHeightM; a zero height divides by zero. */
    method ScaleToImage(imageHeight: real, realClimberHeightM: real := DefaultHeightM)
      requires realClimberHeightM != 0.0
      modifies this
      ensures Dims() == old(Dims()).Scaled(imageHeight / realClimberHeightM)
    {
      var metersToPixels := imageHeight / realClimberHeightM;
      upperArmLength := upperArmLength * metersToPixels;
      forearmLength := forearmLength * metersToPixels;
      thighLength := thighLength * metersToPixels;
      shinLength := shinLength * metersToPixels;
      torsoWidth := torsoWidth * metersToPixels;
      torsoHeight := torsoHeight * metersToPixels;
    }
  }

  /** Scaling by the same non-zero factor keeps the ratio of any two lengths. */
  lemma ScalingKeepsRatios(d: BodyDims, k: real, i: nat, j: nat)
    requires k != 0.0
    requires i < 6 && j < 6 && d.Lengths()[j] != 0.0
    ensures d.Scaled(k).Lengths()[j] != 0.0
    ensures d.Scaled(k).Lengths()[i] / d.Scaled(k).Lengths()[j] == d.Lengths()[i] / d.Lengths()[j]
  {
    var a, b := d.Lengths()[i], d.Lengths()[j];
    ScaledLengths(d, k);
    assert d.Scaled(k).Lengths()[i] == a * k;
    assert d.Scaled(k).Lengths()[j] == b * k;
    RatioOfScaled(a, b, k);
  }

  lemma ScaledLengths(d: BodyDims, k: real)
    ensures forall i :: 0 <= i < 6 ==> d.Scaled(k).Lengths()[i] == d.Lengths()[i] * k
  {
  }

  lemma RatioOfScaled(a: real, b: real, k: real)
    requires k != 0.0 && b != 0.0
    ensures b * k != 0.0
    ensures (a * k) / (b * k) == a / b
  {
    if b * k == 0.0 { ProductZero(b, k); }
    assert a * k == (a / b) * (b * k);
  }

  /** Two scalings compound: the second multiplies the already scaled lengths. */
  lemma ScalingCompounds(d: BodyDims, k1: real, k2: real)
    ensures d.Scaled(k1).Scaled(k2) == d.Scaled(k1 * k2)
  {
    var twice, once := d.Scaled(k1).Scaled(k2), d.Scaled(k1 * k2);
    forall i | 0 <= i < 6 ensures twice.Lengths()[i] == once.Lengths()[i] {
      ScaledTwiceAt(d, k1, k2, i);
    }
    SameLengths(twice, once);
  }

  lemma ScaledTwiceAt(d: BodyDims, k1: real, k2: real, i: nat)
    requires i < 6
    ensures d.Scaled(k1).Scaled(k2).Lengths()[i] == d.Scaled(k1 * k2).Lengths()[i]
  {
    ScaledLengths(d, k1);
    ScaledLengths(d.Scaled(k1), k2);
    ScaledLengths(d, k1 * k2);
    MulAssoc(d.Lengths()[i], k1, k2);
  }

  /** Dimensions with the same lengths are the same. */
  lemma SameLengths(a: BodyDims, b: BodyDims)
    requires forall i :: 0 <= i < 6 ==> a.Lengths()[i] == b.Lengths()[i]
    ensures a == b
  {
    assert a.Lengths()[0] == b.Lengths()[0] && a.Lengths()[1] == b.Lengths()[1];
    assert a.Lengths()[2] == b.Lengths()[2] && a.Lengths()[3] == b.Lengths()[3];
    assert a.Lengths()[4] == b.Lengths()[4] && a.Lengths()[5] == b.Lengths()[5];
  }

  lemma MulAssoc(x: real, k1: real, k2: real)
    ensures x * k1 * k2 == x * (k1 * k2)
  {
  }

  /** Scaling is not idempotent: scaling the defaults twice by a factor other
      than 0 and 1 differs from scaling them once. */
  lemma ScalingNotIdempotent(k: real)
    requires k != 0.0 && k != 1.0
    ensures Defaults.Scaled(k).Scaled(k) != Defaults.Scaled(k)
  {
    var once := Defaults.Scaled(k);
    assert once.Scaled(k).upperArm - once.upperArm == 0.15 * k * (k - 1.0);
    SignOfNonZeroProduct(0.15 * k, k - 1.0);
  }

  /** A model built with the defaults and scaled once for a 1000-pixel image
      at the default height gets lengths of 1000 / 1.7 pixels per unit. */
  method ScaledDefaultsExample() returns (c: ClimberModel)
    ensures c.Dims() == Defaults.Scaled(1000.0 / 1.7)
    ensures c.Dims().upperArm == 1500.0 / 17.0
  {
    c := new ClimberModel();
    c.ScaleToImage(1000.0);
  }
}
