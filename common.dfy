/**
 * Measurement planes, Pauli axes and signs, and the two measurement-basis
 * representations (planar and axis) of graphix_zx/common.py.
 *
 * Angles are exact reals measured in units of pi (an angle `a` stands for
 * `a * pi` radians), so that the multiples of pi the source writes with
 * `np.pi` are represented without rounding.
 */
module Common {

  /** Measurement plane of a single-qubit projective measurement. */
  datatype Plane = XY | YZ | XZ

  /** Pauli measurement axis. */
  datatype Axis = X | Y | Z

  /** Sign of a Pauli measurement. */
  datatype Sign = Plus | Minus

  /** An angle in units of pi. */
  type Angle = real

  function OppositeSign(s: Sign): (r: Sign)
    ensures r != s
  {
    if s == Plus then Minus else Plus
  }

  /** `k` full turns, in units of pi. */
  function Turns(k: int): Angle
  {
    2.0 * (k as real)
  }

  /** Two angles denote the same direction: they differ by a multiple of 2*pi. */
  ghost predicate SameAngle(a: Angle, b: Angle)
  {
    exists k: int :: a - b == Turns(k)
  }

  /** A measurement basis given by a plane and an angle in that plane. */
  datatype PlannerMeasBasis = PlannerMeasBasis(plane: Plane, angle: Angle)
  {
    /** The antipodal basis: same plane, angle shifted by pi. */
    function Flip(): PlannerMeasBasis
    {
      PlannerMeasBasis(plane, angle + 1.0)
    }

    /** Complex conjugation: negates the angle in XY and YZ, keeps XZ. */
    function Conjugate(): PlannerMeasBasis
    {
      match plane
      case XY => PlannerMeasBasis(XY, -angle)
      case YZ => PlannerMeasBasis(YZ, -angle)
      case XZ => PlannerMeasBasis(XZ, angle)
    }
  }

  /** A Pauli measurement basis given by an axis and a sign. */
  datatype AxisMeasBasis = AxisMeasBasis(axis: Axis, sign: Sign)
  {
    /** The plane the axis lies in, as the source reports it. */
    function MeasPlane(): Plane
    {
      match axis
      case X => XY
      case Y => YZ
      case Z => XZ
    }

    /** The angle of the axis inside MeasPlane(). */
    function MeasAngle(): (a: Angle)
      ensures 0.0 <= a < 2.0
    {
      if axis == Y then (if sign == Plus then 0.5 else 1.5)
      else (if sign == Plus then 0.0 else 1.0)
    }

    /** The antipodal basis: same axis, opposite sign. */
    function Flip(): AxisMeasBasis
    {
      AxisMeasBasis(axis, OppositeSign(sign))
    }

    /** Complex conjugation: only the Y axis changes sign. */
    function Conjugate(): AxisMeasBasis
    {
      if axis == Y then AxisMeasBasis(Y, OppositeSign(sign)) else AxisMeasBasis(axis, sign)
    }

    /** The planar basis this axis basis denotes (its plane and angle). */
    function AsPlanner(): PlannerMeasBasis
    {
      PlannerMeasBasis(MeasPlane(), MeasAngle())
    }
  }

  /** The basis used when none is given: the XY plane at angle 0. */
  function DefaultMeasBasis(): (b: PlannerMeasBasis)
    ensures b == AxisMeasBasis(X, Plus).AsPlanner()
  {
    PlannerMeasBasis(XY, 0.0)
  }

  /** Each axis lies in one plane: X in XY, Y in YZ, Z in XZ, and no two axes share a plane. */
  lemma AxisPlaneInjective(a: AxisMeasBasis, b: AxisMeasBasis)
    ensures a.MeasPlane() == b.MeasPlane() <==> a.axis == b.axis
  {
  }

  /** Axis flip keeps the axis, swaps the sign, and undoes itself. */
  lemma AxisFlipInvolution(b: AxisMeasBasis)
    ensures b.Flip().axis == b.axis && b.Flip().sign != b.sign
    ensures b.Flip().Flip() == b
  {
  }

  /** Axis flip turns the measured direction by pi. */
  lemma {:induction false} AxisFlipShiftsAngle(b: AxisMeasBasis)
    ensures b.Flip().MeasPlane() == b.MeasPlane()
    ensures SameAngle(b.Flip().MeasAngle(), b.MeasAngle() + 1.0)
  {
    if b.sign == Plus {
      assert b.Flip().MeasAngle() - (b.MeasAngle() + 1.0) == Turns(0);
    } else {
      assert b.Flip().MeasAngle() - (b.MeasAngle() + 1.0) == Turns(-1);
    }
  }

  /** Axis conjugation keeps the plane, swaps the sign exactly for Y, and undoes itself. */
  lemma AxisConjugateInvolution(b: AxisMeasBasis)
    ensures b.Conjugate().MeasPlane() == b.MeasPlane()
    ensures b.Conjugate().sign != b.sign <==> b.axis == Y
    ensures b.Conjugate().Conjugate() == b
  {
  }

  /** Planar flip keeps the plane, and flipping twice turns by 2*pi. */
  lemma {:induction false} PlannerFlipTwice(b: PlannerMeasBasis)
    ensures b.Flip().plane == b.plane
    ensures SameAngle(b.Flip().Flip().angle, b.angle)
  {
    assert b.Flip().Flip().angle - b.angle == Turns(1);
  }

  /** Planar conjugation keeps the plane, undoes itself, and fixes exactly the XZ bases and angle 0. */
  lemma PlannerConjugateInvolution(b: PlannerMeasBasis)
    ensures b.Conjugate().plane == b.plane
    ensures b.Conjugate().Conjugate() == b
    ensures b.Conjugate() == b <==> b.plane == XZ || b.angle == 0.0
  {
  }

  /** The axis representation agrees with the planar one under flip (up to 2*pi). */
  lemma {:induction false} AxisFlipAgreesWithPlanner(b: AxisMeasBasis)
    ensures b.Flip().AsPlanner().plane == b.AsPlanner().Flip().plane
    ensures SameAngle(b.Flip().AsPlanner().angle, b.AsPlanner().Flip().angle)
  {
    AxisFlipShiftsAngle(b);
  }

  /** The axis representation agrees with the planar one under conjugation (up to 2*pi). */
  lemma {:induction false} AxisConjugateAgreesWithPlanner(b: AxisMeasBasis)
    ensures b.Conjugate().AsPlanner().plane == b.AsPlanner().Conjugate().plane
    ensures SameAngle(b.Conjugate().AsPlanner().angle, b.AsPlanner().Conjugate().angle)
  {
    var lhs, rhs := b.Conjugate().AsPlanner().angle, b.AsPlanner().Conjugate().angle;
    match b.axis
    case X =>
      if b.sign == Plus { assert lhs - rhs == Turns(0); }
      else { assert lhs - rhs == Turns(1); }
    case Y =>
      if b.sign == Plus { assert lhs - rhs == Turns(1); }
      else { assert lhs - rhs == Turns(1); }
    case Z =>
      assert lhs - rhs == Turns(0);
  }
}
