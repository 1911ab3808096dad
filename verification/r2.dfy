/** The two-dimensional vector algebra of package r2 (r2/r2.go), over the
    mathematical reals instead of float64, together with the 2x3 affine
    matrix (ebiten's GeoM) that the matrix helpers operate on. */
module R2 {

  import RealArith

  datatype Vector = Vector(x: real, y: real)

  const Zero: Vector := Vector(0.0, 0.0)

  function Add(v: Vector, w: Vector): (r: Vector)
    ensures r.x - w.x == v.x && r.y - w.y == v.y
  {
    Vector(v.x + w.x, v.y + w.y)
  }

  function Sub(v: Vector, w: Vector): (r: Vector)
    ensures Add(r, w) == v
  {
    Vector(v.x - w.x, v.y - w.y)
  }

  function Neg(v: Vector): (r: Vector)
    ensures Add(v, r) == Zero
  {
    Vector(-v.x, -v.y)
  }

  function Scale(v: Vector, k: real): (r: Vector)
    ensures k == 1.0 ==> r == v
    ensures k == 0.0 ==> r == Zero
  {
    Vector(v.x * k, v.y * k)
  }

  function Dot(v: Vector, w: Vector): real
  {
    v.x * w.x + v.y * w.y
  }

  /** The scalar z-component of the three-dimensional cross product. */
  function Cross(v: Vector, w: Vector): real
  {
    v.x * w.y - w.x * v.y
  }

  /** The quarter turn (x, y) -> (y, -x) that the collider uses to turn an edge into a test axis. */
  function Orthogonal(v: Vector): (r: Vector)
    ensures r == Zero <==> v == Zero
  {
    Vector(v.y, -v.x)
  }

  /** The quarter turn is perpendicular to its input and keeps its length. */
  lemma OrthogonalPerpendicular(v: Vector)
    ensures Dot(Orthogonal(v), v) == 0.0
    ensures Dot(Orthogonal(v), Orthogonal(v)) == Dot(v, v)
  {
  }

  /** `r` is a square root of `x`, which is what `math.Sqrt(x)` returns for x >= 0. */
  predicate IsSqrt(x: real, r: real)
  {
    r >= 0.0 && r * r == x
  }

  lemma SqrtUnique(x: real, r1: real, r2: real)
    requires IsSqrt(x, r1) && IsSqrt(x, r2)
    ensures r1 == r2
  {
    RealArith.SquareInjective(r1, r2);
  }

  /** `Dot(v, v)` is zero exactly for the zero vector, so its square root
      (the magnitude) is zero exactly for the zero vector. */
  lemma MagnitudeZeroIff(v: Vector, len: real)
    requires IsSqrt(Dot(v, v), len)
    ensures len == 0.0 <==> v == Zero
  {
    if v != Zero {
      PositiveSquare(v);
    } else {
      ZeroMagnitude(len, Dot(v, v));
    }
  }

  lemma ZeroMagnitude(len: real, d: real)
    requires d == 0.0 && IsSqrt(d, len)
    ensures len == 0.0
  {
    RealArith.SquareInjective(len, 0.0);
  }

  /** `Vector.Normalize`, where `len` is the value `Magnitude` obtains from `math.Sqrt`. */
  function Normalize(v: Vector, len: real): (r: Vector)
    requires IsSqrt(Dot(v, v), len)
    ensures v == Zero ==> r == Zero
    ensures v != Zero ==> Dot(r, r) == 1.0 && exists k: real :: k > 0.0 && r == Scale(v, k)
  {
    MagnitudeZeroIff(v, len);
    if len == 0.0 then Zero
    else
      var k := 1.0 / len;
      assert Dot(Scale(v, k), Scale(v, k)) == Dot(v, v) * (k * k);
      assert k * k * (len * len) == 1.0;
      Scale(v, k)
  }

  /** `ProjectOntoMagnitude`: the signed length of the projection of `v` onto
      `a`, measured in units of `a`.  A zero `a` divides by zero. */
  function ProjectOntoMagnitude(v: Vector, a: Vector): (r: real)
    requires a != Zero
    ensures r * Dot(a, a) == Dot(v, a)
  {
    PositiveSquare(a);
    Dot(v, a) / Dot(a, a)
  }

  lemma PositiveSquare(a: Vector)
    requires a != Zero
    ensures Dot(a, a) > 0.0
  {
    RealArith.SumOfSquaresPositive(a.x, a.y, Dot(a, a));
  }

  /** `ProjectOnto`: the vector projection of `v` onto `a`. */
  function ProjectOnto(v: Vector, a: Vector): (r: Vector)
    requires a != Zero
    ensures exists k: real :: r == Scale(a, k)
    ensures Dot(Sub(v, r), a) == 0.0
  {
    var k := ProjectOntoMagnitude(v, a);
    assert Dot(Sub(v, Scale(a, k)), a) == Dot(v, a) - k * Dot(a, a);
    Scale(a, k)
  }

  lemma AddSubRoundTrip(v: Vector, w: Vector)
    ensures Add(Sub(v, w), w) == v
    ensures Sub(Add(v, w), w) == v
  {
  }

  lemma CrossAntisymmetric(v: Vector, w: Vector)
    ensures Cross(v, w) == -Cross(w, v)
    ensures Cross(v, v) == 0.0
  {
  }

  lemma OrthogonalTwiceNegates(v: Vector, w: Vector)
    ensures Orthogonal(Orthogonal(v)) == Neg(v)
    ensures Dot(v, Orthogonal(w)) == Cross(v, w)
  {
  }

  /** Projection is additive in the projected point, so shifting every point
      by `t` shifts every projection by the same amount. */
  lemma ProjectOntoMagnitudeAdditive(v: Vector, t: Vector, a: Vector)
    requires a != Zero
    ensures ProjectOntoMagnitude(Add(v, t), a) == ProjectOntoMagnitude(v, a) + ProjectOntoMagnitude(t, a)
  {
    PositiveSquare(a);
    var d := Dot(a, a);
    assert Dot(Add(v, t), a) == Dot(v, a) + Dot(t, a);
    assert (Dot(v, a) + Dot(t, a)) / d == Dot(v, a) / d + Dot(t, a) / d;
  }

  /** Dividing by the same positive `Dot(a, a)` keeps the order of projections. */
  lemma ProjectOntoMagnitudeOrder(v: Vector, w: Vector, a: Vector)
    requires a != Zero
    ensures ProjectOntoMagnitude(v, a) < ProjectOntoMagnitude(w, a) <==> Dot(v, a) < Dot(w, a)
  {
    PositiveSquare(a);
    RealArith.MulPreservesOrder(ProjectOntoMagnitude(v, a), ProjectOntoMagnitude(w, a), Dot(a, a));
  }

  /** Projecting onto the opposite axis negates the projection. */
  lemma ProjectOntoMagnitudeNeg(v: Vector, a: Vector)
    requires a != Zero
    ensures Neg(a) != Zero
    ensures ProjectOntoMagnitude(v, Neg(a)) == -ProjectOntoMagnitude(v, a)
  {
    PositiveSquare(a);
    assert Dot(Neg(a), Neg(a)) == Dot(a, a);
    assert Dot(v, Neg(a)) == -Dot(v, a);
    assert -Dot(v, a) / Dot(a, a) == -(Dot(v, a) / Dot(a, a));
  }

  /** An ebiten `GeoM`: the affine map p -> (a*p.x + b*p.y + tx, c*p.x + d*p.y + ty),
      stored as the 2x3 matrix [[a, b, tx], [c, d, ty]]. */
  datatype GeoM = GeoM(a: real, b: real, tx: real, c: real, d: real, ty: real)

  /** `GeoM.Element(i, j)`: the entry in row `i`, column `j`. */
  function Element(m: GeoM, i: nat, j: nat): real
    requires i < 2 && j < 3
  {
    match (i, j)
    case (0, 0) => m.a
    case (0, 1) => m.b
    case (0, 2) => m.tx
    case (1, 0) => m.c
    case (1, 1) => m.d
    case _ => m.ty
  }

  /** The image of point `p` under the affine map `m`. */
  function Apply(m: GeoM, p: Vector): Vector
  {
    Vector(m.a * p.x + m.b * p.y + m.tx, m.c * p.x + m.d * p.y + m.ty)
  }

  /** The unfinished `RotatedQuarter` of r2/r2.go.  It ignores `time`, negates
      the four linear entries and copies the two translation entries. */
  function RotatedQuarter(m: GeoM, time: int): (r: GeoM)
    ensures forall i: nat, j: nat :: i < 2 && j < 2 ==> Element(r, i, j) == -Element(m, i, j)
    ensures Element(r, 0, 2) == Element(m, 0, 2) && Element(r, 1, 2) == Element(m, 1, 2)
  {
    GeoM(-m.a, -m.b, m.tx, -m.c, -m.d, m.ty)
  }

  /** The result maps each point to where `m` maps its mirror image through
      the origin: a half turn of the input, not a quarter turn. */
  lemma RotatedQuarterIsHalfTurnOfInput(m: GeoM, time: int, p: Vector)
    ensures Apply(RotatedQuarter(m, time), p) == Apply(m, Neg(p))
  {
  }

  lemma RotatedQuarterInvolution(m: GeoM, t1: int, t2: int)
    ensures RotatedQuarter(RotatedQuarter(m, t1), t2) == m
  {
  }
}
