/** Package r2extra (r2extra/r2extra.go): a true quarter-turn of an affine
    matrix, and projections over golang/geo's `r2.Point`.  A `r2.Point` has
    the representation and the `Add`, `Sub`, `Mul`, `Dot` and `Cross` of
    `R2.Vector`; golang/geo's `Ortho` is the one operation that differs. */
module R2Extra {

  import opened R2

  /** golang/geo's `Point.Ortho`: the counter-clockwise quarter turn (x, y) -> (-y, x). */
  function Ortho(p: Vector): (r: Vector)
    ensures r == Zero <==> p == Zero
  {
    Vector(-p.y, p.x)
  }

  /** `Ortho` is r2's `Orthogonal` negated, perpendicular to its input, and
      turns counter-clockwise: the cross product with it is the squared length. */
  lemma OrthoPerpendicular(p: Vector)
    ensures Ortho(p) == Neg(Orthogonal(p))
    ensures Dot(Ortho(p), p) == 0.0 && Cross(p, Ortho(p)) == Dot(p, p)
  {
  }

  /** `RotatedQuarter`: row 0 of the result is the negated row 1 of `m`, and
      row 1 of the result is row 0 of `m`. */
  function RotatedQuarter(m: GeoM): (r: GeoM)
    ensures forall j: nat :: j < 3 ==> Element(r, 0, j) == -Element(m, 1, j)
    ensures forall j: nat :: j < 3 ==> Element(r, 1, j) == Element(m, 0, j)
  {
    GeoM(-m.c, -m.d, -m.ty, m.a, m.b, m.tx)
  }

  /** The rotated matrix maps every point to the counter-clockwise quarter
      turn of where `m` maps it. */
  lemma RotatedQuarterRotatesImage(m: GeoM, p: Vector)
    ensures Apply(RotatedQuarter(m), p) == Ortho(Apply(m, p))
  {
    var q, r := Apply(m, p), Apply(RotatedQuarter(m), p);
    var cx, dy := m.c * p.x, m.d * p.y;
    assert (-m.c) * p.x == -cx && (-m.d) * p.y == -dy;
    assert r.x == -q.y;
  }

  lemma RotatedQuarterTwiceNegates(m: GeoM)
    ensures var r := RotatedQuarter(RotatedQuarter(m));
      forall i: nat, j: nat :: i < 2 && j < 3 ==> Element(r, i, j) == -Element(m, i, j)
  {
  }

  lemma RotatedQuarterFourTimes(m: GeoM)
    ensures RotatedQuarter(RotatedQuarter(RotatedQuarter(RotatedQuarter(m)))) == m
  {
  }

  /** `ProjectOntoMagnitude(p, op)`, defined only for a non-zero `op`. */
  function ProjectOntoMagnitude(p: Vector, op: Vector): (r: real)
    requires op != Zero
    ensures r * Dot(op, op) == Dot(p, op)
  {
    R2.ProjectOntoMagnitude(p, op)
  }

  /** The projection magnitude measures `p` in units of `op`. */
  lemma ProjectOntoMagnitudeOfMultiple(op: Vector, k: real)
    requires op != Zero
    ensures ProjectOntoMagnitude(Scale(op, k), op) == k
  {
    PositiveSquare(op);
    var d := Dot(op, op);
    assert Dot(Scale(op, k), op) == k * d;
    RealArith.MulPreservesOrder(ProjectOntoMagnitude(Scale(op, k), op), k, d);
    RealArith.MulPreservesOrder(k, ProjectOntoMagnitude(Scale(op, k), op), d);
  }

  /** `ProjectOnto(p, op)`: parallel to `op`, and `p` minus it is orthogonal to `op`. */
  function ProjectOnto(p: Vector, op: Vector): (r: Vector)
    requires op != Zero
    ensures Cross(r, op) == 0.0
    ensures Dot(Sub(p, r), op) == 0.0
  {
    var k := ProjectOntoMagnitude(p, op);
    assert Cross(Scale(op, k), op) == k * Cross(op, op);
    R2.ProjectOnto(p, op)
  }

  lemma ProjectOntoIdempotent(p: Vector, op: Vector)
    requires op != Zero
    ensures ProjectOnto(ProjectOnto(p, op), op) == ProjectOnto(p, op)
  {
    ProjectOntoMagnitudeOfMultiple(op, ProjectOntoMagnitude(p, op));
  }
}
