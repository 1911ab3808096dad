/** The older `Vector2` of package engine (vector2.go).  It has the same
    representation as `R2.Vector` and the same `Add` and `Scale`; its
    `Magnitude` squares with `math.Pow`, and its `Normalize` divides by the
    square root of the magnitude instead of by the magnitude. */
module Vector2 {

  import opened R2
  import RealArith

  /** `math.Pow(v.X, 2) + math.Pow(v.Y, 2)`: the squared length as vector2.go computes it. */
  function SquaredLength(v: Vector): (r: real)
    ensures r == Dot(v, v)
    ensures r >= 0.0
  {
    RealArith.SquareNonNegative(v.x, v.x * v.x);
    RealArith.SquareNonNegative(v.y, v.y * v.y);
    v.x * v.x + v.y * v.y
  }

  /** `Magnitude` is `math.Sqrt(SquaredLength(v))`: non-negative, and zero
      exactly for the zero vector. */
  lemma MagnitudeProperties(v: Vector, len: real)
    requires IsSqrt(SquaredLength(v), len)
    ensures len >= 0.0
    ensures len == 0.0 <==> v == Zero
  {
    MagnitudeZeroIff(v, len);
  }

  lemma AddCommutative(v: Vector, w: Vector)
    ensures Add(v, w) == Add(w, v)
    ensures Add(v, w).x == v.x + w.x && Add(v, w).y == v.y + w.y
  {
  }

  lemma ScaleIdentities(v: Vector, k: real)
    ensures Scale(v, k).x == v.x * k && Scale(v, k).y == v.y * k
    ensures Scale(v, 1.0) == v
    ensures Scale(v, 0.0) == Zero
  {
  }

  /** `Vector2.Normalize`.  `len` is `Magnitude()` and `root` is the
      `math.Sqrt(len)` that the code divides by.  The result has squared
      length `len`, i.e. magnitude sqrt(|v|): it is a unit vector only when
      `v` already was one. */
  function Normalize(v: Vector, len: real, root: real): (r: Vector)
    requires IsSqrt(SquaredLength(v), len)
    requires IsSqrt(len, root)
    ensures v == Zero ==> r == Zero
    ensures v != Zero ==> Dot(r, r) == len
    ensures v != Zero ==> (Dot(r, r) == 1.0 <==> len == 1.0)
    ensures v != Zero ==> exists k: real :: k > 0.0 && r == Scale(v, k)
  {
    MagnitudeZeroIff(v, len);
    if len == 0.0 then Zero
    else
      ScaledDot(v, len, root);
      Scale(v, 1.0 / root)
  }

  lemma ScaledDot(v: Vector, len: real, root: real)
    requires IsSqrt(Dot(v, v), len) && IsSqrt(len, root) && len != 0.0
    ensures root > 0.0
    ensures Dot(Scale(v, 1.0 / root), Scale(v, 1.0 / root)) == len
  {
    if root == 0.0 {
      RealArith.MulZeroLeft(root, root, len);
    }
    var k := 1.0 / root;
    var kk := k * k;
    assert k * root == 1.0;
    assert kk * len == 1.0 by {
      assert kk * len == (k * root) * (k * root);
    }
    assert Dot(Scale(v, k), Scale(v, k)) == Dot(v, v) * kk;
    assert Dot(v, v) * kk == len * (len * kk);
  }
}
