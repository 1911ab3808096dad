/** Go's integer division and remainder, which truncate toward zero
    (Dafny's `/` and `%` are Euclidean), and the few facts about them that
    the tile arithmetic needs. */
module GoInt {

  function Abs(a: int): (r: nat)
    ensures r == a || r == -a
  {
    if a < 0 then -a else a
  }

  /** Go's `a / b`: the quotient truncated toward zero.  Division by zero
      panics, so `b != 0` is required. */
  function Quo(a: int, b: int): (q: int)
    requires b != 0
    ensures a >= 0 && b > 0 ==> q == a / b
    ensures Abs(q) == Abs(a) / Abs(b)
    ensures q != 0 ==> (q > 0 <==> (a > 0) == (b > 0))
  {
    var m: int := Magnitude(a, b);
    if (a < 0) != (b < 0) then -m else m
  }

  /** The quotient of the magnitudes, which is never negative. */
  function Magnitude(a: int, b: int): (m: nat)
    requires b != 0
    ensures m == Abs(a) / Abs(b)
  {
    var x, y := Abs(a), Abs(b);
    DivNonNegative(x, y);
    x / y
  }

  lemma DivNonNegative(x: nat, y: nat)
    requires y > 0
    ensures x / y >= 0
  {
    var q, r := x / y, x % y;
    assert x == y * q + r && r < y;
    if q < 0 {
      MulAtLeast(-q, y);
    }
  }

  /** Go's `a % b`: what is left after the truncated quotient, so it has the
      sign of `a` and is smaller than `b` in magnitude. */
  function Rem(a: int, b: int): (r: int)
    requires b != 0
    ensures a == b * Quo(a, b) + r
    ensures a >= 0 && b > 0 ==> r == a % b
    ensures Abs(r) < Abs(b)
    ensures r == 0 || (r > 0 <==> a > 0)
  {
    var q := Quo(a, b);
    TruncatedQuotient(a, b, q);
    RemBounds(a, b, q);
    a - b * q
  }

  lemma TruncatedQuotient(a: int, b: int, q: int)
    requires b != 0 && Abs(q) == Abs(a) / Abs(b)
    ensures Abs(q) * Abs(b) <= Abs(a) < (Abs(q) + 1) * Abs(b)
  {
    DivBounds(Abs(a), Abs(b));
  }

  lemma DivBounds(a: nat, b: nat)
    requires b > 0
    ensures (a / b) * b <= a < (a / b + 1) * b
  {
    var q, r := a / b, a % b;
    assert a == q * b + r && 0 <= r < b;
    assert (q + 1) * b == q * b + b;
  }

  /** The remainder left by a truncated quotient is smaller than the divisor
      and has the sign of the dividend. */
  lemma RemBounds(a: int, b: int, q: int)
    requires b != 0
    requires Abs(q) * Abs(b) <= Abs(a) < (Abs(q) + 1) * Abs(b)
    requires q != 0 ==> (q > 0 <==> (a > 0) == (b > 0))
    ensures Abs(a - b * q) < Abs(b)
    ensures a - b * q == 0 || (a - b * q > 0 <==> a > 0)
  {
    var p := Abs(q) * Abs(b);
    assert (Abs(q) + 1) * Abs(b) == p + Abs(b);
    if q == 0 {
      assert b * q == 0;
    } else if (b > 0) == (q > 0) {
      SignedProduct(b, q);
      assert a > 0;
    } else {
      SignedProduct(b, q);
      assert a < 0;
    }
  }

  lemma SignedProduct(b: int, q: int)
    ensures (b > 0) == (q > 0) && b != 0 && q != 0 ==> b * q == Abs(q) * Abs(b)
    ensures (b > 0) != (q > 0) && b != 0 && q != 0 ==> b * q == -(Abs(q) * Abs(b))
  {
    if b < 0 && q < 0 {
      assert b * q == (-b) * (-q);
    } else if b < 0 {
      assert b * q == -((-b) * q);
    } else if q < 0 {
      assert b * q == -(b * (-q));
    }
  }

  /** Multiplying by a positive factor and dividing by it again is the identity. */
  lemma MulDivCancel(a: int, b: int)
    requires b > 0
    ensures (a * b) / b == a && (a * b) % b == 0
  {
    var q, r := (a * b) / b, (a * b) % b;
    assert a * b == q * b + r && 0 <= r < b;
    assert (a - q) * b == r;
    if a - q >= 1 {
      MulAtLeast(a - q, b);
    } else if a - q <= -1 {
      MulAtLeast(q - a, b);
    }
  }

  lemma MulAtLeast(k: int, b: int)
    requires k >= 1 && b > 0
    ensures k * b >= b
  {
    assert k * b == (k - 1) * b + b;
    assert (k - 1) * b >= 0;
  }
}
