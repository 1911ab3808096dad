/** Facts about products and quotients of reals.  Each product is passed in
    as a named value, which keeps the solver's nonlinear reasoning to the one
    step each lemma states. */
module RealArith {

  lemma MulPositive(p: real, q: real, pq: real)
    requires p > 0.0 && q > 0.0 && pq == p * q
    ensures pq > 0.0
  {
  }

  lemma MulZeroLeft(p: real, q: real, pq: real)
    requires p == 0.0 && pq == p * q
    ensures pq == 0.0
  {
  }

  lemma SquarePositive(p: real, pp: real)
    requires p != 0.0 && pp == p * p
    ensures pp > 0.0
  {
    if p > 0.0 {
      MulPositive(p, p, pp);
    } else {
      MulPositive(-p, -p, pp);
    }
  }

  lemma SquareNonNegative(p: real, pp: real)
    requires pp == p * p
    ensures pp >= 0.0
  {
    if p != 0.0 {
      SquarePositive(p, pp);
    } else {
      MulZeroLeft(p, p, pp);
    }
  }

  /** x*x + y*y is zero only when both x and y are. */
  lemma SumOfSquaresPositive(x: real, y: real, s: real)
    requires x != 0.0 || y != 0.0
    requires s == x * x + y * y
    ensures s > 0.0
  {
    var xx, yy := x * x, y * y;
    SquareNonNegative(x, xx);
    SquareNonNegative(y, yy);
    if x != 0.0 {
      SquarePositive(x, xx);
    } else {
      SquarePositive(y, yy);
    }
  }

  lemma SumOfSquaresZero(x: real, y: real, s: real)
    requires x == 0.0 && y == 0.0
    requires s == x * x + y * y
    ensures s == 0.0
  {
    var xx, yy := x * x, y * y;
    MulZeroLeft(x, x, xx);
    MulZeroLeft(y, y, yy);
  }

  /** A square root is unique among non-negative reals. */
  lemma SquareInjective(p: real, q: real)
    requires p >= 0.0 && q >= 0.0 && p * p == q * q
    ensures p == q
  {
    if p < q {
      SquareStrictlyMonotone(p, q);
    } else if q < p {
      SquareStrictlyMonotone(q, p);
    }
  }

  lemma SquareStrictlyMonotone(p: real, q: real)
    requires 0.0 <= p < q
    ensures p * p < q * q
  {
    var pp, pq, qq := p * p, p * q, q * q;
    MulNonNegative(p, q - p, pq - pp);
    MulPositive(q, q - p, qq - pq);
  }

  lemma MulNonNegative(p: real, q: real, pq: real)
    requires p >= 0.0 && q >= 0.0 && pq == p * q
    ensures pq >= 0.0
  {
    if p == 0.0 {
      MulZeroLeft(p, q, pq);
    } else if q == 0.0 {
      MulZeroLeft(q, p, pq);
    } else {
      MulPositive(p, q, pq);
    }
  }

  /** Multiplying both sides by a positive factor keeps a strict order. */
  lemma MulPreservesOrder(p: real, q: real, d: real)
    requires d > 0.0
    ensures p < q <==> p * d < q * d
  {
    var pd, qd := p * d, q * d;
    if p < q {
      MulPositive(q - p, d, qd - pd);
    } else {
      MulNonNegative(p - q, d, pd - qd);
    }
  }
}
