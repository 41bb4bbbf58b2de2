/** Sign facts about products of reals. Each lemma names the product as a
    parameter (`p == a * b`) and concludes about that name, so that callers can
    pass the term they care about (a squared length, a scaled parameter). */
module RealArith {

  lemma ProductPositive(a: real, b: real, p: real)
    requires a > 0.0 && b > 0.0 && p == a * b
    ensures p > 0.0
  {}

  lemma ProductNonNegative(a: real, b: real, p: real)
    requires a >= 0.0 && b >= 0.0 && p == a * b
    ensures p >= 0.0
  {}

  /** A non-zero real has a positive square. */
  lemma SquarePositive(x: real, p: real)
    requires x != 0.0 && p == x * x
    ensures p > 0.0
  {
    if x > 0.0 {
      ProductPositive(x, x, p);
    } else {
      ProductPositive(-x, -x, p);
    }
  }

  /** A square is never negative. */
  lemma SquareNonNegative(x: real, p: real)
    requires p == x * x
    ensures p >= 0.0
  {
    if x != 0.0 {
      SquarePositive(x, p);
    }
  }

  /** A sum of two squares is positive unless both terms vanish. */
  lemma SumOfSquaresPositive(x: real, y: real, s: real)
    requires x != 0.0 || y != 0.0
    requires s == x * x + y * y
    ensures s > 0.0
  {
    var xx, yy := x * x, y * y;
    if x != 0.0 {
      SquarePositive(x, xx);
      SquareNonNegative(y, yy);
    } else {
      SquarePositive(y, yy);
    }
  }

  /** A product with one positive factor has the sign of the other factor. */
  lemma FactorSign(a: real, b: real, p: real)
    requires b > 0.0 && p == a * b
    ensures p > 0.0 <==> a > 0.0
    ensures p < 0.0 <==> a < 0.0
  {
    if a > 0.0 {
      ProductPositive(a, b, p);
    } else if a < 0.0 {
      ProductPositive(-a, b, -p);
    }
  }

  /** Two non-negative reals with the same square are equal. */
  lemma SquareInjective(a: real, b: real)
    requires 0.0 <= a && 0.0 <= b && a * a == b * b
    ensures a == b
  {
    var sum, gap := a + b, a - b;
    var p := gap * sum;
    assert p == a * a - b * b;
    if sum > 0.0 {
      FactorSign(gap, sum, p);
    }
  }

  /** Squaring keeps the order of non-negative reals, so comparing squares
      compares the reals. */
  lemma SquareOrder(x: real, y: real, p: real, q: real)
    requires 0.0 <= x && 0.0 <= y
    requires p == x * x && q == y * y
    requires p <= q
    ensures x <= y
  {
    if x + y > 0.0 {
      FactorSign(y - x, y + x, q - p);
    }
  }

  /** A non-negative real whose square lies strictly between the squares of
      two non-negative bounds lies strictly between the bounds. */
  lemma RootBetween(x: real, lo: real, hi: real)
    requires 0.0 <= x && 0.0 <= lo && 0.0 <= hi
    requires lo * lo < x * x < hi * hi
    ensures lo < x < hi
  {
    SquareOrder(lo, x, lo * lo, x * x);
    SquareOrder(x, hi, x * x, hi * hi);
  }

  /** A dividend that is `q` times a positive divisor has quotient `q`. */
  lemma QuotientOf(x: real, y: real, q: real)
    requires y > 0.0 && x == q * y
    ensures x / y == q
  {
    assert (x / y) * y == x;
    FactorSign(x / y - q, y, x - q * y);
  }

  /** Equal reals have equal squares. */
  lemma SquareEqual(x: real, y: real)
    requires x == y
    ensures x * x == y * y
  {}

  /** Multiplying equals by the same factor gives equals. */
  lemma MulEqual(x: real, y: real, z: real)
    requires y == z
    ensures x * y == x * z
  {}

  /** The reciprocal `inv` of a square root `n` of `len2` scales `len2` to one. */
  lemma UnitScale(inv: real, n: real, len2: real)
    requires inv * n == 1.0 && n * n == len2
    ensures inv * inv * len2 == 1.0
  {
    MulEqual(inv * inv, len2, n * n);
    assert inv * inv * (n * n) == (inv * n) * (inv * n);
    MulEqual(inv * n, inv * n, 1.0);
  }
}
