/** Plane vectors over the reals: the `[x, y]` arrays the controller helpers
    pass to numpy, with the few operations they use on them. */
module Vectors {

  import opened RealArith

  datatype Point = Point(x: real, y: real)

  function Add(a: Point, b: Point): Point { Point(a.x + b.x, a.y + b.y) }

  function Sub(a: Point, b: Point): Point { Point(a.x - b.x, a.y - b.y) }

  function Scale(k: real, a: Point): Point { Point(k * a.x, k * a.y) }

  function Dot(a: Point, b: Point): real { a.x * b.x + a.y * b.y }

  /** Zero exactly when `a` and `b` are parallel. */
  function Cross(a: Point, b: Point): real { a.x * b.y - a.y * b.x }

  /** The squared Euclidean length, never negative. */
  function SquaredNorm(a: Point): (r: real)
    ensures r >= 0.0
  {
    a.x * a.x + a.y * a.y
  }

  /** Only the zero vector has squared length zero. */
  lemma SquaredNormPositive(a: Point)
    requires a != Point(0.0, 0.0)
    ensures SquaredNorm(a) > 0.0
  {
    SumOfSquaresPositive(a.x, a.y, SquaredNorm(a));
  }

  function SquaredDistance(a: Point, b: Point): real { SquaredNorm(Sub(b, a)) }

  /** `sqrt` agrees with the square root on every non-negative real: this is all
      the model assumes of `np.sqrt` and of `numpy.linalg.norm`. */
  ghost predicate IsSquareRoot(sqrt: real -> real) {
    forall x :: 0.0 <= x ==> 0.0 <= sqrt(x) && sqrt(x) * sqrt(x) == x
  }

  /** `numpy.linalg.norm` of a plane vector: the square root of its squared
      length, positive for every non-zero vector. */
  function Norm(a: Point, sqrt: real -> real): (n: real)
    requires IsSquareRoot(sqrt)
    ensures n >= 0.0 && n * n == SquaredNorm(a)
    ensures a != Point(0.0, 0.0) ==> n > 0.0
  {
    var len2 := SquaredNorm(a);
    Root(sqrt, len2);
    assert a != Point(0.0, 0.0) ==> len2 > 0.0 by {
      if a != Point(0.0, 0.0) { SquaredNormPositive(a); }
    }
    sqrt(len2)
  }

  /** `v / numpy.linalg.norm(v)` for a non-zero `v`: a vector of length one,
      parallel to `v` and pointing the same way. */
  function UnitVector(v: Point, sqrt: real -> real): (u: Point)
    requires IsSquareRoot(sqrt)
    requires v != Point(0.0, 0.0)
    ensures SquaredNorm(u) == 1.0
    ensures Cross(u, v) == 0.0
    ensures Dot(u, v) > 0.0
  {
    var n := Norm(v, sqrt);
    var u := Scale(1.0 / n, v);
    UnitScaling(v.x, v.y, n, u.x, u.y);
    u
  }

  /** Scaling `(vx, vy)` by the inverse of its length `n` gives a unit vector
      parallel to it whose dot product with it is `n`. */
  lemma UnitScaling(vx: real, vy: real, n: real, ux: real, uy: real)
    requires n > 0.0 && n * n == vx * vx + vy * vy
    requires ux == (1.0 / n) * vx && uy == (1.0 / n) * vy
    ensures ux * vy - uy * vx == 0.0
    ensures ux * ux + uy * uy == 1.0
    ensures ux * vx + uy * vy == n
  {
    var inv, len2 := 1.0 / n, vx * vx + vy * vy;
    assert inv * n == 1.0;
    MulEqual(vy, ux, inv * vx);
    MulEqual(vx, uy, inv * vy);
    SquareEqual(ux, inv * vx);
    SquareEqual(uy, inv * vy);
    UnitScale(inv, n, len2);
    MulEqual(vx, ux, inv * vx);
    MulEqual(vy, uy, inv * vy);
    MulEqual(inv, len2, n * n);
    assert inv * (n * n) == (inv * n) * n;
    MulEqual(n, inv * n, 1.0);
  }

  /** Lagrange's identity in the plane: the product of the squared lengths
      splits into the squared dot product and the squared cross product. */
  lemma Lagrange(a: Point, b: Point)
    ensures SquaredNorm(a) * SquaredNorm(b) == Dot(a, b) * Dot(a, b) + Cross(a, b) * Cross(a, b)
  {}

  /** Cauchy-Schwarz: the dot product never exceeds the product of the
      lengths `na` and `nb`. */
  lemma CauchySchwarz(a: Point, b: Point, na: real, nb: real)
    requires 0.0 <= na && na * na == SquaredNorm(a)
    requires 0.0 <= nb && nb * nb == SquaredNorm(b)
    ensures Dot(a, b) <= na * nb
  {
    var d, m := Dot(a, b), na * nb;
    if d > 0.0 {
      assert m * m == (na * na) * (nb * nb);
      MulEqual(na * na, nb * nb, SquaredNorm(b));
      MulEqual(SquaredNorm(b), na * na, SquaredNorm(a));
      Lagrange(a, b);
      SquareNonNegative(Cross(a, b), Cross(a, b) * Cross(a, b));
      ProductNonNegative(na, nb, m);
      SquareOrder(d, m, d * d, m * m);
    }
  }

  /** What `IsSquareRoot` says at one point, with positivity for a positive
      argument. */
  lemma Root(sqrt: real -> real, a: real)
    requires IsSquareRoot(sqrt)
    requires 0.0 <= a
    ensures 0.0 <= sqrt(a) && sqrt(a) * sqrt(a) == a
    ensures 0.0 < a ==> 0.0 < sqrt(a)
  {
    if 0.0 < a {
      RootPositive(sqrt, a);
    }
  }

  /** A square root of a positive real is positive. */
  lemma RootPositive(sqrt: real -> real, a: real)
    requires IsSquareRoot(sqrt)
    requires 0.0 < a
    ensures sqrt(a) > 0.0
  {
    assert sqrt(a) * sqrt(a) == a;
  }
}
