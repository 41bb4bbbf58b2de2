/** Angles in radians and the wrap-around of a heading error into one turn. */
module Angles {

  import opened RealArith

  /** `math.pi` as the controller imports it (the double prints as this
      decimal); over the reals it is a positive rational constant. */
  const Pi: real := 3.141592653589793

  /** `d` is a whole number of `m`s. */
  predicate IsWholeMultiple(d: real, m: real)
    requires m != 0.0
  {
    (d / m).Floor as real == d / m
  }

  /** `np.mod(x, m)` for a positive divisor: the remainder takes the sign of the
      divisor, so it lies in `[0, m)` and differs from `x` by whole `m`s. */
  function Mod(x: real, m: real): (r: real)
    requires m > 0.0
    ensures 0.0 <= r < m
    ensures IsWholeMultiple(x - r, m)
  {
    var k := (x / m).Floor;
    assert k as real * m <= x < k as real * m + m by {
      FloorBounds(x, m, k);
    }
    assert (x - (x - m * k as real)) / m == k as real;
    x - m * k as real
  }

  /** A quotient's floor brackets the dividend between two consecutive multiples. */
  lemma FloorBounds(x: real, m: real, k: int)
    requires m > 0.0 && k == (x / m).Floor
    ensures k as real * m <= x < k as real * m + m
  {
    var q := x / m;
    assert q * m == x;
    assert k as real <= q < k as real + 1.0;
    assert k as real * m <= q * m;
    ProductNonNegative(q - k as real, m, x - k as real * m);
    ProductPositive(k as real + 1.0 - q, m, k as real * m + m - x);
  }

  /** The heading-error wrap of `calculate_delta`: `np.mod(a + pi, 2 * pi) - pi`.
      It lands in `[-Pi, Pi)` and differs from `a` by whole turns. */
  function Wrap(a: real): (r: real)
    ensures -Pi <= r < Pi
    ensures IsWholeMultiple(a - r, 2.0 * Pi)
  {
    var r := Mod(a + Pi, 2.0 * Pi) - Pi;
    assert a - r == (a + Pi) - Mod(a + Pi, 2.0 * Pi);
    r
  }

  /** A quotient by a positive divisor, multiplied back, is the dividend. */
  lemma QuotientTimesDivisor(x: real, m: real)
    requires m > 0.0
    ensures (x / m) * m == x
  {}

  /** Multiplication distributes over a difference. */
  lemma DifferenceTimes(x: real, y: real, m: real)
    ensures (x - y) * m == x * m - y * m
  {}

  /** Two angles less than a turn apart that differ by a whole number of
      turns are equal. */
  lemma SameTurn(j: real, m: int, turn: real, d: real)
    requires turn > 0.0 && j == m as real && j * turn == d
    requires -turn < d < turn
    ensures d == 0.0
  {
    FactorSign(j + 1.0, turn, d + turn);
    FactorSign(1.0 - j, turn, turn - d);
    FactorSign(j, turn, d);
  }

  /** Wrap picks THE angle of `[-Pi, Pi)` that is a whole number of turns away
      from `a`: any such angle is the wrap's result. */
  lemma {:induction false} WrapUnique(a: real, b: real)
    requires -Pi <= b < Pi
    requires IsWholeMultiple(a - b, 2.0 * Pi)
    ensures Wrap(a) == b
  {
    var r := Wrap(a);
    var turn := 2.0 * Pi;
    var q1, q2 := (a - r) / turn, (a - b) / turn;
    QuotientTimesDivisor(a - r, turn);
    QuotientTimesDivisor(a - b, turn);
    DifferenceTimes(q2, q1, turn);
    SameTurn(q2 - q1, q2.Floor - q1.Floor, turn, r - b);
  }

  /** Angles already in `[-Pi, Pi)` pass through the wrap unchanged. */
  lemma WrapFixesPrincipal(a: real)
    requires -Pi <= a < Pi
    ensures Wrap(a) == a
  {
    assert IsWholeMultiple(a - a, 2.0 * Pi);
    WrapUnique(a, a);
  }

  /** Adding whole turns does not change the wrapped angle. */
  lemma WrapPeriodic(a: real, k: int)
    ensures Wrap(a + 2.0 * Pi * k as real) == Wrap(a)
  {
    var r := Wrap(a);
    var turn := 2.0 * Pi;
    var shifted := a + turn * k as real;
    var q, q' := (a - r) / turn, (shifted - r) / turn;
    QuotientTimesDivisor(a - r, turn);
    QuotientTimesDivisor(shifted - r, turn);
    FactorSign(q' - q - k as real, turn, (q' - q - k as real) * turn);
    assert q' == q + k as real;
    assert q'.Floor == q.Floor + k;
    WrapUnique(shifted, r);
  }
}
