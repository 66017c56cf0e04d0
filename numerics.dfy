/** The scalar layer underneath the geometry.
    The arbitrary-precision decimal is modelled as an exact `real`. The decimal square
    root and the truncated-series sine and cosine are collaborators whose code is not
    part of this model, so every operation that needs them receives them as parameters;
    `IsSqrt` states the one law the model ever relies on. */
module Numerics {

  /** Number of series terms the engine passes to the sine and cosine provider. */
  const SERIES_TERMS: nat := 32

  /** The square-root law: a non-negative root whose square is the argument. */
  ghost predicate IsSqrt(sqrt: real -> real) {
    forall x: real :: x >= 0.0 ==> sqrt(x) >= 0.0 && sqrt(x) * sqrt(x) == x
  }

  /** The trigonometric provider: `sin(angle, terms)`, `cos(angle, terms)` and the
      precomputed constant 2π. */
  datatype Trig = Trig(sin: (real, nat) -> real, cos: (real, nat) -> real, pimul2: real)

  /** Fractional part, x − ⌊x⌋. */
  function Fract(x: real): (r: real)
    ensures 0.0 <= r < 1.0
    ensures (x - r).Floor as real == x - r
  {
    var f := x.Floor;
    assert f as real <= x < f as real + 1.0;
    assert (f as real).Floor == f;
    x - f as real
  }

  /** The fractional part ignores whole turns: shifting by an integer changes nothing. */
  lemma FractPeriodic(x: real, n: int)
    ensures Fract(x + n as real) == Fract(x)
  {
    var f := x.Floor;
    assert f as real <= x < f as real + 1.0;
    assert (f + n) as real <= x + n as real < (f + n) as real + 1.0;
    assert (x + n as real).Floor == f + n;
  }

  /** A non-negative number has at most one non-negative square root. */
  lemma RootUnique(r: real, a: real)
    requires a >= 0.0 && r >= 0.0 && r * r == a * a
    ensures r == a
  {
    assert (r - a) * (r + a) == 0.0;
    if r + a != 0.0 {
      assert r - a == 0.0;
    }
  }

  /** One instance of the square-root law. */
  lemma SqrtLaw(sqrt: real -> real, a: real)
    requires IsSqrt(sqrt) && a >= 0.0
    ensures sqrt(a) >= 0.0 && sqrt(a) * sqrt(a) == a
  {
  }

  lemma SquareNonnegative(a: real)
    ensures a * a >= 0.0
  {
  }

  /** Only zero squares to zero. */
  lemma SquareZero(a: real)
    ensures a * a == 0.0 ==> a == 0.0
  {
    if a != 0.0 {
      assert (a * a) / a == a;
    }
  }

  /** A non-negative root of zero is zero, and only zero has zero as its root. */
  lemma RootZero(l: real, s: real)
    requires l >= 0.0 && l * l == s
    ensures l == 0.0 <==> s == 0.0
  {
    SquareZero(l);
  }

  /** A factor that leaves a nonzero number `q == m` unchanged is one. */
  lemma UnitFactor(n: real, q: real, m: real)
    requires q != 0.0 && n * q == m && q == m
    ensures n == 1.0
  {
    assert (n - 1.0) * q == 0.0;
    assert n - 1.0 == ((n - 1.0) * q) / q;
  }

  lemma QuotientSquare(a: real, l: real)
    requires l != 0.0
    ensures (a / l) * (a / l) * (l * l) == a * a
  {
  }

  lemma DistributeThree(a: real, b: real, c: real, m: real)
    ensures (a + b + c) * m == a * m + b * m + c * m
  {
  }

  /** Under the square-root law, sqrt(a²) is a for every non-negative a. */
  lemma SqrtOfSquare(sqrt: real -> real, a: real)
    requires IsSqrt(sqrt) && a >= 0.0
    ensures sqrt(a * a) == a
  {
    RootUnique(sqrt(a * a), a);
  }
}
