/**
 * The transcendental functions the fire-danger formulas call (numpy's `exp` and the
 * power `N ** 1.3`) are not computed by the model: they are parameters of the
 * operations, and only the properties of the real functions that the proofs rely on
 * are required of them.
 */
module RealFunctions {

  /** Properties of the real exponential used by the proofs: it is positive, and at most
      1 for a non-positive argument. */
  ghost predicate IsExp(exp: real -> real) {
    forall y :: 0.0 < exp(y) && (y <= 0.0 ==> exp(y) <= 1.0)
  }

  /** Property of the real power `b ** e` used by the proofs: a positive base gives a
      positive power. */
  ghost predicate IsPower(pow: (real, real) -> real) {
    forall b, e :: 0.0 < b ==> 0.0 < pow(b, e)
  }

  function Min(a: real, b: real): (r: real)
    ensures r <= a && r <= b && (r == a || r == b)
  {
    if a < b then a else b
  }

  /** Multiplying by a positive number keeps a number on its side of 1 and of 0. */
  lemma ScaleByPositive(q: real, d: real)
    requires 0.0 < d
    ensures q >= 1.0 ==> q * d >= d
    ensures q < 0.0 ==> q * d < 0.0
  {
    if q >= 1.0 {
      assert (q - 1.0) * d >= 0.0;
    }
  }

  /** A positive numerator below its positive divisor gives a quotient in (0, 1). */
  lemma BelowOne(a: real, d: real)
    requires 0.0 < a < d
    ensures 0.0 < a / d
    ensures a / d < 1.0
  {
    var q := a / d;
    assert q * d == a;
    ScaleByPositive(q, d);
    assert !(q >= 1.0);
  }

  /** A non-negative numerator over a positive divisor gives a non-negative quotient. */
  lemma NonNegativeQuotient(n: real, d: real)
    requires 0.0 <= n && 0.0 < d
    ensures 0.0 <= n / d
  {
    var q := n / d;
    assert q * d == n;
    ScaleByPositive(q, d);
  }

  /** A negative numerator over a positive divisor gives a negative quotient. */
  lemma NegativeQuotient(n: real, d: real)
    requires n < 0.0 && 0.0 < d
    ensures n / d < 0.0
  {
    var q := n / d;
    assert q * d == n;
  }
}
