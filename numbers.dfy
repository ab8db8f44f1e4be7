/**
 * Exact stand-ins for the JavaScript number helpers the calculator uses:
 * Math.ceil, Math.min, Math.max, and integer powers of a real base.
 * The calculator runs on IEEE doubles; this model uses exact reals.
 */
module Numbers {

  /** A positive count per year, such as a compounding frequency chosen from the form's list. */
  type PosInt = n: int | n >= 1 witness 1

  /** Math.ceil: the least integer that is at least x. */
  function Ceil(x: real): (c: int)
    ensures c as real - 1.0 < x <= c as real
  {
    -((-x).Floor)
  }

  /** Math.ceil is the least such integer. */
  lemma CeilLeast(x: real, k: int)
    requires x <= k as real
    ensures Ceil(x) <= k
  {
  }

  /** Math.min on whole counts, such as row and sample counts. */
  function MinInt(a: int, b: int): (m: int)
    ensures m <= a && m <= b && (m == a || m == b)
  {
    if a <= b then a else b
  }

  /** Math.max on whole counts. */
  function MaxInt(a: int, b: int): (m: int)
    ensures m >= a && m >= b && (m == a || m == b)
  {
    if a >= b then a else b
  }

  /**
   * Math.min on times in years. It is MinInt again for reals: int and real
   * are distinct types in Dafny, so each needs its own definition.
   */
  function MinReal(a: real, b: real): (m: real)
    ensures m <= a && m <= b && (m == a || m == b)
  {
    if a <= b then a else b
  }

  /** b raised to a natural power, by repeated multiplication. */
  function Pow(b: real, n: nat): real
  {
    if n == 0 then 1.0 else b * Pow(b, n - 1)
  }

  /**
   * g stands for x |-> (1 + r)^x, the growth curve Math.pow((1 + r), x) of a
   * period rate r, at non-negative (possibly fractional) exponents.
   */
  ghost predicate IsGrowthCurve(g: real -> real, r: real)
  {
    && g(0.0) == 1.0
    && forall x: real, y: real :: 0.0 <= x && y == x + 1.0 ==> g(y) == (1.0 + r) * g(x)
  }

  /** A curve that never decreases on non-negative exponents (the rate is not negative). */
  ghost predicate Nondecreasing(g: real -> real)
  {
    forall x: real, y: real :: 0.0 <= x <= y ==> g(x) <= g(y)
  }

  /** At whole exponents the growth curve is the integer power. */
  lemma {:induction false} GrowthAtWholeExponent(g: real -> real, r: real, n: nat)
    requires IsGrowthCurve(g, r)
    ensures g(n as real) == Pow(1.0 + r, n)
  {
    if n > 0 {
      GrowthAtWholeExponent(g, r, n - 1);
      assert g(n as real) == (1.0 + r) * g((n - 1) as real);
    }
  }

  /** A non-decreasing curve that starts at 1 never falls below 1. */
  lemma GrowthAtLeastOne(g: real -> real, r: real, x: real)
    requires IsGrowthCurve(g, r) && Nondecreasing(g) && 0.0 <= x
    ensures g(x) >= 1.0
  {
    assert g(0.0) <= g(x);
  }

  /** Multiplying an inequality by a non-negative factor. */
  lemma MulLeft(c: real, x: real, y: real)
    requires 0.0 <= c && x <= y
    ensures c * x <= c * y
  {
  }

  /** Multiplying a strict inequality by a positive factor. */
  lemma MulLeftStrict(c: real, x: real, y: real)
    requires 0.0 < c && x < y
    ensures c * x < c * y
  {
  }
}
