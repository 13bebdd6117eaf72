/**
 * Real-valued helpers for the `double` arithmetic of the paint program, and
 * Java's narrowing conversion from `double` to `int`.
 */
module Numeric {

  const INT_MIN: int := -0x8000_0000
  const INT_MAX: int := 0x7FFF_FFFF

  /** `Math.abs` on doubles. */
  function Abs(v: real): (r: real)
    ensures r >= 0.0
    ensures r == v || r == -v
  {
    if v < 0.0 then -v else v
  }

  /** `Math.min` on doubles. */
  function Min(a: real, b: real): (r: real)
    ensures r <= a && r <= b
    ensures r == a || r == b
  {
    if a <= b then a else b
  }

  /** `Math.max` on doubles. */
  function Max(a: real, b: real): (r: real)
    ensures r >= a && r >= b
    ensures r == a || r == b
  {
    if a >= b then a else b
  }

  /**
   * Java's `(int) d`: rounds toward zero and saturates at the bounds of a
   * 32-bit `int` (NaN does not occur among reals).
   */
  function JavaIntCast(v: real): (r: int)
    ensures INT_MIN <= r <= INT_MAX
    ensures 0.0 <= v < INT_MAX as real ==> r as real <= v < r as real + 1.0
    ensures INT_MIN as real < v < 0.0 ==> r as real - 1.0 < v <= r as real
    ensures v >= INT_MAX as real ==> r == INT_MAX
    ensures v <= INT_MIN as real ==> r == INT_MIN
  {
    if v >= INT_MAX as real then INT_MAX
    else if v <= INT_MIN as real then INT_MIN
    else if v >= 0.0 then v.Floor
    else -((-v).Floor)
  }

  lemma ProductNonNegative(a: real, b: real)
    requires a >= 0.0 && b >= 0.0
    ensures a * b >= 0.0
  {
  }

  lemma ProductPositive(a: real, b: real)
    requires a > 0.0 && b > 0.0
    ensures a * b > 0.0
  {
  }

  /** `v` lies between `lo` and `hi` times `w`. */
  predicate ScaledBetween(v: real, w: real, lo: real, hi: real) {
    lo * w <= v <= hi * w
  }

  /** A quotient by a positive divisor keeps the bounds the dividend has in units of the divisor. */
  lemma DivisionBounds(a: real, b: real, lo: real, hi: real)
    requires b > 0.0 && ScaledBetween(a, b, lo, hi)
    ensures lo <= a / b <= hi
  {
    var q := a / b;
    assert q * b == a;
    if q < lo {
      ProductPositive(lo - q, b);
    }
    if q > hi {
      ProductPositive(q - hi, b);
    }
  }

  /** Java's `(int) (a / b)` for a positive divisor `b`. */
  function TruncatedQuotient(a: real, b: real): int
    requires b > 0.0
  {
    JavaIntCast(a / b)
  }

  /**
   * If `a` lies between `lo` and `hi` times `b`, the truncated quotient lies
   * between `lo` and `hi`: truncation never leaves an integer interval.
   */
  lemma TruncatedQuotientBounds(a: real, b: real, lo: int, hi: int)
    requires b > 0.0 && ScaledBetween(a, b, lo as real, hi as real)
    requires INT_MIN <= lo && hi <= INT_MAX
    ensures lo <= TruncatedQuotient(a, b) <= hi
  {
    DivisionBounds(a, b, lo as real, hi as real);
  }
}
