/** Approximate comparison of floating-point values (src/maths/float_compare.rs).
    The model works over exact reals; the comparison keeps the source's fixed,
    absolute tolerance of one hundred machine epsilons. */
module FloatCompare {

  /** f64::EPSILON, the distance from 1.0 to the next double: 2^-52. */
  const Epsilon: real := 1.0 / 4503599627370496.0

  /** The absolute tolerance used by `is_same`. */
  const Tolerance: real := 100.0 * Epsilon

  function Abs(x: real): (r: real)
    ensures r >= 0.0
    ensures r == x || r == -x
  {
    if x < 0.0 then -x else x
  }

  /** `is_same(a, b)`: the difference of the two values is within the
      tolerance, that is, `b` lies in the closed interval of radius Tolerance
      around `a`. */
  predicate IsSame(a: real, b: real): (r: bool)
    ensures r <==> a - Tolerance <= b <= a + Tolerance
  {
    Abs(a - b) <= Tolerance
  }

  /** The comparison is reflexive and does not depend on the order of its
      arguments. */
  lemma IsSameReflexiveSymmetric(a: real, b: real)
    ensures IsSame(a, a)
    ensures IsSame(a, b) <==> IsSame(b, a)
  {
  }

  /** Approximate equality is not transitive: each step may use up the whole
      tolerance. */
  lemma IsSameNotTransitive()
    ensures IsSame(0.0, Tolerance) && IsSame(Tolerance, 2.0 * Tolerance)
    ensures !IsSame(0.0, 2.0 * Tolerance)
  {
  }

  /** The cases of the source's unit test. */
  lemma IsSameExamples()
    ensures IsSame(0.0, 0.0) && IsSame(1.0, 1.0)
    ensures !IsSame(1.0, 0.0) && !IsSame(1.0, 1.1)
  {
  }
}
