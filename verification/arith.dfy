/**
 Small arithmetic facts, each proved in isolation so that the proofs using
 them do not depend on the solver's nonlinear heuristics.
 */
module Arith {

  lemma MulNonNeg(a: real, b: real)
    requires a >= 0.0 && b >= 0.0
    ensures a * b >= 0.0
  {
  }

  /** A sum between n and 5n over a positive n lies between 1 and 5. */
  lemma QuotientWithinScale(s: real, n: real)
    requires n > 0.0 && n <= s <= 5.0 * n
    ensures 1.0 <= s / n <= 5.0
  {
  }

  /** Quotient and remainder by 60 are unique. */
  lemma ModSixtyUnique(m: int, q: int, r: int)
    requires m == q * 60 + r && 0 <= r < 60
    ensures m % 60 == r
  {
  }
}
