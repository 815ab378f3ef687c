/** How a run of the core ends: with a value, or with the panic of one of the
    source's `assert!`/`assert_eq!` checks. */
module Outcomes {

  /** Each constructor names the check that fails. */
  datatype Error =
    | NotPowerOfTwo(len: nat)           // DensePolynomial::new on a table of this length
    | LengthMismatch                    // eval_cubic_top: a or b differs in length from eq
    | RoundCountMismatch                // verify: rs and round_polys differ in length
    | ContinuityViolation(round: nat)   // verify: f0 + f1 is not the running claim in this round
    | ChallengeMismatch                 // verify: the recomputed challenges are not rs

  datatype Result<T> = Ok(value: T) | Err(error: Error)
}
