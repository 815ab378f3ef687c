# A model of gpu-sumcheck's CPU sumcheck prover and verifier

gpu-sumcheck proves, over the BN254 scalar field `Fr`, claims of the form
"the sum over the boolean hypercube of `eq * a * b` is `claim`", where `eq`,
`a` and `b` are dense multilinear polynomials given by their evaluation
tables. Each round the prover sends a cubic round polynomial as its values
`(f0, f1, f2, f3)` at 0, 1, 2 and 3, derives a challenge `r` from it with a
placeholder Fiat-Shamir function `(f0*f1*f2*f3 + 13) * 29`, and binds one
variable of all three tables at `r`. The verifier checks `f0 + f1` against
the running claim, interpolates the cubic at `r` to get the next claim, and
compares the challenges it recomputes with the transcript's.

This project models the CPU side of that system in Dafny:

- `field.dfy` (module `Field`): `Fr` as the integers modulo the BN254 scalar
  order P, with addition, subtraction, multiplication and division by the
  four constants the verifier divides by.
- `outcomes.dfy` (module `Outcomes`): `Result` and the `Error` a panicking
  `assert!`/`assert_eq!` of the source becomes.
- `multilinear.dfy` (module `Multilinear`): `is_power_of_two`, the binding
  functions `BindTop` (pairs i and n + i) and `BindBot` (pairs 2i and
  2i + 1) on tables, and the class `DensePolynomial` whose methods bind an
  array in place and truncate it.
- `lagrange.dfy` (module `Lagrange`): the integer polynomial identities
  behind interpolation on the nodes 0..3.
- `sumcheck_proof.dfy` (module `SumcheckProof`): the transcript
  `CubicSumcheckProof`, `FiatShamir`, `EvalUni` and the verifier `Verify`
  with its specification `VerifyOutcome`.
- `cubic_sumcheck.dfy` (module `CubicSumcheck`): what both backends compute,
  stated on value tables: the round polynomial `RoundEvals` for either
  pairing, `BindTables`, and the predicate `HonestRun` that relates a
  transcript to the tables before and after each of its rounds; round
  consistency and honest-prover completeness are proved here.
- `plain_sumcheck.dfy` (module `PlainBackend`): `PlainSumcheck`, the
  backend of `src/sumcheck/plain.rs` (and its copy in `src/sumcheck.rs`).
- `simd_sumcheck.dfy` (module `SimdBackend`): `SIMDPolynomial` and
  `SIMDSumcheck` of `src/sumcheck/simd.rs`, with the chunked vector
  operations modelled element-wise.
- `sumcheck_examples.dfy` (module `SumcheckExamples`): the repository's
  test inputs, stated as proved facts; the SIMD run is an added example.

The two backends bind different variables: `PlainSumcheck` pairs entries
(2i, 2i + 1) and its `bind_top` calls `bound_poly_var_bot`, while
`SIMDSumcheck` pairs entries (i, n + i) and binds the top variable. Both are
consistent with their own pairing, and both are proved complete, but their
transcripts on the same tables differ in general.

`src/sumcheck.rs` is an older copy of `src/sumcheck/mod.rs` together with
`src/sumcheck/plain.rs`; its `CubicSumcheckProof`, `sumcheck_top` and
`PlainSumcheck` are modelled by the same members, and the table below cites
`src/sumcheck/mod.rs` and `src/sumcheck/plain.rs`. In the copy, `fiat_shamir`
is at lines 68-70, `eval_uni` at 72-86 (`EvalUniAtNodes`,
`EvalUniInterpolates`), `verify` at 89-109 (`Verify`, `VerifyAccepts`),
`sumcheck_top` at 119-137 (`PlainSumcheck.SumcheckTop`,
`HonestProverCompleteness`), and `PlainSumcheck`'s `new`, `eval_cubic_top`
and `bind_top` at 147-153, 155-189 and 191-195. Its tests are at 267-282
(`AssembledPlainRunVerifies`), 284-295 (`BindBotExample`) and 297-308
(`BindTopExample`).

The functions `BindTop`, `BindBot`, `PairEvals`, `RoundEvals`,
`BindTables`, `SumProducts`, `FiatShamir`, `EvalUni` and `VerifyOutcome`
are specification functions: the methods are proved against them, and the
lemmas in the table state what they mean.

## Model

| member | source | states |
|---|---|---|
| Field.DivCancels | src/sumcheck/mod.rs:39-42 | dividing by one of the denominators -6, 2, -2, 6 and multiplying back gives the dividend: `Div` is field division |
| Multilinear.IsPowerOfTwoIff | src/poly/plain.rs:84-86 | `num != 0 && num & (num - 1) == 0` holds exactly when num is 2^k for some k; in particular it fails for 0 |
| Multilinear.PowerOfTwoExponent | src/poly/plain.rs:84-86 | a number passing the check is 2^k for the k it returns |
| Multilinear.Pow2IsPowerOfTwo | src/poly/plain.rs:84-86 | every 2^k passes the check |
| Multilinear.BindTopAtEnds | src/poly/plain.rs:23-32 | binding the top variable at 0 keeps the first half of the table, at 1 the second half |
| Multilinear.BindBotAtEnds | src/poly/plain.rs:47-53 | binding the bottom variable at 0 keeps the even-indexed entries, at 1 the odd-indexed ones |
| Multilinear.BindKeepsPowerOfTwo | src/poly/plain.rs:23-53 | binding either variable of a power-of-two table of length at least 2 leaves a power-of-two table of half the length |
| Multilinear.DensePolynomial.New | src/poly/plain.rs:11-21 | construction fails with `NotPowerOfTwo(len)` exactly when the length is not a power of two, and otherwise stores the table unchanged |
| Multilinear.DensePolynomial.Index | src/poly/plain.rs:61-63 | indexing returns the entry of the current (bound and truncated) table |
| Multilinear.DensePolynomial.BoundPolyVarTop | src/poly/plain.rs:23-32 | the new table has length n = old/2 and entry i is `Z[i] + r*(Z[n+i] - Z[i])`; the loop invariant keeps entries not yet visited at their old values |
| Multilinear.DensePolynomial.BoundPolyVarTopPar | src/poly/plain.rs:34-45 | whatever order the left-half indices are updated in, the result is the same table as the serial top bind |
| Multilinear.DensePolynomial.BoundPolyVarBot | src/poly/plain.rs:47-53 | the new table has length n and entry i is `Z[2i] + r*(Z[2i+1] - Z[2i])`; at step i the entries at indices i and above still hold their original values, so no overwritten slot is read |
| SumcheckProof.Denominators | src/sumcheck/mod.rs:39-42 | the Lagrange denominators computed in Fr are -6, 2, -2 and 6 |
| SumcheckProof.EvalUniAtNodes | src/sumcheck/mod.rs:31-45 | `eval_uni(evals, k)` is `f_k` for k in 0..3 |
| SumcheckProof.EvalUniInterpolates | src/sumcheck/mod.rs:31-45 | for any cubic g over Fr, `eval_uni((g(0), g(1), g(2), g(3)), r) == g(r)` |
| SumcheckProof.EvalUniAdditive | src/sumcheck/mod.rs:36-45 | interpolation is linear: the value at r of a sum of round polynomials is the sum of their values |
| SumcheckProof.EvalUniOfZero | src/sumcheck/mod.rs:36-45 | the zero round polynomial interpolates to zero everywhere |
| SumcheckProof.Verify | src/sumcheck/mod.rs:48-68 | `verify` rejects on `rs.len() != round_polys.len()`, then rejects at the first round whose `f0 + f1` is not the running claim, then rejects unless the recomputed challenges equal `rs`, and otherwise returns the last running claim; it changes nothing, so the outcome depends only on the transcript and the claim |
| SumcheckProof.VerifyAccepts | src/sumcheck/mod.rs:48-68 | `verify` accepts exactly when the counts agree, every round passes the continuity check and every challenge is the Fiat-Shamir value of its round polynomial; it then returns the last running claim |
| SumcheckProof.ContinuityRejectionIsFirst | src/sumcheck/mod.rs:56-63 | a continuity rejection names a round that fails the check, and every earlier round passes it |
| SumcheckProof.AcceptsChainedClaims | src/sumcheck/mod.rs:52-67 | a transcript whose rounds chain a sequence of claims is accepted from the first claim and returns the last |
| SumcheckProof.FirstBreak | src/sumcheck/mod.rs:56-58 | the first round at or after a given one that fails the continuity check, or the number of rounds |
| CubicSumcheck.PairEvalsAtEnds | src/sumcheck/plain.rs:34-35 | a pair's `eval_0` and `eval_1` are the product of the three lines through (low, high) at 0 and at 1 |
| CubicSumcheck.PairEvalsAtTwo | src/sumcheck/plain.rs:37-44 | a pair's `eval_2`, computed from `high + m` with `m = high - low`, is the product of the three lines at 2 |
| CubicSumcheck.PairEvalsAtThree | src/sumcheck/plain.rs:46-49 | a pair's `eval_3`, computed from `high + 2m`, is the product of the three lines at 3 |
| CubicSumcheck.PairEvalsInterpolate | src/sumcheck/plain.rs:29-49 | interpolating a pair's four values at r gives the product of the three entries bound at r |
| CubicSumcheck.SumEvalsAppend | src/sumcheck/plain.rs:30-54 | partial sums over consecutive parts add up to the whole sum, so any partition of the reduction gives the same result |
| CubicSumcheck.EvalUniOfSum | src/sumcheck/plain.rs:54 | the value at r of the summed round polynomial is the sum of the pairs' values at r |
| CubicSumcheck.RoundConsistency | src/sumcheck/plain.rs:23-63 | for either pairing, the round polynomial evaluated at any r is the sum of `eq * a * b` over the tables bound at r |
| CubicSumcheck.RoundEvalsAtEnds | src/sumcheck/plain.rs:30-54 | `eval_0` and `eval_1` of the round polynomial are the sums of `eq*a*b` over the even and the odd entries for the (2i, 2i+1) pairing, and over the low and the high half for the (i, n+i) pairing |
| CubicSumcheck.RoundSumsToClaim | src/sumcheck/plain.rs:30-54 | for tables of even length, `eval_0 + eval_1` is the sum of `eq[i]*a[i]*b[i]` over the whole table, for either pairing |
| CubicSumcheck.SumEvensOdds | src/sumcheck/plain.rs:30-35 | the sum over the even-indexed entries plus the sum over the odd-indexed ones is the sum of all entries |
| CubicSumcheck.ProductsAtEndsBottom | src/sumcheck/plain.rs:59-63 | bound at 0 and 1 by the bottom pairing, the products are the even and the odd products |
| CubicSumcheck.ProductsAtEndsTop | src/sumcheck/simd.rs:119-129 | bound at 0 and 1 by the top pairing, the products are the two halves of the products |
| CubicSumcheck.HonestRunExtends | src/sumcheck/mod.rs:82-90 | one more evaluate, challenge, bind step extends an honest run by one round |
| CubicSumcheck.HonestRunUnique | src/sumcheck/mod.rs:78-96 | the transcript and the intermediate tables of `sumcheck_top` are determined by the starting tables and the number of rounds |
| CubicSumcheck.HonestRunLengths | src/sumcheck/mod.rs:82-90 | from tables of length 2^m, the tables before round i have length 2^(m-i) |
| CubicSumcheck.HonestRoundChains | src/sumcheck/mod.rs:58-62 | an honest round passes the continuity check for the true sum and hands on the true sum of the bound tables as the next claim |
| CubicSumcheck.HonestRunChains | src/sumcheck/mod.rs:82-90 | round i < m of an honest run from tables of length 2^m carries the challenge derived from its polynomial, passes the continuity check for the true sum over the tables before it, and evaluates at its challenge to the true sum over the tables after it |
| CubicSumcheck.HonestProverCompleteness | src/sumcheck/mod.rs:48-96 | on tables of equal length 2^m, the transcript of k <= m honest rounds passes `verify` with the true sum as the claim, which returns the true sum over the remaining tables |
| CubicSumcheck.OnlyTheTrueClaimPasses | src/sumcheck/mod.rs:52-58 | with at least one round, an honest transcript is accepted for the true sum and rejected at round 0 for every other claim |
| PlainBackend.PlainSumcheck.Wrap | src/sumcheck.rs:275-279 | assembling the prover from three polynomials keeps them as they are |
| PlainBackend.PlainSumcheck.New | src/sumcheck/plain.rs:15-21 | construction fails with the length of the first of eq, a, b that is not a power of two, and otherwise holds the three tables unchanged |
| PlainBackend.PlainSumcheck.EvalCubicTop | src/sumcheck/plain.rs:23-57 | fails with `LengthMismatch` exactly when the lengths differ, and otherwise returns the round polynomial of the (2i, 2i+1) pairing; changes nothing |
| PlainBackend.PlainSumcheck.BindTop | src/sumcheck/plain.rs:59-63 | all three tables are bound at the same r by the bottom pairing that `EvalCubicTop` sums over |
| PlainBackend.PlainSumcheck.SumcheckTop | src/sumcheck/mod.rs:78-96 | `k` rounds give exactly k round polynomials and k challenges with `rs[i] = fiat_shamir(round_polys[i])`, each round binding at its challenge (an honest run from the starting tables); it fails only in round 0 on unequal lengths |
| SimdBackend.ChunkSize | src/sumcheck/simd.rs:19-64 | the chunk length `n / threads / divisor + 2` capped at 512 (divisor 16 in the bind, lines 19-21, and 32 in the evaluation, lines 62-64) lies in 2..512, so every chunked loop makes progress |
| SimdBackend.ChunkPasses | src/sumcheck/simd.rs:29-31 | the in-place subtract, multiply and add on one pair of chunks turn high into `(high - low) * r` and low into `low + (high - low) * r` |
| SimdBackend.ChunkAdvances | src/sumcheck/simd.rs:24-32 | processing the next chunk after the first `start` pairs extends the bound prefix by the chunk's size |
| SimdBackend.PartialBindComplete | src/sumcheck/simd.rs:34 | once every pair is processed, the first n entries are the table bound at its top variable |
| SimdBackend.SimdPolynomial.constructor | src/sumcheck/simd.rs:8-10 | the polynomial holds the vector as given |
| SimdBackend.SimdPolynomial.BoundPolyVarTopPar | src/sumcheck/simd.rs:13-35 | chunk by chunk over the zipped halves, then truncated to n: the result is the table with its top variable bound at r, the same as the serial top bind |
| SimdBackend.SumEvalsComponents | src/sumcheck/simd.rs:76-113 | summing evaluation tuples is summing each of the four components separately |
| SimdBackend.ChunkSum | src/sumcheck/simd.rs:76-106 | the four inner products of one chunk (low, high, moved on by the slope once and twice) are the sums of the chunk's pair contributions |
| SimdBackend.ChunkTermsArePairTerms | src/sumcheck/simd.rs:65-75 | the pairs of a chunk of the low and high halves are those of the top pairing at the chunk's positions |
| SimdBackend.SumEvalsPrefix | src/sumcheck/simd.rs:110-113 | adding a chunk's partial sums to the sum over the earlier pairs gives the sum over the pairs so far |
| SimdBackend.EvalChunk | src/sumcheck/simd.rs:76-109 | the scratch-buffer computation of one chunk returns the sums of the chunk's pair contributions |
| SimdBackend.EvalChunkAt | src/sumcheck/simd.rs:65-109 | the chunk at `start` of the split halves yields the partial sums of the top-pairing contributions of its pairs |
| SimdBackend.SimdSumcheck.constructor | src/sumcheck/simd.rs:45-51 | the three vectors are wrapped as they are, without any length check |
| SimdBackend.SimdSumcheck.EvalCubicTop | src/sumcheck/simd.rs:54-116 | fails with `LengthMismatch` exactly when the lengths differ, and otherwise returns the round polynomial of the (i, n+i) pairing, the sum of the chunks' partial sums; changes nothing |
| SimdBackend.SimdSumcheck.BindTop | src/sumcheck/simd.rs:119-129 | all three tables are bound at the same r by the top pairing that `EvalCubicTop` sums over |
| SimdBackend.SimdSumcheck.SumcheckTop | src/sumcheck/mod.rs:78-96 | the trait's driver on the SIMD backend: k round polynomials and challenges forming an honest run of the top pairing; fails only in round 0 on unequal lengths |
| SumcheckExamples.ExampleClaim | src/sumcheck/mod.rs:142-146 | the test's claim, the sum of `eq*a*b` over eq = a = b = [12, 13, 14, 15], is 10044 |
| SumcheckExamples.PlainRunVerifies | src/sumcheck/mod.rs:140-151 | the plain backend's two-round transcript on the test tables passes `verify` for that claim |
| SumcheckExamples.AssembledPlainRunVerifies | src/sumcheck.rs:267-282 | the copy's test, where the prover is assembled from three `DensePolynomial`s: its two-round transcript passes `verify` for the claim 10044 |
| SumcheckExamples.SimdRunVerifies | src/sumcheck/simd.rs:44-130 | the SIMD backend's two-round transcript on the same tables passes `verify` for the same claim |
| SumcheckExamples.BindBotOfTestTable | src/sumcheck/mod.rs:155-160 | the bottom bind of [11, ..., 18] at 20 is [31, 33, 35, 37] |
| SumcheckExamples.BindTopOfTestTable | src/sumcheck/mod.rs:168-173 | the top bind of [11, ..., 18] at 20 is [91, 92, 93, 94] |
| SumcheckExamples.BindBotExample | src/sumcheck/mod.rs:153-164 | binding the bottom variable of [11, ..., 18] at 20 gives [31, 33, 35, 37] |
| SumcheckExamples.BindTopExample | src/sumcheck/mod.rs:166-177 | binding the top variable of [11, ..., 18] at 20 gives [91, 92, 93, 94], serially, in parallel and in the SIMD backend alike |

## Left out

- GPU backends (`src/poly/gpu.rs`, `src/gpu.rs`, `src/sumcheck/gpu.rs`, and `GPUPoly`/`GPUSumcheck` in `src/sumcheck.rs`): foreign calls into icicle and CUDA. The bind tests compare the plain bind with the GPU bind; the model proves the plain (and SIMD) results and not the GPU side.
- Field arithmetic internals (arkworks' Montgomery form): `Fr` is the integers modulo P. Only the divisions `eval_uni` makes (by -6, 2, -2, 6) are modelled; general inversion is not.
- rayon parallelism (`par_iter`, `par_chunks`, `reduce`, `rayon::join`): the chunked loops run sequentially in the model. The chunks are disjoint and their partial sums are combined by field addition, so the order does not change the result (`SumEvalsAppend`). `rayon::current_num_threads()` is a positive parameter `threads`.
- `DensePolynomial::bound_poly_var_top_par` is modelled as its element updates in an arbitrary order given as a parameter, not as concurrent threads.
- The `vectorized_fields` crate: its vector operations are modelled by their element-wise meaning (`SubVec`, `AddVec`, `MulVec`, `InnerProduct`, and the in-place `SubRange`, `AddRange`, `MulRange`) over the length of the low chunk.
- SimdBackend.SimdSumcheck.EvalCubicTop: for an odd length the source's `split_at(n)` makes the high halves one entry longer than the low halves, so the last high chunk is longer than its low partner and the scratch buffer, and the crate's behaviour on those unequal lengths is not known; the model sums only the n pairs (i, n + i) and ignores the extra last entry, so its contract is stated for behaviour the source does not define there.
- SimdBackend.SimdPolynomial.BoundPolyVarTopPar: for an odd length the source's last right chunk is one entry longer than its left chunk and the crate's behaviour on unequal lengths is not known; the model processes only the n right entries paired with the left ones, and the extra entry is discarded by the truncation either way.
- `SIMDPolynomial`'s `Vec<Fr>` is a `seq<Fr>` field that the methods reassign, rather than an array updated in place; the model does not capture aliasing between the three vectors, which Rust's ownership rules out anyway.
- `unsafe_alloc_vec` / `unsafe_allocate_zero_vec`: raw allocation with no meaning of its own; the model's buffers are always fully written before they are read, as in the source.
- `rand_vec`, `rand_fr`, the `bench` modules, `src/main.rs`, `Instant` timing, and the `println!`/`tracing` diagnostics: randomness, timing and output.
- `Index` on an out-of-range index panics in the source; the model states `index < len` as a precondition instead.
- `sumcheck_top`'s transcript is specified relationally (`HonestRun`, with the tables before and after each round as a ghost out-parameter) rather than by a recursive function.
- The source has no check that `num_rounds` is at most the number of variables; completeness is stated for at most that many rounds.
