/** The plain CPU backend (`PlainSumcheck`): three dense polynomials, a
    round evaluation over the pairs (2i, 2i + 1), binding of the bottom
    variable, and the trait's `sumcheck_top` driver on top of them. */
module PlainBackend {
  import opened Field
  import opened Outcomes
  import opened Multilinear
  import opened SumcheckProof
  import opened CubicSumcheck

  class PlainSumcheck {
    const eq: DensePolynomial
    const a: DensePolynomial
    const b: DensePolynomial

    /** The three polynomials are well formed and own separate storage. */
    ghost predicate Valid()
      reads this, eq, a, b
    {
      eq.Valid() && a.Valid() && b.Valid()
      && eq != a && eq != b && a != b
      && eq.Z != a.Z && eq.Z != b.Z && a.Z != b.Z
    }

    /** The current tables of `eq`, `a` and `b`. */
    function Current(): Tables
      reads this, eq, a, b, eq.Z, a.Z, b.Z
      requires Valid()
    {
      Tables(eq.Evaluations(), a.Evaluations(), b.Evaluations())
    }

    constructor Wrap(eq: DensePolynomial, a: DensePolynomial, b: DensePolynomial)
      requires eq.Valid() && a.Valid() && b.Valid()
      requires eq != a && eq != b && a != b && eq.Z != a.Z && eq.Z != b.Z && a.Z != b.Z
      ensures this.eq == eq && this.a == a && this.b == b
      ensures Valid()
    {
      this.eq := eq;
      this.a := a;
      this.b := b;
    }

    /** `PlainSumcheck::new`: builds the three polynomials in the order eq, a,
        b, each through `DensePolynomial::new`, so the first table whose
        length is not a power of two is the one reported. */
    static method New(eqZ: seq<Fr>, aZ: seq<Fr>, bZ: seq<Fr>) returns (res: Result<PlainSumcheck>)
      ensures res.Ok? <==> IsPowerOfTwo(|eqZ|) && IsPowerOfTwo(|aZ|) && IsPowerOfTwo(|bZ|)
      ensures res.Err? ==> res.error == NotPowerOfTwo(
        if !IsPowerOfTwo(|eqZ|) then |eqZ| else if !IsPowerOfTwo(|aZ|) then |aZ| else |bZ|)
      ensures res.Ok? ==> fresh(res.value) && fresh(res.value.eq) && fresh(res.value.a) && fresh(res.value.b)
                          && fresh(res.value.eq.Z) && fresh(res.value.a.Z) && fresh(res.value.b.Z)
                          && res.value.Valid() && res.value.Current() == Tables(eqZ, aZ, bZ)
    {
      var eqRes := DensePolynomial.New(eqZ);
      if eqRes.Err? {
        return Err(eqRes.error);
      }
      var aRes := DensePolynomial.New(aZ);
      if aRes.Err? {
        return Err(aRes.error);
      }
      var bRes := DensePolynomial.New(bZ);
      if bRes.Err? {
        return Err(bRes.error);
      }
      var s := new PlainSumcheck.Wrap(eqRes.value, aRes.value, bRes.value);
      return Ok(s);
    }

    /** `eval_cubic_top`: the length checks on `a` and `b`, then the sum over
        the pairs (2i, 2i + 1) of their contributions. The state is not
        changed. */
    function EvalCubicTop(): (res: Result<Evals>)
      reads this, eq, a, b, eq.Z, a.Z, b.Z
      requires Valid()
      ensures res.Ok? <==> SameLengths(Current())
      ensures res.Err? ==> res.error == LengthMismatch
      ensures res.Ok? ==> res.value == RoundEvals(Bottom, Current())
    {
      if a.len != eq.len || b.len != eq.len then Err(LengthMismatch)
      else
        var n := eq.len / 2;
        var E, A, B := eq.Evaluations(), a.Evaluations(), b.Evaluations();
        var terms := seq(n, i requires 0 <= i < n =>
          PairEvals(E[2 * i], E[2 * i + 1], A[2 * i], A[2 * i + 1], B[2 * i], B[2 * i + 1]));
        assert terms == PairTerms(Bottom, Current());
        Ok(SumEvals(terms))
    }

    /** `bind_top`: binds the bottom variable of all three polynomials at r,
        the variable whose pairs `EvalCubicTop` sums over. */
    method BindTop(r: Fr)
      requires Valid()
      modifies eq, eq.Z, a, a.Z, b, b.Z
      ensures Valid()
      ensures Current() == BindTables(Bottom, old(Current()), r)
    {
      eq.BoundPolyVarBot(r);
      a.BoundPolyVarBot(r);
      b.BoundPolyVarBot(r);
    }

    /** `sumcheck_top`: `numRounds` rounds of evaluate, derive the challenge,
        bind. The run fails only in the first round, on tables of unequal
        lengths, and then before anything is changed; otherwise the
        transcript and the tables before and after every round form an honest
        run from the starting tables (`ts` lists those tables). */
    method SumcheckTop(numRounds: nat) returns (res: Result<CubicSumcheckProof>, ghost ts: seq<Tables>)
      requires Valid()
      modifies eq, eq.Z, a, a.Z, b, b.Z
      ensures Valid()
      ensures res.Err? <==> numRounds > 0 && !SameLengths(old(Current()))
      ensures res.Err? ==> res.error == LengthMismatch && Current() == old(Current())
      ensures res.Ok? ==> |res.value.roundPolys| == numRounds && HonestRun(Bottom, ts, res.value)
                          && ts[0] == old(Current()) && ts[|ts| - 1] == Current()
    {
      var roundPolys: seq<Evals> := [];
      var rs: seq<Fr> := [];
      ts := [Current()];
      for i := 0 to numRounds
        invariant Valid()
        invariant |roundPolys| == i
        invariant HonestRun(Bottom, ts, CubicSumcheckProof(roundPolys, rs))
        invariant ts[0] == old(Current()) && ts[|ts| - 1] == Current()
        invariant i > 0 ==> SameLengths(old(Current())) && SameLengths(Current())
      {
        var evals := EvalCubicTop();
        if evals.Err? {
          return Err(evals.error), ts;
        }
        var r := FiatShamir(evals.value);
        BindTop(r);
        HonestRunExtends(Bottom, ts, CubicSumcheckProof(roundPolys, rs), evals.value, r, Current());
        roundPolys := roundPolys + [evals.value];
        rs := rs + [r];
        ts := ts + [Current()];
      }
      return Ok(CubicSumcheckProof(roundPolys, rs)), ts;
    }
  }
}
