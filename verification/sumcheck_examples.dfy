/** The repository's test inputs, stated as proved facts about the model:
    an honest two-round run on a four-entry table passes `verify` with the
    true sum 12^3 + 13^3 + 14^3 + 15^3 = 10044, and the two bind tests'
    eight-entry table bound at 20. The SIMD run is an added example. */
module SumcheckExamples {
  import opened Field
  import opened Outcomes
  import opened Multilinear
  import opened SumcheckProof
  import opened CubicSumcheck
  import opened PlainBackend
  import opened SimdBackend

  /** The sum of `eq * a * b` over the test table, as the test computes its
      claim. */
  lemma ExampleClaim()
    ensures SameLengths(Tables([12, 13, 14, 15], [12, 13, 14, 15], [12, 13, 14, 15]))
    ensures SumProducts(Tables([12, 13, 14, 15], [12, 13, 14, 15], [12, 13, 14, 15])) == 10044
  {
    var z: seq<Fr> := [12, 13, 14, 15];
    var s := Products(Tables(z, z, z));
    assert s[0] == Mul(Mul(12, 12), 12) == 1728;
    assert s[1] == Mul(Mul(13, 13), 13) == 2197;
    assert s[2] == Mul(Mul(14, 14), 14) == 2744;
    assert s[3] == Mul(Mul(15, 15), 15) == 3375;
    assert s[..3][..2][..1][..0] == [];
    assert Sum(s[..3][..2][..1]) == 1728;
    assert Sum(s[..3][..2]) == 3925;
    assert Sum(s[..3]) == 6669;
    assert Sum(s) == 10044;
  }

  /** The plain backend's two-round transcript on eq = a = b = [12, 13, 14,
      15] passes `verify` for the claim 10044. */
  method PlainRunVerifies() returns (res: Result<Fr>)
    ensures res.Ok?
  {
    var z: seq<Fr> := [12, 13, 14, 15];
    assert IsPowerOfTwo(4);
    var s := PlainSumcheck.New(z, z, z);
    var proof, ts := s.value.SumcheckTop(2);
    ExampleClaim();
    assert Pow2(2) == 4;
    HonestProverCompleteness(Bottom, ts, proof.value, 2);
    res := Verify(proof.value, 10044);
  }

  /** The same run with the prover assembled from three polynomials built
      one by one, as the copy of the test in `src/sumcheck.rs` does. */
  method AssembledPlainRunVerifies() returns (res: Result<Fr>)
    ensures res.Ok?
  {
    var z: seq<Fr> := [12, 13, 14, 15];
    assert IsPowerOfTwo(4);
    var eq := DensePolynomial.New(z);
    var a := DensePolynomial.New(z);
    var b := DensePolynomial.New(z);
    var s := new PlainSumcheck.Wrap(eq.value, a.value, b.value);
    var proof, ts := s.SumcheckTop(2);
    ExampleClaim();
    assert Pow2(2) == 4;
    HonestProverCompleteness(Bottom, ts, proof.value, 2);
    res := Verify(proof.value, 10044);
  }

  /** The SIMD backend's two-round transcript on the same tables, with four
      threads, passes `verify` for the same claim. */
  method SimdRunVerifies() returns (res: Result<Fr>)
    ensures res.Ok?
  {
    var z: seq<Fr> := [12, 13, 14, 15];
    var s := new SimdSumcheck(z, z, z);
    var proof, ts := s.SumcheckTop(2, 4);
    ExampleClaim();
    assert Pow2(2) == 4;
    HonestProverCompleteness(Top, ts, proof.value, 2);
    res := Verify(proof.value, 10044);
  }

  /** The table of the two bind tests. */
  const BindTestTable: seq<Fr> := [11, 12, 13, 14, 15, 16, 17, 18]

  /** Each pair of the test table bound at 20 moves 20 times the difference
      of its entries away from the low entry. */
  lemma BindBotOfTestTable()
    ensures BindBot(BindTestTable, 20) == [31, 33, 35, 37]
  {
    var b := BindBot(BindTestTable, 20);
    assert b[0] == BindPair(11, 12, 20) == 31;
    assert b[1] == BindPair(13, 14, 20) == 33;
    assert b[2] == BindPair(15, 16, 20) == 35;
    assert b[3] == BindPair(17, 18, 20) == 37;
  }

  lemma BindTopOfTestTable()
    ensures BindTop(BindTestTable, 20) == [91, 92, 93, 94]
  {
    var b := BindTop(BindTestTable, 20);
    assert b[0] == BindPair(11, 15, 20) == 91;
    assert b[1] == BindPair(12, 16, 20) == 92;
    assert b[2] == BindPair(13, 17, 20) == 93;
    assert b[3] == BindPair(14, 18, 20) == 94;
  }

  /** Binding the bottom variable of [11, ..., 18] at 20 gives
      [31, 33, 35, 37]. */
  method BindBotExample() returns (z: seq<Fr>)
    ensures z == [31, 33, 35, 37]
  {
    assert |BindTestTable| == 8 && IsPowerOfTwo(8);
    var p := DensePolynomial.New(BindTestTable);
    p.value.BoundPolyVarBot(20);
    z := p.value.Evaluations();
    BindBotOfTestTable();
  }

  /** Binding the top variable of [11, ..., 18] at 20 gives [91, 92, 93, 94],
      serially, in parallel in any schedule, and in the SIMD backend. */
  method BindTopExample() returns (serial: seq<Fr>, par: seq<Fr>, simd: seq<Fr>)
    ensures serial == [91, 92, 93, 94] && par == serial && simd == serial
  {
    assert |BindTestTable| == 8 && IsPowerOfTwo(8);
    var p := DensePolynomial.New(BindTestTable);
    p.value.BoundPolyVarTop(20);
    serial := p.value.Evaluations();
    var q := DensePolynomial.New(BindTestTable);
    q.value.BoundPolyVarTopPar(20, [3, 1, 0, 2]);
    par := q.value.Evaluations();
    var v := new SimdPolynomial(BindTestTable);
    v.BoundPolyVarTopPar(20, 4);
    simd := v.Z;
    BindTopOfTestTable();
  }
}
