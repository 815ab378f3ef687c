/** The transcript of a cubic sumcheck and its verifier (`CubicSumcheckProof`
    with `fiat_shamir`, `eval_uni` and `verify`). */
module SumcheckProof {
  import opened Field
  import opened Outcomes
  import opened Lagrange

  /** A round polynomial as the prover sends it: the evaluations
      f(0), f(1), f(2), f(3) of a univariate cubic f. */
  datatype Evals = Evals(f0: Fr, f1: Fr, f2: Fr, f3: Fr) {
    /** The value f(k) at the node k. */
    function At(k: nat): Fr
      requires k < 4
    {
      if k == 0 then f0 else if k == 1 then f1 else if k == 2 then f2 else f3
    }
  }

  /** Componentwise sum, the combining step of the backends' reductions. */
  function AddEvals(u: Evals, v: Evals): Evals {
    Evals(Add(u.f0, v.f0), Add(u.f1, v.f1), Add(u.f2, v.f2), Add(u.f3, v.f3))
  }

  const ZeroEvals: Evals := Evals(0, 0, 0, 0)

  /** The placeholder challenge derivation `(f0*f1*f2*f3 + 13) * 29`. */
  function FiatShamir(p: Evals): Fr {
    Mul(Add(Mul(Mul(Mul(p.f0, p.f1), p.f2), p.f3), FromNat(13)), FromNat(29))
  }

  // ---------------------------------------------------------------------
  // eval_uni: Lagrange interpolation through the nodes 0, 1, 2, 3

  /** `(x - a) * (x - b) * (x - c)` computed in Fr. */
  function Prod3(x: Fr, a: nat, b: nat, c: nat): Fr {
    Mul(Mul(Sub(x, FromNat(a)), Sub(x, FromNat(b))), Sub(x, FromNat(c)))
  }

  /** The Lagrange denominators `prod_{k != j} (j - k)`, computed in Fr as
      the numerators at the node itself, are -6, 2, -2 and 6. */
  lemma Denominators()
    ensures Prod3(FromNat(0), 1, 2, 3) == P - 6
    ensures Prod3(FromNat(1), 0, 2, 3) == 2
    ensures Prod3(FromNat(2), 0, 1, 3) == P - 2
    ensures Prod3(FromNat(3), 0, 1, 2) == 6
  {
    Prod3Reduce(0, 1, 2, 3);
    Prod3Reduce(1, 0, 2, 3);
    Prod3Reduce(2, 0, 1, 3);
    Prod3Reduce(3, 0, 1, 2);
  }

  /** The value at `r` of the cubic whose values at 0, 1, 2, 3 are `evals`:
      `f0*l0(r) + f1*l1(r) + f2*l2(r) + f3*l3(r)` with the Lagrange basis
      `lj(r) = prod_{k != j} (r - k) / (j - k)`. The denominators
      `prod_{k != j} (j - k)` are -6, 2, -2 and 6 (lemma Denominators). */
  function EvalUni(evals: Evals, r: Fr): Fr {
    var l0 := Div(Prod3(r, 1, 2, 3), P - 6);
    var l1 := Div(Prod3(r, 0, 2, 3), 2);
    var l2 := Div(Prod3(r, 0, 1, 3), P - 2);
    var l3 := Div(Prod3(r, 0, 1, 2), 6);
    Add(Add(Add(Mul(evals.f0, l0), Mul(evals.f1, l1)), Mul(evals.f2, l2)), Mul(evals.f3, l3))
  }

  lemma Prod3Reduce(x: Fr, a: nat, b: nat, c: nat)
    requires a < P && b < P && c < P
    ensures Prod3(x, a, b, c) == Reduce(Numerator(x, a, b, c))
  {
    ReduceOfElement(x);
    SubOfResidues(x, FromNat(a), x, a);
    SubOfResidues(x, FromNat(b), x, b);
    SubOfResidues(x, FromNat(c), x, c);
    MulOfResidues(Sub(x, FromNat(a)), Sub(x, FromNat(b)), x - a, x - b);
    MulOfResidues(Mul(Sub(x, FromNat(a)), Sub(x, FromNat(b))), Sub(x, FromNat(c)), (x - a) * (x - b), x - c);
  }

  lemma DivByMinusSix(x: int)
    ensures Div(Reduce(x), P - 6) == Mul(INV6, Reduce(-x))
  {
    ReduceOfElement(P - INV6);
    ReduceMul(x, P - INV6);
    ReduceOfElement(INV6);
    ReduceMul(INV6, -x);
    assert x * (P - INV6) == INV6 * -x + x * P;
    ReduceShift(INV6 * -x, x);
  }

  lemma DivByTwo(x: int)
    ensures Div(Reduce(x), 2) == Mul(INV6, Reduce(3 * x))
  {
    ReduceOfElement(INV2);
    ReduceMul(x, INV2);
    ReduceOfElement(INV6);
    ReduceMul(INV6, 3 * x);
    assert x * INV2 == INV6 * (3 * x) + (-2 * x) * P;
    ReduceShift(INV6 * (3 * x), -2 * x);
  }

  lemma DivByMinusTwo(x: int)
    ensures Div(Reduce(x), P - 2) == Mul(INV6, Reduce(-3 * x))
  {
    ReduceOfElement(P - INV2);
    ReduceMul(x, P - INV2);
    ReduceOfElement(INV6);
    ReduceMul(INV6, -3 * x);
    assert x * (P - INV2) == INV6 * (-3 * x) + (3 * x) * P;
    ReduceShift(INV6 * (-3 * x), 3 * x);
  }

  lemma DivBySix(x: int)
    ensures Div(Reduce(x), 6) == Mul(INV6, Reduce(x))
  {
    ReduceOfElement(INV6);
    ReduceMul(x, INV6);
    ReduceMul(INV6, x);
  }

  /** f * (INV6 * y) == INV6 * (f * y) */
  lemma ScaleTerm(f: Fr, y: int)
    ensures Mul(f, Mul(INV6, Reduce(y))) == Mul(INV6, Reduce(f * y))
  {
    ReduceOfElement(f);
    ReduceOfElement(INV6);
    ReduceMul(INV6, y);
    ReduceMul(f, INV6 * y);
    ReduceMul(INV6, f * y);
    assert f * (INV6 * y) == INV6 * (f * y);
  }

  /** INV6*y0 + INV6*y1 + INV6*y2 + INV6*y3 == INV6 * (y0 + y1 + y2 + y3) */
  lemma ScaleSum(y0: int, y1: int, y2: int, y3: int)
    ensures Add(Add(Add(Mul(INV6, Reduce(y0)), Mul(INV6, Reduce(y1))), Mul(INV6, Reduce(y2))), Mul(INV6, Reduce(y3)))
         == Mul(INV6, Reduce(y0 + y1 + y2 + y3))
  {
    ReduceOfElement(INV6);
    ReduceMul(INV6, y0);
    ReduceMul(INV6, y1);
    ReduceMul(INV6, y2);
    ReduceMul(INV6, y3);
    ReduceMul(INV6, y0 + y1 + y2 + y3);
    ReduceAdd(INV6 * y0, INV6 * y1);
    ReduceAdd(INV6 * y0 + INV6 * y1, INV6 * y2);
    ReduceAdd(INV6 * y0 + INV6 * y1 + INV6 * y2, INV6 * y3);
    assert INV6 * y0 + INV6 * y1 + INV6 * y2 + INV6 * y3 == INV6 * (y0 + y1 + y2 + y3);
  }

  /** eval_uni in closed form: one sixth of an integer combination of the
      values with the (scaled) Lagrange basis at r. */
  lemma EvalUniClosedForm(e: Evals, r: Fr)
    ensures EvalUni(e, r) == Mul(INV6, Reduce(Combination(e.f0, e.f1, e.f2, e.f3, r)))
  {
    // The four Lagrange basis values at r, each one sixth of an integer.
    assert Div(Prod3(r, 1, 2, 3), P - 6) == Mul(INV6, Reduce(L0(r))) by {
      Prod3Reduce(r, 1, 2, 3);
      DivByMinusSix(Numerator(r, 1, 2, 3));
    }
    assert Div(Prod3(r, 0, 2, 3), 2) == Mul(INV6, Reduce(L1(r))) by {
      Prod3Reduce(r, 0, 2, 3);
      DivByTwo(Numerator(r, 0, 2, 3));
    }
    assert Div(Prod3(r, 0, 1, 3), P - 2) == Mul(INV6, Reduce(L2(r))) by {
      Prod3Reduce(r, 0, 1, 3);
      DivByMinusTwo(Numerator(r, 0, 1, 3));
    }
    assert Div(Prod3(r, 0, 1, 2), 6) == Mul(INV6, Reduce(L3(r))) by {
      Prod3Reduce(r, 0, 1, 2);
      DivBySix(Numerator(r, 0, 1, 2));
    }
    ScaleTerm(e.f0, L0(r));
    ScaleTerm(e.f1, L1(r));
    ScaleTerm(e.f2, L2(r));
    ScaleTerm(e.f3, L3(r));
    ScaleSum(e.f0 * L0(r), e.f1 * L1(r), e.f2 * L2(r), e.f3 * L3(r));
  }

  /** Replacing each coefficient of an integer combination by its residue
      does not change the residue of the combination. */
  lemma ReduceCombination(y0: int, y1: int, y2: int, y3: int, w0: int, w1: int, w2: int, w3: int)
    ensures Reduce(Reduce(y0) * w0 + Reduce(y1) * w1 + Reduce(y2) * w2 + Reduce(y3) * w3)
         == Reduce(y0 * w0 + y1 * w1 + y2 * w2 + y3 * w3)
  {
    ReduceMulLeft(y0, w0);
    ReduceMulLeft(y1, w1);
    ReduceMulLeft(y2, w2);
    ReduceMulLeft(y3, w3);
    var a0, a1, a2, a3 := Reduce(y0) * w0, Reduce(y1) * w1, Reduce(y2) * w2, Reduce(y3) * w3;
    var b0, b1, b2, b3 := y0 * w0, y1 * w1, y2 * w2, y3 * w3;
    ReduceAdd(a0, a1);
    ReduceAdd(a0 + a1, a2);
    ReduceAdd(a0 + a1 + a2, a3);
    ReduceAdd(b0, b1);
    ReduceAdd(b0 + b1, b2);
    ReduceAdd(b0 + b1 + b2, b3);
  }

  /** When the values are residues of y0..y3 whose combination at r is six
      times z, eval_uni at r returns the residue of z. */
  lemma SixthOfCombination(e: Evals, r: Fr, y0: int, y1: int, y2: int, y3: int, z: int)
    requires e == Evals(Reduce(y0), Reduce(y1), Reduce(y2), Reduce(y3))
    requires Combination(y0, y1, y2, y3, r) == 6 * z
    ensures EvalUni(e, r) == Reduce(z)
  {
    EvalUniClosedForm(e, r);
    ResidueCombination(e, r, y0, y1, y2, y3);
    SixthOfSixfold(z);
  }

  lemma ResidueCombination(e: Evals, r: Fr, y0: int, y1: int, y2: int, y3: int)
    requires e == Evals(Reduce(y0), Reduce(y1), Reduce(y2), Reduce(y3))
    ensures Reduce(Combination(e.f0, e.f1, e.f2, e.f3, r)) == Reduce(Combination(y0, y1, y2, y3, r))
  {
    ReduceCombination(y0, y1, y2, y3, L0(r), L1(r), L2(r), L3(r));
  }

  /** eval_uni returns the value at r of the cubic it is given the values of,
      for the residues of an integer cubic. */
  lemma EvalUniOnIntegerCubic(c0: int, c1: int, c2: int, c3: int, r: Fr)
    ensures EvalUni(Evals(Reduce(Cubic(c0, c1, c2, c3, 0)), Reduce(Cubic(c0, c1, c2, c3, 1)),
                          Reduce(Cubic(c0, c1, c2, c3, 2)), Reduce(Cubic(c0, c1, c2, c3, 3))), r)
         == Reduce(Cubic(c0, c1, c2, c3, r))
  {
    CombinationOfCubic(c0, c1, c2, c3, r);
    SixthOfCombination(Evals(Reduce(Cubic(c0, c1, c2, c3, 0)), Reduce(Cubic(c0, c1, c2, c3, 1)),
                             Reduce(Cubic(c0, c1, c2, c3, 2)), Reduce(Cubic(c0, c1, c2, c3, 3))), r,
                       Cubic(c0, c1, c2, c3, 0), Cubic(c0, c1, c2, c3, 1),
                       Cubic(c0, c1, c2, c3, 2), Cubic(c0, c1, c2, c3, 3), Cubic(c0, c1, c2, c3, r));
  }

  /** c0 + c1*x + c2*x^2 + c3*x^3 computed in Fr. */
  function CubicAt(c0: Fr, c1: Fr, c2: Fr, c3: Fr, x: Fr): Fr {
    Add(Add(Add(c0, Mul(c1, x)), Mul(c2, Mul(x, x))), Mul(c3, Mul(x, Mul(x, x))))
  }

  lemma CubicAtReduce(c0: Fr, c1: Fr, c2: Fr, c3: Fr, x: Fr)
    ensures CubicAt(c0, c1, c2, c3, x) == Reduce(Cubic(c0, c1, c2, c3, x))
  {
    ReduceOfElement(c0);
    ReduceOfElement(c1);
    ReduceOfElement(c2);
    ReduceOfElement(c3);
    ReduceOfElement(x);
    MulOfResidues(c1, x, c1, x);
    MulOfResidues(x, x, x, x);
    MulOfResidues(c2, Mul(x, x), c2, x * x);
    MulOfResidues(x, Mul(x, x), x, x * x);
    MulOfResidues(c3, Mul(x, Mul(x, x)), c3, x * (x * x));
    AddOfResidues(c0, Mul(c1, x), c0, c1 * x);
    AddOfResidues(Add(c0, Mul(c1, x)), Mul(c2, Mul(x, x)), c0 + c1 * x, c2 * (x * x));
    AddOfResidues(Add(Add(c0, Mul(c1, x)), Mul(c2, Mul(x, x))), Mul(c3, Mul(x, Mul(x, x))),
                  c0 + c1 * x + c2 * (x * x), c3 * (x * (x * x)));
    CubicExpanded(c0, c1, c2, c3, x);
  }

  /** eval_uni interpolates: given the values at 0, 1, 2, 3 of any cubic g
      over Fr, it returns g(r) for every r. */
  lemma EvalUniInterpolates(c0: Fr, c1: Fr, c2: Fr, c3: Fr, r: Fr)
    ensures EvalUni(Evals(CubicAt(c0, c1, c2, c3, FromNat(0)), CubicAt(c0, c1, c2, c3, FromNat(1)),
                          CubicAt(c0, c1, c2, c3, FromNat(2)), CubicAt(c0, c1, c2, c3, FromNat(3))), r)
         == CubicAt(c0, c1, c2, c3, r)
  {
    var e := Evals(CubicAt(c0, c1, c2, c3, FromNat(0)), CubicAt(c0, c1, c2, c3, FromNat(1)),
                   CubicAt(c0, c1, c2, c3, FromNat(2)), CubicAt(c0, c1, c2, c3, FromNat(3)));
    assert e == Evals(Reduce(Cubic(c0, c1, c2, c3, 0)), Reduce(Cubic(c0, c1, c2, c3, 1)),
                      Reduce(Cubic(c0, c1, c2, c3, 2)), Reduce(Cubic(c0, c1, c2, c3, 3))) by {
      CubicAtReduce(c0, c1, c2, c3, 0);
      CubicAtReduce(c0, c1, c2, c3, 1);
      CubicAtReduce(c0, c1, c2, c3, 2);
      CubicAtReduce(c0, c1, c2, c3, 3);
    }
    CubicAtReduce(c0, c1, c2, c3, r);
    EvalUniOnIntegerCubic(c0, c1, c2, c3, r);
  }

  lemma DivZero(d: Fr)
    requires IsDivisor(d)
    ensures Div(0, d) == 0
  {
  }

  /** Dividing a denominator by itself gives one. */
  lemma DivSelf(d: Fr)
    requires IsDivisor(d)
    ensures Div(d, d) == 1
  {
  }

  /** Each numerator vanishes at the three nodes it is built from. */
  lemma NumeratorsVanish()
    ensures Prod3(0, 0, 2, 3) == 0 && Prod3(0, 0, 1, 3) == 0 && Prod3(0, 0, 1, 2) == 0
    ensures Prod3(1, 1, 2, 3) == 0 && Prod3(1, 0, 1, 3) == 0 && Prod3(1, 0, 1, 2) == 0
    ensures Prod3(2, 1, 2, 3) == 0 && Prod3(2, 0, 2, 3) == 0 && Prod3(2, 0, 1, 2) == 0
    ensures Prod3(3, 1, 2, 3) == 0 && Prod3(3, 0, 2, 3) == 0 && Prod3(3, 0, 1, 3) == 0
  {
  }

  /** eval_uni at a node, once the basis values there are known. */
  lemma EvalUniAtNode(e: Evals, r: Fr, k: nat)
    requires k < 4
    requires Div(Prod3(r, 1, 2, 3), P - 6) == (if k == 0 then 1 else 0)
    requires Div(Prod3(r, 0, 2, 3), 2) == (if k == 1 then 1 else 0)
    requires Div(Prod3(r, 0, 1, 3), P - 2) == (if k == 2 then 1 else 0)
    requires Div(Prod3(r, 0, 1, 2), 6) == (if k == 3 then 1 else 0)
    ensures EvalUni(e, r) == e.At(k)
  {
    MulOne(e.At(k));
    MulZero(e.f0);
    MulZero(e.f1);
    MulZero(e.f2);
    MulZero(e.f3);
    AddZero(e.At(k));
    AddZero(0);
    AddZero(e.f0);
    AddZero(Add(e.f0, e.f1));
  }

  lemma EvalUniAtZero(e: Evals)
    ensures EvalUni(e, 0) == e.f0
  {
    Denominators();
    DivSelf(P - 6);
    NumeratorsVanish();
    DivZero(2);
    DivZero(P - 2);
    DivZero(6);
    EvalUniAtNode(e, 0, 0);
  }

  lemma EvalUniAtOne(e: Evals)
    ensures EvalUni(e, 1) == e.f1
  {
    Denominators();
    DivSelf(2);
    NumeratorsVanish();
    DivZero(P - 6);
    DivZero(P - 2);
    DivZero(6);
    EvalUniAtNode(e, 1, 1);
  }

  lemma EvalUniAtTwo(e: Evals)
    ensures EvalUni(e, 2) == e.f2
  {
    Denominators();
    DivSelf(P - 2);
    NumeratorsVanish();
    DivZero(P - 6);
    DivZero(2);
    DivZero(6);
    EvalUniAtNode(e, 2, 2);
  }

  lemma EvalUniAtThree(e: Evals)
    ensures EvalUni(e, 3) == e.f3
  {
    Denominators();
    DivSelf(6);
    NumeratorsVanish();
    DivZero(P - 6);
    DivZero(2);
    DivZero(P - 2);
    EvalUniAtNode(e, 3, 3);
  }

  /** At the nodes themselves eval_uni returns the given values. */
  lemma EvalUniAtNodes(e: Evals, k: nat)
    requires k < 4
    ensures EvalUni(e, FromNat(k)) == e.At(k)
  {
    if k == 0 {
      EvalUniAtZero(e);
    } else if k == 1 {
      EvalUniAtOne(e);
    } else if k == 2 {
      EvalUniAtTwo(e);
    } else {
      EvalUniAtThree(e);
    }
  }

  /** INV6*U + INV6*V == INV6*(U + V) in Fr. */
  lemma SixthsAdd(u: int, v: int)
    ensures Add(Mul(INV6, Reduce(u)), Mul(INV6, Reduce(v))) == Mul(INV6, Reduce(u + v))
  {
    ReduceOfElement(INV6);
    MulOfResidues(INV6, Reduce(u), INV6, u);
    MulOfResidues(INV6, Reduce(v), INV6, v);
    MulOfResidues(INV6, Reduce(u + v), INV6, u + v);
    AddOfResidues(Mul(INV6, Reduce(u)), Mul(INV6, Reduce(v)), INV6 * u, INV6 * v);
    assert INV6 * u + INV6 * v == INV6 * (u + v);
  }

  /** eval_uni is linear in the evaluations: interpolating a sum of round
      polynomials gives the sum of the interpolations. */
  lemma EvalUniAdditive(u: Evals, v: Evals, r: Fr)
    ensures EvalUni(AddEvals(u, v), r) == Add(EvalUni(u, r), EvalUni(v, r))
  {
    var l0 := Div(Prod3(r, 1, 2, 3), P - 6);
    var l1 := Div(Prod3(r, 0, 2, 3), 2);
    var l2 := Div(Prod3(r, 0, 1, 3), P - 2);
    var l3 := Div(Prod3(r, 0, 1, 2), 6);
    MulAddDistrib(u.f0, v.f0, l0);
    MulAddDistrib(u.f1, v.f1, l1);
    MulAddDistrib(u.f2, v.f2, l2);
    MulAddDistrib(u.f3, v.f3, l3);
    AddPairs4(Mul(u.f0, l0), Mul(u.f1, l1), Mul(u.f2, l2), Mul(u.f3, l3),
              Mul(v.f0, l0), Mul(v.f1, l1), Mul(v.f2, l2), Mul(v.f3, l3));
  }

  lemma EvalUniOfZero(r: Fr)
    ensures EvalUni(ZeroEvals, r) == 0
  {
    var e := ZeroEvals;
    MulZero(Div(Prod3(r, 1, 2, 3), P - 6));
    MulZero(Div(Prod3(r, 0, 2, 3), 2));
    MulZero(Div(Prod3(r, 0, 1, 3), P - 2));
    MulZero(Div(Prod3(r, 0, 1, 2), 6));
    AddZero(0);
  }

  // ---------------------------------------------------------------------
  // The transcript and its verifier

  /** What the prover sends: one round polynomial per round and the
      challenge it derived from each. */
  datatype CubicSumcheckProof = CubicSumcheckProof(roundPolys: seq<Evals>, rs: seq<Fr>)

  /** The challenges an honest party derives, one per round polynomial. */
  function Challenges(polys: seq<Evals>): (cs: seq<Fr>)
    ensures |cs| == |polys|
    ensures forall i :: 0 <= i < |polys| ==> cs[i] == FiatShamir(polys[i])
  {
    seq(|polys|, i requires 0 <= i < |polys| => FiatShamir(polys[i]))
  }

  /** The claim round i must meet: the initial claim in round 0, and after
      that the previous round polynomial evaluated at its own challenge. */
  function RunningClaim(polys: seq<Evals>, claim: Fr, i: nat): Fr
    requires i <= |polys|
  {
    if i == 0 then claim else EvalUni(polys[i - 1], FiatShamir(polys[i - 1]))
  }

  /** Round i passes the continuity check `f0 + f1 == prev_claim`. */
  predicate Continuous(polys: seq<Evals>, claim: Fr, i: nat)
    requires i < |polys|
  {
    Add(polys[i].f0, polys[i].f1) == RunningClaim(polys, claim, i)
  }

  /** The first round at or after `from` that fails the continuity check, or
      the number of rounds when none does. */
  function FirstBreak(polys: seq<Evals>, claim: Fr, from: nat): (k: nat)
    requires from <= |polys|
    ensures from <= k <= |polys|
    ensures k < |polys| ==> !Continuous(polys, claim, k)
    decreases |polys| - from
  {
    if from == |polys| then from
    else if !Continuous(polys, claim, from) then from
    else FirstBreak(polys, claim, from + 1)
  }

  /** Every round from `from` up to the first break passes the check. */
  lemma {:induction false} BeforeFirstBreak(polys: seq<Evals>, claim: Fr, from: nat, j: nat)
    requires from <= |polys| && from <= j < FirstBreak(polys, claim, from)
    ensures Continuous(polys, claim, j)
    decreases |polys| - from
  {
    if j > from {
      BeforeFirstBreak(polys, claim, from + 1, j);
    }
  }

  /** Rounds that pass the check can be skipped when looking for the first
      break. */
  lemma {:induction false} FirstBreakSkips(polys: seq<Evals>, claim: Fr, from: nat, k: nat)
    requires from <= k <= |polys|
    requires forall j :: from <= j < k ==> Continuous(polys, claim, j)
    ensures FirstBreak(polys, claim, from) == FirstBreak(polys, claim, k)
    decreases k - from
  {
    if from < k {
      FirstBreakSkips(polys, claim, from + 1, k);
    }
  }

  /** What `verify` makes of a transcript and a claim: the round-count check
      comes first, then the continuity check of each round in order, and only
      after the last round the comparison of the recomputed challenges with
      `rs`; an accepted transcript yields the last running claim. */
  function VerifyOutcome(proof: CubicSumcheckProof, claim: Fr): Result<Fr> {
    var polys := proof.roundPolys;
    if |proof.rs| != |polys| then Err(RoundCountMismatch)
    else if FirstBreak(polys, claim, 0) < |polys| then Err(ContinuityViolation(FirstBreak(polys, claim, 0)))
    else if Challenges(polys) != proof.rs then Err(ChallengeMismatch)
    else Ok(RunningClaim(polys, claim, |polys|))
  }

  /** `verify`: walks the rounds, checking continuity and recomputing each
      challenge, then compares the challenges with the transcript's. */
  method Verify(proof: CubicSumcheckProof, claim: Fr) returns (res: Result<Fr>)
    ensures res == VerifyOutcome(proof, claim)
  {
    var polys := proof.roundPolys;
    var numRounds := |polys|;
    if |proof.rs| != numRounds {
      return Err(RoundCountMismatch);
    }
    var prevClaim := claim;
    var vRs: seq<Fr> := [];
    for i := 0 to numRounds
      invariant prevClaim == RunningClaim(polys, claim, i)
      invariant vRs == Challenges(polys)[..i]
      invariant forall j :: 0 <= j < i ==> Continuous(polys, claim, j)
    {
      var roundPoly := polys[i];
      if Add(roundPoly.f0, roundPoly.f1) != prevClaim {
        FirstBreakSkips(polys, claim, 0, i);
        return Err(ContinuityViolation(i));
      }
      var r := FiatShamir(roundPoly);
      vRs := vRs + [r];
      prevClaim := EvalUni(roundPoly, r);
    }
    FirstBreakSkips(polys, claim, 0, numRounds);
    assert Challenges(polys)[..numRounds] == Challenges(polys);
    if vRs != proof.rs {
      return Err(ChallengeMismatch);
    }
    return Ok(prevClaim);
  }

  /** `verify` accepts exactly when the counts agree, every round passes the
      continuity check and every challenge is the Fiat-Shamir value of its
      round polynomial; it then returns the last running claim. */
  lemma VerifyAccepts(proof: CubicSumcheckProof, claim: Fr)
    ensures VerifyOutcome(proof, claim).Ok? <==>
      (|proof.rs| == |proof.roundPolys|
       && (forall i :: 0 <= i < |proof.roundPolys| ==> Continuous(proof.roundPolys, claim, i))
       && (forall i :: 0 <= i < |proof.rs| ==> proof.rs[i] == FiatShamir(proof.roundPolys[i])))
    ensures VerifyOutcome(proof, claim).Ok? ==>
      VerifyOutcome(proof, claim).value == RunningClaim(proof.roundPolys, claim, |proof.roundPolys|)
  {
    var polys := proof.roundPolys;
    if forall i :: 0 <= i < |polys| ==> Continuous(polys, claim, i) {
      FirstBreakSkips(polys, claim, 0, |polys|);
    } else if |proof.rs| == |polys| {
      var i :| 0 <= i < |polys| && !Continuous(polys, claim, i);
      if FirstBreak(polys, claim, 0) == |polys| {
        BeforeFirstBreak(polys, claim, 0, i);
      }
    }
    if |proof.rs| == |polys| && FirstBreak(polys, claim, 0) == |polys| && Challenges(polys) != proof.rs {
      var i :| 0 <= i < |polys| && Challenges(polys)[i] != proof.rs[i];
    }
  }

  /** A continuity rejection names the first round whose check fails: every
      earlier round passes. */
  lemma ContinuityRejectionIsFirst(proof: CubicSumcheckProof, claim: Fr, k: nat)
    requires VerifyOutcome(proof, claim) == Err(ContinuityViolation(k))
    ensures k < |proof.roundPolys| && !Continuous(proof.roundPolys, claim, k)
    ensures forall j :: 0 <= j < k ==> Continuous(proof.roundPolys, claim, j)
  {
    forall j | 0 <= j < k
      ensures Continuous(proof.roundPolys, claim, j)
    {
      BeforeFirstBreak(proof.roundPolys, claim, 0, j);
    }
  }

  /** A transcript whose rounds chain a sequence of claims is accepted:
      round i has `f0 + f1 == claims[i]`, its challenge is its Fiat-Shamir
      value, and its polynomial at that challenge is `claims[i + 1]`; then
      `verify`, started from the first claim, returns the last. */
  lemma AcceptsChainedClaims(proof: CubicSumcheckProof, claims: seq<Fr>)
    requires |proof.rs| == |proof.roundPolys| && |claims| == |proof.roundPolys| + 1
    requires forall i :: 0 <= i < |proof.roundPolys| ==>
      Add(proof.roundPolys[i].f0, proof.roundPolys[i].f1) == claims[i]
      && proof.rs[i] == FiatShamir(proof.roundPolys[i])
      && EvalUni(proof.roundPolys[i], proof.rs[i]) == claims[i + 1]
    ensures VerifyOutcome(proof, claims[0]) == Ok(claims[|claims| - 1])
  {
    var polys := proof.roundPolys;
    forall i | 0 <= i <= |polys|
      ensures RunningClaim(polys, claims[0], i) == claims[i]
    {
    }
    VerifyAccepts(proof, claims[0]);
  }
}
