/** What both CPU backends compute, stated on value tables: the round
    polynomial of a cubic sumcheck over `eq * a * b` (`eval_cubic_top`), the
    binding of all three tables at the challenge (`bind_top`), and the
    transcript the trait's `sumcheck_top` driver builds from them.

    The backends differ only in which variable a round removes: the plain
    backend pairs entries (2i, 2i + 1) and binds the bottom variable, the
    SIMD backend pairs entries (i, n + i) and binds the top variable. */
module CubicSumcheck {
  import opened Field
  import opened Outcomes
  import opened Lagrange
  import opened Multilinear
  import opened SumcheckProof

  /** Which variable a round removes. */
  datatype Pairing = Bottom | Top

  /** The three evaluation tables of the prover. */
  datatype Tables = Tables(eq: seq<Fr>, a: seq<Fr>, b: seq<Fr>)

  predicate SameLengths(t: Tables) {
    |t.a| == |t.eq| && |t.b| == |t.eq|
  }

  // ---------------------------------------------------------------------
  // One pair of entries

  /** The contribution of one pair of entries (low, high) of each table to
      the round polynomial: the product `eq * a * b` at low, at high, and on
      the lines through them at 2 and 3, reached by adding the slope
      `m = high - low` once and twice to high. */
  function PairEvals(eqL: Fr, eqH: Fr, aL: Fr, aH: Fr, bL: Fr, bH: Fr): Evals {
    var eqM, aM, bM := Sub(eqH, eqL), Sub(aH, aL), Sub(bH, bL);
    var eq2, a2, b2 := Add(eqH, eqM), Add(aH, aM), Add(bH, bM);
    var eq3, a3, b3 := Add(eq2, eqM), Add(a2, aM), Add(b2, bM);
    Evals(Mul(Mul(eqL, aL), bL), Mul(Mul(eqH, aH), bH), Mul(Mul(eq2, a2), b2), Mul(Mul(eq3, a3), b3))
  }

  /** The points at 0 and 1 of the line through (0, low) and (1, high). */
  lemma LineEnds(low: Fr, high: Fr)
    ensures Reduce(low + (high - low) * 0) == low
    ensures Reduce(low + (high - low) * 1) == high
  {
    assert low + (high - low) * 0 == low;
    assert low + (high - low) * 1 == high;
    ReduceOfElement(low);
    ReduceOfElement(high);
  }

  /** The points at 2 and 3 of the line through (0, low) and (1, high). */
  lemma LineExtrapolation(low: Fr, high: Fr)
    ensures Add(high, Sub(high, low)) == Reduce(low + (high - low) * 2)
    ensures Add(Add(high, Sub(high, low)), Sub(high, low)) == Reduce(low + (high - low) * 3)
  {
    ReduceOfElement(low);
    ReduceOfElement(high);
    SubOfResidues(high, low, high, low);
    AddOfResidues(high, Sub(high, low), high, high - low);
    AddOfResidues(Add(high, Sub(high, low)), Sub(high, low), high + (high - low), high - low);
  }

  /** Binding a pair at r is the point at r of the same line. */
  lemma BindPairOnLine(low: Fr, high: Fr, r: Fr)
    ensures BindPair(low, high, r) == Reduce(low + (high - low) * r)
  {
    ReduceOfElement(low);
    ReduceOfElement(high);
    ReduceOfElement(r);
    SubOfResidues(high, low, high, low);
    MulOfResidues(r, Sub(high, low), r, high - low);
    AddOfResidues(low, Mul(r, Sub(high, low)), low, r * (high - low));
  }

  lemma TripleOfResidues(x: Fr, y: Fr, z: Fr, xi: int, yi: int, zi: int)
    requires x == Reduce(xi) && y == Reduce(yi) && z == Reduce(zi)
    ensures Mul(Mul(x, y), z) == Reduce(xi * yi * zi)
  {
    MulOfResidues(x, y, xi, yi);
    MulOfResidues(Mul(x, y), z, xi * yi, zi);
  }

  /** The product of three line values, as residues of the integer
      product of lines. */
  lemma ProductOnLines(eqL: Fr, eqH: Fr, aL: Fr, aH: Fr, bL: Fr, bH: Fr, x: int, eqX: Fr, aX: Fr, bX: Fr)
    requires eqX == Reduce(eqL + (eqH - eqL) * x)
    requires aX == Reduce(aL + (aH - aL) * x)
    requires bX == Reduce(bL + (bH - bL) * x)
    ensures Mul(Mul(eqX, aX), bX) == Reduce(LineProduct(eqL, eqH - eqL, aL, aH - aL, bL, bH - bL, x))
  {
    TripleOfResidues(eqX, aX, bX, eqL + (eqH - eqL) * x, aL + (aH - aL) * x, bL + (bH - bL) * x);
  }

  /** The first two values of a pair are the product of the three lines at
      0 and at 1. */
  lemma PairEvalsAtEnds(eqL: Fr, eqH: Fr, aL: Fr, aH: Fr, bL: Fr, bH: Fr)
    ensures PairEvals(eqL, eqH, aL, aH, bL, bH).f0 == Reduce(LineProduct(eqL, eqH - eqL, aL, aH - aL, bL, bH - bL, 0))
    ensures PairEvals(eqL, eqH, aL, aH, bL, bH).f1 == Reduce(LineProduct(eqL, eqH - eqL, aL, aH - aL, bL, bH - bL, 1))
  {
    LineEnds(eqL, eqH);
    LineEnds(aL, aH);
    LineEnds(bL, bH);
    ProductOnLines(eqL, eqH, aL, aH, bL, bH, 0, eqL, aL, bL);
    ProductOnLines(eqL, eqH, aL, aH, bL, bH, 1, eqH, aH, bH);
  }

  /** The third value of a pair is the product of the three lines at 2. */
  lemma PairEvalsAtTwo(eqL: Fr, eqH: Fr, aL: Fr, aH: Fr, bL: Fr, bH: Fr)
    ensures PairEvals(eqL, eqH, aL, aH, bL, bH).f2 == Reduce(LineProduct(eqL, eqH - eqL, aL, aH - aL, bL, bH - bL, 2))
  {
    LineExtrapolation(eqL, eqH);
    LineExtrapolation(aL, aH);
    LineExtrapolation(bL, bH);
    ProductOnLines(eqL, eqH, aL, aH, bL, bH, 2, Add(eqH, Sub(eqH, eqL)), Add(aH, Sub(aH, aL)), Add(bH, Sub(bH, bL)));
  }

  /** The fourth value of a pair is the product of the three lines at 3. */
  lemma PairEvalsAtThree(eqL: Fr, eqH: Fr, aL: Fr, aH: Fr, bL: Fr, bH: Fr)
    ensures PairEvals(eqL, eqH, aL, aH, bL, bH).f3 == Reduce(LineProduct(eqL, eqH - eqL, aL, aH - aL, bL, bH - bL, 3))
  {
    var eq2, a2, b2 := Add(eqH, Sub(eqH, eqL)), Add(aH, Sub(aH, aL)), Add(bH, Sub(bH, bL));
    LineExtrapolation(eqL, eqH);
    LineExtrapolation(aL, aH);
    LineExtrapolation(bL, bH);
    ProductOnLines(eqL, eqH, aL, aH, bL, bH, 3, Add(eq2, Sub(eqH, eqL)), Add(a2, Sub(aH, aL)), Add(b2, Sub(bH, bL)));
  }

  /** Interpolating the residues of a product of three lines at the four
      nodes gives the residue of that product at r. */
  lemma InterpolateLineProduct(e: Evals, r: Fr, e0: int, e1: int, a0: int, a1: int, b0: int, b1: int)
    requires e == Evals(Reduce(LineProduct(e0, e1, a0, a1, b0, b1, 0)), Reduce(LineProduct(e0, e1, a0, a1, b0, b1, 1)),
                        Reduce(LineProduct(e0, e1, a0, a1, b0, b1, 2)), Reduce(LineProduct(e0, e1, a0, a1, b0, b1, 3)))
    ensures EvalUni(e, r) == Reduce(LineProduct(e0, e1, a0, a1, b0, b1, r))
  {
    CombinationOfLineProduct(e0, e1, a0, a1, b0, b1, r);
    SixthOfCombination(e, r, LineProduct(e0, e1, a0, a1, b0, b1, 0), LineProduct(e0, e1, a0, a1, b0, b1, 1),
                       LineProduct(e0, e1, a0, a1, b0, b1, 2), LineProduct(e0, e1, a0, a1, b0, b1, 3),
                       LineProduct(e0, e1, a0, a1, b0, b1, r));
  }

  /** Interpolating the four values of a pair at r gives the product of the
      three entries bound at r: the per-pair form of round consistency. */
  lemma PairEvalsInterpolate(eqL: Fr, eqH: Fr, aL: Fr, aH: Fr, bL: Fr, bH: Fr, r: Fr)
    ensures EvalUni(PairEvals(eqL, eqH, aL, aH, bL, bH), r)
         == Mul(Mul(BindPair(eqL, eqH, r), BindPair(aL, aH, r)), BindPair(bL, bH, r))
  {
    PairEvalsAtEnds(eqL, eqH, aL, aH, bL, bH);
    PairEvalsAtTwo(eqL, eqH, aL, aH, bL, bH);
    PairEvalsAtThree(eqL, eqH, aL, aH, bL, bH);
    InterpolateLineProduct(PairEvals(eqL, eqH, aL, aH, bL, bH), r, eqL, eqH - eqL, aL, aH - aL, bL, bH - bL);
    BindPairOnLine(eqL, eqH, r);
    BindPairOnLine(aL, aH, r);
    BindPairOnLine(bL, bH, r);
    ProductOnLines(eqL, eqH, aL, aH, bL, bH, r, BindPair(eqL, eqH, r), BindPair(aL, aH, r), BindPair(bL, bH, r));
  }

  // ---------------------------------------------------------------------
  // A round over whole tables

  /** The four values contributed by pair i: entries (2i, 2i + 1) for the
      bottom pairing, entries (i, n + i) with n = |eq| / 2 for the top one. */
  function PairTerm(p: Pairing, t: Tables, i: nat): Evals
    requires SameLengths(t) && i < |t.eq| / 2
  {
    var n := |t.eq| / 2;
    match p
    case Bottom => PairEvals(t.eq[2 * i], t.eq[2 * i + 1], t.a[2 * i], t.a[2 * i + 1], t.b[2 * i], t.b[2 * i + 1])
    case Top => PairEvals(t.eq[i], t.eq[n + i], t.a[i], t.a[n + i], t.b[i], t.b[n + i])
  }

  function PairTerms(p: Pairing, t: Tables): (s: seq<Evals>)
    requires SameLengths(t)
    ensures |s| == |t.eq| / 2
  {
    seq(|t.eq| / 2, i requires 0 <= i < |t.eq| / 2 => PairTerm(p, t, i))
  }

  /** The componentwise sum of a sequence of evaluation tuples, from the
      zero tuple. */
  function SumEvals(s: seq<Evals>): Evals {
    if |s| == 0 then ZeroEvals else AddEvals(SumEvals(s[..|s| - 1]), s[|s| - 1])
  }

  lemma AddEvalsAssoc(u: Evals, v: Evals, w: Evals)
    ensures AddEvals(AddEvals(u, v), w) == AddEvals(u, AddEvals(v, w))
  {
    AddAssoc(u.f0, v.f0, w.f0);
    AddAssoc(u.f1, v.f1, w.f1);
    AddAssoc(u.f2, v.f2, w.f2);
    AddAssoc(u.f3, v.f3, w.f3);
  }

  /** Partial sums over consecutive parts add up to the whole sum, so a
      reduction over any partition into chunks gives the unchunked sum. */
  lemma {:induction false} SumEvalsAppend(s: seq<Evals>, t: seq<Evals>)
    ensures SumEvals(s + t) == AddEvals(SumEvals(s), SumEvals(t))
  {
    if |t| == 0 {
      assert s + t == s;
      AddZero(SumEvals(s).f0);
      AddZero(SumEvals(s).f1);
      AddZero(SumEvals(s).f2);
      AddZero(SumEvals(s).f3);
    } else {
      var t' := t[..|t| - 1];
      assert (s + t)[..|s + t| - 1] == s + t';
      SumEvalsAppend(s, t');
      AddEvalsAssoc(SumEvals(s), SumEvals(t'), t[|t| - 1]);
    }
  }

  /** The round polynomial `(f0, f1, f2, f3)` of tables with equal lengths. */
  function RoundEvals(p: Pairing, t: Tables): Evals
    requires SameLengths(t)
  {
    SumEvals(PairTerms(p, t))
  }

  function Bind(p: Pairing, z: seq<Fr>, r: Fr): seq<Fr> {
    match p
    case Bottom => BindBot(z, r)
    case Top => BindTop(z, r)
  }

  /** `bind_top` on value tables: the same variable of all three tables is
      fixed to r. */
  function BindTables(p: Pairing, t: Tables, r: Fr): (u: Tables)
    ensures SameLengths(t) ==> SameLengths(u) && |u.eq| == |t.eq| / 2
  {
    Tables(Bind(p, t.eq, r), Bind(p, t.a, r), Bind(p, t.b, r))
  }

  /** The entrywise products `eq[i] * a[i] * b[i]`. */
  function Products(t: Tables): (s: seq<Fr>)
    requires SameLengths(t)
    ensures |s| == |t.eq|
  {
    seq(|t.eq|, i requires 0 <= i < |t.eq| => Mul(Mul(t.eq[i], t.a[i]), t.b[i]))
  }

  /** The claim a sumcheck over the tables proves: the sum over the
      hypercube of `eq * a * b`. */
  function SumProducts(t: Tables): Fr
    requires SameLengths(t)
  {
    Sum(Products(t))
  }

  // ---------------------------------------------------------------------
  // Round consistency

  /** The values at r of a sequence of round polynomials. */
  function ValuesAt(s: seq<Evals>, r: Fr): (v: seq<Fr>)
    ensures |v| == |s|
  {
    seq(|s|, i requires 0 <= i < |s| => EvalUni(s[i], r))
  }

  /** Interpolation is linear: the value at r of a sum of round polynomials
      is the sum of their values at r. */
  lemma {:induction false} EvalUniOfSum(s: seq<Evals>, r: Fr)
    ensures EvalUni(SumEvals(s), r) == Sum(ValuesAt(s, r))
  {
    if |s| == 0 {
      EvalUniOfZero(r);
    } else {
      var s' := s[..|s| - 1];
      EvalUniOfSum(s', r);
      assert ValuesAt(s, r)[..|s| - 1] == ValuesAt(s', r);
      EvalUniAdditive(SumEvals(s'), s[|s| - 1], r);
    }
  }

  /** Round consistency for a single pair: its round polynomial at r is
      entry i of the products of the bound tables. */
  lemma PairTermInterpolates(p: Pairing, t: Tables, r: Fr, i: nat)
    requires SameLengths(t) && i < |t.eq| / 2
    ensures EvalUni(PairTerm(p, t, i), r) == Products(BindTables(p, t, r))[i]
  {
    var n := |t.eq| / 2;
    match p
    case Bottom =>
      assert BindTables(p, t, r).eq[i] == BindPair(t.eq[2 * i], t.eq[2 * i + 1], r);
      assert BindTables(p, t, r).a[i] == BindPair(t.a[2 * i], t.a[2 * i + 1], r);
      assert BindTables(p, t, r).b[i] == BindPair(t.b[2 * i], t.b[2 * i + 1], r);
      PairEvalsInterpolate(t.eq[2 * i], t.eq[2 * i + 1], t.a[2 * i], t.a[2 * i + 1], t.b[2 * i], t.b[2 * i + 1], r);
    case Top =>
      assert BindTables(p, t, r).eq[i] == BindPair(t.eq[i], t.eq[n + i], r);
      assert BindTables(p, t, r).a[i] == BindPair(t.a[i], t.a[n + i], r);
      assert BindTables(p, t, r).b[i] == BindPair(t.b[i], t.b[n + i], r);
      PairEvalsInterpolate(t.eq[i], t.eq[n + i], t.a[i], t.a[n + i], t.b[i], t.b[n + i], r);
  }

  /** Round consistency: the round polynomial, evaluated at any r, is the
      sum of `eq * a * b` over the tables bound at r. */
  lemma RoundConsistency(p: Pairing, t: Tables, r: Fr)
    requires SameLengths(t)
    ensures EvalUni(RoundEvals(p, t), r) == SumProducts(BindTables(p, t, r))
  {
    var terms := PairTerms(p, t);
    EvalUniOfSum(terms, r);
    var u := BindTables(p, t, r);
    forall i | 0 <= i < |terms|
      ensures ValuesAt(terms, r)[i] == Products(u)[i]
    {
      PairTermInterpolates(p, t, r, i);
    }
    assert ValuesAt(terms, r) == Products(u);
  }

  // ---------------------------------------------------------------------
  // Continuity: f0 + f1 is the current claim

  /** The sum of the even-indexed entries plus the sum of the odd-indexed
      ones is the sum of all entries. */
  lemma {:induction false} SumEvensOdds(s: seq<Fr>)
    requires |s| % 2 == 0
    ensures Add(Sum(Evens(s)), Sum(Odds(s))) == Sum(s)
  {
    if |s| > 0 {
      var s' := s[..|s| - 2];
      var x, y := s[|s| - 2], s[|s| - 1];
      SumEvensOdds(s');
      assert Evens(s) == Evens(s') + [x];
      assert Odds(s) == Odds(s') + [y];
      assert s[..|s| - 1] == s' + [x];
      assert (s' + [x])[..|s'|] == s';
      AddSwapMiddle(Sum(Evens(s')), x, Sum(Odds(s')), y);
      AddAssoc(Sum(s'), x, y);
    }
  }

  /** Bound at 0 and at 1 by the bottom pairing, the tables have the even
      and the odd entries of the products. */
  lemma ProductsAtEndsBottom(t: Tables)
    requires SameLengths(t)
    ensures Products(BindTables(Bottom, t, 0)) == Evens(Products(t))
    ensures Products(BindTables(Bottom, t, 1)) == Odds(Products(t))
  {
    BindBotAtEnds(t.eq);
    BindBotAtEnds(t.a);
    BindBotAtEnds(t.b);
    var u0, u1 := BindTables(Bottom, t, 0), BindTables(Bottom, t, 1);
    assert u0 == Tables(Evens(t.eq), Evens(t.a), Evens(t.b));
    assert u1 == Tables(Odds(t.eq), Odds(t.a), Odds(t.b));
  }

  /** Bound at 0 and at 1 by the top pairing, the tables have the two halves
      of the products. */
  lemma ProductsAtEndsTop(t: Tables)
    requires SameLengths(t)
    ensures Products(BindTables(Top, t, 0)) == Products(t)[..|t.eq| / 2]
    ensures Products(BindTables(Top, t, 1)) == Products(t)[|t.eq| / 2..2 * (|t.eq| / 2)]
  {
    BindTopAtEnds(t.eq);
    BindTopAtEnds(t.a);
    BindTopAtEnds(t.b);
    var n := |t.eq| / 2;
    var u0, u1 := BindTables(Top, t, 0), BindTables(Top, t, 1);
    assert u0 == Tables(t.eq[..n], t.a[..n], t.b[..n]);
    assert u1 == Tables(t.eq[n..2 * n], t.a[n..2 * n], t.b[n..2 * n]);
  }

  /** The first two values of the round polynomial are partial sums of
      `eq * a * b`: over the even and the odd entries for the bottom
      pairing, over the low and the high half for the top pairing. */
  lemma RoundEvalsAtEnds(t: Tables)
    requires SameLengths(t)
    ensures RoundEvals(Bottom, t).f0 == Sum(Evens(Products(t)))
    ensures RoundEvals(Bottom, t).f1 == Sum(Odds(Products(t)))
    ensures RoundEvals(Top, t).f0 == Sum(Products(t)[..|t.eq| / 2])
    ensures RoundEvals(Top, t).f1 == Sum(Products(t)[|t.eq| / 2..2 * (|t.eq| / 2)])
  {
    EvalUniAtZero(RoundEvals(Bottom, t));
    EvalUniAtOne(RoundEvals(Bottom, t));
    EvalUniAtZero(RoundEvals(Top, t));
    EvalUniAtOne(RoundEvals(Top, t));
    RoundConsistency(Bottom, t, 0);
    RoundConsistency(Bottom, t, 1);
    RoundConsistency(Top, t, 0);
    RoundConsistency(Top, t, 1);
    ProductsAtEndsBottom(t);
    ProductsAtEndsTop(t);
  }

  /** For tables of even length, the round polynomial's `f0 + f1` is the sum
      of `eq * a * b` over the tables: the check `verify` makes of it. */
  lemma RoundSumsToClaim(p: Pairing, t: Tables)
    requires SameLengths(t) && |t.eq| % 2 == 0
    ensures Add(RoundEvals(p, t).f0, RoundEvals(p, t).f1) == SumProducts(t)
  {
    var e := RoundEvals(p, t);
    EvalUniAtZero(e);
    EvalUniAtOne(e);
    RoundConsistency(p, t, 0);
    RoundConsistency(p, t, 1);
    var s := Products(t);
    match p
    case Bottom =>
      ProductsAtEndsBottom(t);
      SumEvensOdds(s);
    case Top =>
      ProductsAtEndsTop(t);
      assert s == s[..|s| / 2] + s[|s| / 2..2 * (|s| / 2)];
      SumAppend(s[..|s| / 2], s[|s| / 2..2 * (|s| / 2)]);
  }

  // ---------------------------------------------------------------------
  // The prover driver `sumcheck_top`

  /** One honest round: `e` is the round polynomial of tables `u`, `r` its
      Fiat-Shamir challenge, and `next` the tables bound at `r`. */
  predicate HonestRound(p: Pairing, u: Tables, e: Evals, r: Fr, next: Tables) {
    SameLengths(u) && e == RoundEvals(p, u) && r == FiatShamir(e) && next == BindTables(p, u, r)
  }

  /** `proof` is what `sumcheck_top` builds from `ts[0]`: `ts[i]` are the
      tables before round i and after the last round, and each round
      appends its polynomial and challenge and binds at that challenge. */
  predicate HonestRun(p: Pairing, ts: seq<Tables>, proof: CubicSumcheckProof) {
    |ts| == |proof.roundPolys| + 1 && |proof.rs| == |proof.roundPolys|
    && forall i :: 0 <= i < |proof.roundPolys| ==>
         HonestRound(p, ts[i], proof.roundPolys[i], proof.rs[i], ts[i + 1])
  }

  /** The round polynomial of a run that goes on: the round polynomials and
      challenges grow by one entry each, the tables by the bound ones. */
  lemma HonestRunExtends(p: Pairing, ts: seq<Tables>, proof: CubicSumcheckProof, e: Evals, r: Fr, next: Tables)
    requires HonestRun(p, ts, proof) && HonestRound(p, ts[|ts| - 1], e, r, next)
    ensures HonestRun(p, ts + [next], CubicSumcheckProof(proof.roundPolys + [e], proof.rs + [r]))
  {
    var ts', proof' := ts + [next], CubicSumcheckProof(proof.roundPolys + [e], proof.rs + [r]);
    forall i | 0 <= i < |proof'.roundPolys|
      ensures HonestRound(p, ts'[i], proof'.roundPolys[i], proof'.rs[i], ts'[i + 1])
    {
      if i < |proof.roundPolys| {
        assert ts'[i] == ts[i] && ts'[i + 1] == ts[i + 1];
        assert proof'.roundPolys[i] == proof.roundPolys[i] && proof'.rs[i] == proof.rs[i];
      }
    }
  }

  /** Dropping the last round of an honest run leaves an honest run. */
  lemma HonestRunPrefix(p: Pairing, ts: seq<Tables>, proof: CubicSumcheckProof)
    requires HonestRun(p, ts, proof) && |proof.roundPolys| > 0
    ensures var k := |proof.roundPolys|;
            HonestRun(p, ts[..k], CubicSumcheckProof(proof.roundPolys[..k - 1], proof.rs[..k - 1]))
  {
    var k := |proof.roundPolys|;
    var pre := CubicSumcheckProof(proof.roundPolys[..k - 1], proof.rs[..k - 1]);
    forall i | 0 <= i < k - 1
      ensures HonestRound(p, ts[..k][i], pre.roundPolys[i], pre.rs[i], ts[..k][i + 1])
    {
      assert HonestRound(p, ts[i], proof.roundPolys[i], proof.rs[i], ts[i + 1]);
    }
  }

  /** An honest run is determined by its starting tables and its number of
      rounds. */
  lemma {:induction false} HonestRunUnique(p: Pairing, ts: seq<Tables>, proof: CubicSumcheckProof,
                                           ts': seq<Tables>, proof': CubicSumcheckProof)
    requires HonestRun(p, ts, proof) && HonestRun(p, ts', proof')
    requires ts[0] == ts'[0] && |proof.roundPolys| == |proof'.roundPolys|
    ensures ts == ts' && proof == proof'
    decreases |proof.roundPolys|
  {
    var k := |proof.roundPolys|;
    if k > 0 {
      var pre, pre' := CubicSumcheckProof(proof.roundPolys[..k - 1], proof.rs[..k - 1]),
                       CubicSumcheckProof(proof'.roundPolys[..k - 1], proof'.rs[..k - 1]);
      HonestRunPrefix(p, ts, proof);
      HonestRunPrefix(p, ts', proof');
      HonestRunUnique(p, ts[..k], pre, ts'[..k], pre');
      assert ts[k - 1] == ts'[k - 1] by { assert ts[k - 1] == ts[..k][k - 1] && ts'[k - 1] == ts'[..k][k - 1]; }
      assert HonestRound(p, ts[k - 1], proof.roundPolys[k - 1], proof.rs[k - 1], ts[k]);
      assert HonestRound(p, ts'[k - 1], proof'.roundPolys[k - 1], proof'.rs[k - 1], ts'[k]);
      assert ts == ts[..k] + [ts[k]] && ts' == ts'[..k] + [ts'[k]];
      assert proof.roundPolys == pre.roundPolys + [proof.roundPolys[k - 1]];
      assert proof'.roundPolys == pre'.roundPolys + [proof'.roundPolys[k - 1]];
      assert proof.rs == pre.rs + [proof.rs[k - 1]];
      assert proof'.rs == pre'.rs + [proof'.rs[k - 1]];
    }
  }

  /** Each round halves the tables: from length 2^m, the tables before
      round i <= m have length 2^(m - i). */
  lemma {:induction false} HonestRunLengths(p: Pairing, ts: seq<Tables>, proof: CubicSumcheckProof, m: nat, i: nat)
    requires HonestRun(p, ts, proof) && |ts[0].eq| == Pow2(m)
    requires i < |ts| && i <= m
    ensures |ts[i].eq| == Pow2(m - i)
  {
    if i > 0 {
      HonestRunLengths(p, ts, proof, m, i - 1);
      assert HonestRound(p, ts[i - 1], proof.roundPolys[i - 1], proof.rs[i - 1], ts[i]);
      assert Pow2(m - (i - 1)) == 2 * Pow2(m - i);
    }
  }

  /** An honest round on tables of even length passes the verifier's
      continuity check for the true sum over `u` and hands on the true sum
      over the bound tables. */
  lemma HonestRoundChains(p: Pairing, u: Tables, e: Evals, r: Fr, next: Tables)
    requires HonestRound(p, u, e, r, next) && |u.eq| % 2 == 0
    ensures SameLengths(next)
    ensures Add(e.f0, e.f1) == SumProducts(u)
    ensures EvalUni(e, r) == SumProducts(next)
  {
    RoundSumsToClaim(p, u);
    RoundConsistency(p, u, r);
  }

  /** Honest-prover completeness: on tables of equal power-of-two length
      2^m, the transcript of k <= m honest rounds passes `verify` with the
      true sum as the claim, and `verify` returns the true sum over the
      tables left after the k rounds. */
  lemma HonestProverCompleteness(p: Pairing, ts: seq<Tables>, proof: CubicSumcheckProof, m: nat)
    requires HonestRun(p, ts, proof) && SameLengths(ts[0]) && |ts[0].eq| == Pow2(m)
    requires |proof.roundPolys| <= m
    ensures SameLengths(ts[|ts| - 1])
    ensures VerifyOutcome(proof, SumProducts(ts[0])) == Ok(SumProducts(ts[|ts| - 1]))
  {
    var k := |proof.roundPolys|;
    if k > 0 {
      assert HonestRound(p, ts[k - 1], proof.roundPolys[k - 1], proof.rs[k - 1], ts[k]);
    }
    var claims := seq(k + 1, i requires 0 <= i <= k => if SameLengths(ts[i]) then SumProducts(ts[i]) else 0);
    forall i | 0 <= i < k
      ensures Add(proof.roundPolys[i].f0, proof.roundPolys[i].f1) == claims[i]
      ensures EvalUni(proof.roundPolys[i], proof.rs[i]) == claims[i + 1]
      ensures proof.rs[i] == FiatShamir(proof.roundPolys[i])
    {
      HonestRunChains(p, ts, proof, m, i);
    }
    AcceptsChainedClaims(proof, claims);
  }

  /** A positive power of two is even. */
  lemma Pow2IsEven(k: nat)
    requires k >= 1
    ensures Pow2(k) % 2 == 0
  {
  }

  /** Round i of an honest run on tables of length 2^m, i < m, hands the
      true sum over `ts[i]` on to the true sum over `ts[i + 1]`. */
  lemma HonestRunChains(p: Pairing, ts: seq<Tables>, proof: CubicSumcheckProof, m: nat, i: nat)
    requires HonestRun(p, ts, proof) && |ts[0].eq| == Pow2(m)
    requires i < |proof.roundPolys| <= m
    ensures SameLengths(ts[i]) && SameLengths(ts[i + 1])
    ensures Add(proof.roundPolys[i].f0, proof.roundPolys[i].f1) == SumProducts(ts[i])
    ensures EvalUni(proof.roundPolys[i], proof.rs[i]) == SumProducts(ts[i + 1])
    ensures proof.rs[i] == FiatShamir(proof.roundPolys[i])
  {
    HonestRunLengths(p, ts, proof, m, i);
    Pow2IsEven(m - i);
    assert HonestRound(p, ts[i], proof.roundPolys[i], proof.rs[i], ts[i + 1]);
    HonestRoundChains(p, ts[i], proof.roundPolys[i], proof.rs[i], ts[i + 1]);
  }

  /** With at least one round, an honest transcript is accepted for the true
      sum and for no other claim: any other claim fails the continuity check
      of round 0. */
  lemma OnlyTheTrueClaimPasses(p: Pairing, ts: seq<Tables>, proof: CubicSumcheckProof, m: nat, claim: Fr)
    requires HonestRun(p, ts, proof) && SameLengths(ts[0]) && |ts[0].eq| == Pow2(m)
    requires 0 < |proof.roundPolys| <= m
    ensures VerifyOutcome(proof, claim).Ok? <==> claim == SumProducts(ts[0])
    ensures claim != SumProducts(ts[0]) ==> VerifyOutcome(proof, claim) == Err(ContinuityViolation(0))
  {
    if claim == SumProducts(ts[0]) {
      HonestProverCompleteness(p, ts, proof, m);
    } else {
      HonestRunChains(p, ts, proof, m, 0);
      assert !Continuous(proof.roundPolys, claim, 0);
    }
  }
}
