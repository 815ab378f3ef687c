/** The SIMD CPU backend (`SIMDSumcheck`): tables processed in chunks with
    element-wise vector operations, a round evaluation over the pairs
    (i, n + i), and binding of the top variable.

    Only the element-wise meaning of the vector operations is modelled:
    `sub`, `add` and `mul` act entry by entry and `inner_product` is the sum
    of the entrywise products, each over the length of the low-half chunk.
    The chunks are processed one after another; the scheduler's order does
    not matter because chunks touch disjoint entries and the partial sums
    are combined by field addition (SumEvalsAppend). */
module SimdBackend {
  import opened Field
  import opened Outcomes
  import opened Multilinear
  import opened SumcheckProof
  import opened CubicSumcheck

  // ---------------------------------------------------------------------
  // Element-wise vector operations

  function SubVec(x: seq<Fr>, y: seq<Fr>): (z: seq<Fr>)
    requires |x| == |y|
    ensures |z| == |x|
  {
    seq(|x|, i requires 0 <= i < |x| => Sub(x[i], y[i]))
  }

  function AddVec(x: seq<Fr>, y: seq<Fr>): (z: seq<Fr>)
    requires |x| == |y|
    ensures |z| == |x|
  {
    seq(|x|, i requires 0 <= i < |x| => Add(x[i], y[i]))
  }

  function MulVec(x: seq<Fr>, y: seq<Fr>): (z: seq<Fr>)
    requires |x| == |y|
    ensures |z| == |x|
  {
    seq(|x|, i requires 0 <= i < |x| => Mul(x[i], y[i]))
  }

  function InnerProduct(x: seq<Fr>, y: seq<Fr>): Fr
    requires |x| == |y|
  {
    Sum(MulVec(x, y))
  }

  /** `sub_vec_inplace` on a range of one vector: the `size` entries from
      `dst` have the entries from `src` subtracted. */
  function SubRange(s: seq<Fr>, dst: nat, src: nat, size: nat): (t: seq<Fr>)
    requires dst + size <= |s| && src + size <= |s|
    ensures |t| == |s|
  {
    seq(|s|, j requires 0 <= j < |s| =>
      if dst <= j < dst + size then Sub(s[j], s[j - dst + src]) else s[j])
  }

  /** `add_vec_inplace` on a range of one vector. */
  function AddRange(s: seq<Fr>, dst: nat, src: nat, size: nat): (t: seq<Fr>)
    requires dst + size <= |s| && src + size <= |s|
    ensures |t| == |s|
  {
    seq(|s|, j requires 0 <= j < |s| =>
      if dst <= j < dst + size then Add(s[j], s[j - dst + src]) else s[j])
  }

  /** `mul_vec_inplace` on a range of one vector: the |v| entries from `dst`
      are multiplied by the entries of v. */
  function MulRange(s: seq<Fr>, dst: nat, v: seq<Fr>): (t: seq<Fr>)
    requires dst + |v| <= |s|
    ensures |t| == |s|
  {
    seq(|s|, j requires 0 <= j < |s| =>
      if dst <= j < dst + |v| then Mul(s[j], v[j - dst]) else s[j])
  }

  /** The chunk length: `n / threads / divisor + 2`, at most 512, where
      `threads` is the size of the thread pool. It is never below 2, so the
      chunked loops always make progress. */
  function ChunkSize(n: nat, threads: nat, divisor: nat): (size: nat)
    requires threads >= 1 && divisor >= 1
    ensures 2 <= size <= 512
    ensures n / threads / divisor + 2 <= 512 ==> size == n / threads / divisor + 2
  {
    var c := n / threads / divisor + 2;
    if c < 512 then c else 512
  }

  /** The new low entry of a pair after the three vector passes of the top
      bind, `low + (high - low) * r`, is the bound value. */
  lemma ChunkBindEntry(low: Fr, high: Fr, r: Fr)
    ensures Add(low, Mul(Sub(high, low), r)) == BindPair(low, high, r)
  {
    MulComm(Sub(high, low), r);
  }

  /** The table after the top bind has run over the first `done` pairs:
      those left entries are bound, their right partners hold
      `(high - low) * r`, and every other entry is as it was. */
  function PartialBind(s: seq<Fr>, n: nat, done: nat, r: Fr): (t: seq<Fr>)
    requires done <= n && 2 * n <= |s|
    ensures |t| == |s|
  {
    seq(|s|, j requires 0 <= j < |s| =>
      if j < done then BindPair(s[j], s[n + j], r)
      else if n <= j < n + done then Mul(Sub(s[j], s[j - n]), r)
      else s[j])
  }

  /** The table after one chunk of the top bind, with multipliers rv, on
      the pairs (start + k, n + start + k): each right entry becomes
      `(high - low) * rv[k]`, each left entry has that added, and every other
      entry is left alone. */
  function ChunkStep(t: seq<Fr>, n: nat, start: nat, rv: seq<Fr>): (u: seq<Fr>)
    requires start + |rv| <= n && 2 * n <= |t|
    ensures |u| == |t|
  {
    seq(|t|, j requires 0 <= j < |t| =>
      if start <= j < start + |rv| then Add(t[j], Mul(Sub(t[n + j], t[j]), rv[j - start]))
      else if n + start <= j < n + start + |rv| then Mul(Sub(t[j], t[j - n]), rv[j - n - start])
      else t[j])
  }

  /** The three vector passes of a chunk, as a function of the table. */
  function ChunkPassed(t: seq<Fr>, n: nat, start: nat, rv: seq<Fr>): (u: seq<Fr>)
    requires start + |rv| <= n && 2 * n <= |t|
    ensures |u| == |t|
  {
    AddRange(MulRange(SubRange(t, n + start, start, |rv|), n + start, rv), start, n + start, |rv|)
  }

  /** A left entry of the chunk gains rv times the difference of its pair. */
  lemma ChunkPassesLeft(t: seq<Fr>, n: nat, start: nat, rv: seq<Fr>, j: nat)
    requires start + |rv| <= n && 2 * n <= |t| && start <= j < start + |rv|
    ensures ChunkPassed(t, n, start, rv)[j] == Add(t[j], Mul(Sub(t[n + j], t[j]), rv[j - start]))
            == ChunkStep(t, n, start, rv)[j]
  {
    var a := SubRange(t, n + start, start, |rv|);
    var b := MulRange(a, n + start, rv);
    var d := Sub(t[n + j], t[j]);
    assert a[n + j] == d;
    assert b[n + j] == Mul(d, rv[j - start]);
    assert b[j] == t[j] by {
      assert a[j] == t[j];
    }
    assert ChunkPassed(t, n, start, rv)[j] == Add(b[j], b[n + j]);
  }

  /** A right entry of the chunk becomes rv times the difference of its
      pair. */
  lemma ChunkPassesRight(t: seq<Fr>, n: nat, start: nat, rv: seq<Fr>, j: nat)
    requires start + |rv| <= n && 2 * n <= |t| && n + start <= j < n + start + |rv|
    ensures ChunkPassed(t, n, start, rv)[j] == Mul(Sub(t[j], t[j - n]), rv[j - n - start])
            == ChunkStep(t, n, start, rv)[j]
  {
    var a := SubRange(t, n + start, start, |rv|);
    var b := MulRange(a, n + start, rv);
    assert a[j] == Sub(t[j], t[j - n]);
    assert b[j] == Mul(a[j], rv[j - n - start]);
  }

  /** An entry outside the chunk is left alone. */
  lemma ChunkPassesOutside(t: seq<Fr>, n: nat, start: nat, rv: seq<Fr>, j: nat)
    requires start + |rv| <= n && 2 * n <= |t| && j < |t|
    requires !(start <= j < start + |rv|) && !(n + start <= j < n + start + |rv|)
    ensures ChunkPassed(t, n, start, rv)[j] == t[j] == ChunkStep(t, n, start, rv)[j]
  {
    var a := SubRange(t, n + start, start, |rv|);
    var b := MulRange(a, n + start, rv);
    assert a[j] == t[j];
    assert b[j] == t[j];
  }

  /** The three vector passes of a chunk, subtract the left chunk from the
      right chunk, multiply the right chunk by rv, add the right chunk to the
      left chunk, make up one `ChunkStep`. */
  lemma ChunkPasses(t: seq<Fr>, n: nat, start: nat, rv: seq<Fr>)
    requires start + |rv| <= n && 2 * n <= |t|
    ensures AddRange(MulRange(SubRange(t, n + start, start, |rv|), n + start, rv), start, n + start, |rv|)
            == ChunkStep(t, n, start, rv)
  {
    forall j | 0 <= j < |t|
      ensures ChunkPassed(t, n, start, rv)[j] == ChunkStep(t, n, start, rv)[j]
    {
      ChunkPassesAt(t, n, start, rv, j);
    }
  }

  /** Entry j of the three passes is entry j of `ChunkStep`. */
  lemma ChunkPassesAt(t: seq<Fr>, n: nat, start: nat, rv: seq<Fr>, j: nat)
    requires start + |rv| <= n && 2 * n <= |t| && j < |t|
    ensures ChunkPassed(t, n, start, rv)[j] == ChunkStep(t, n, start, rv)[j]
  {
    if start <= j < start + |rv| {
      ChunkPassesLeft(t, n, start, rv, j);
    } else if n + start <= j < n + start + |rv| {
      ChunkPassesRight(t, n, start, rv, j);
    } else {
      ChunkPassesOutside(t, n, start, rv, j);
    }
  }

  /** A chunk with every multiplier r, done after the first `start` pairs,
      extends the bound prefix by its size. */
  lemma ChunkAdvances(s: seq<Fr>, n: nat, start: nat, rv: seq<Fr>, r: Fr)
    requires start + |rv| <= n && 2 * n <= |s|
    requires forall k :: 0 <= k < |rv| ==> rv[k] == r
    ensures ChunkStep(PartialBind(s, n, start, r), n, start, rv) == PartialBind(s, n, start + |rv|, r)
  {
    forall j | start <= j < start + |rv|
      ensures Add(s[j], Mul(Sub(s[n + j], s[j]), r)) == BindPair(s[j], s[n + j], r)
    {
      ChunkBindEntry(s[j], s[n + j], r);
    }
  }

  /** When every pair is done, the left half is the bound table. */
  lemma PartialBindComplete(s: seq<Fr>, r: Fr)
    ensures PartialBind(s, |s| / 2, |s| / 2, r)[..|s| / 2] == BindTop(s, r)
  {
  }

  // ---------------------------------------------------------------------
  // One chunk of eval_cubic_top

  /** Component k of every tuple of a sequence. */
  function Component(s: seq<Evals>, k: nat): (c: seq<Fr>)
    requires k < 4
    ensures |c| == |s|
  {
    seq(|s|, i requires 0 <= i < |s| => s[i].At(k))
  }

  /** The componentwise sum of tuples is the tuple of the component sums,
      so four inner products give the sum of a chunk's tuples. */
  lemma {:induction false} SumEvalsComponents(s: seq<Evals>)
    ensures SumEvals(s) == Evals(Sum(Component(s, 0)), Sum(Component(s, 1)), Sum(Component(s, 2)), Sum(Component(s, 3)))
  {
    if |s| > 0 {
      var s' := s[..|s| - 1];
      SumEvalsComponents(s');
      assert Component(s, 0)[..|s| - 1] == Component(s', 0);
      assert Component(s, 1)[..|s| - 1] == Component(s', 1);
      assert Component(s, 2)[..|s| - 1] == Component(s', 2);
      assert Component(s, 3)[..|s| - 1] == Component(s', 3);
    }
  }

  /** The contributions of the pairs of one chunk, given its six slices. */
  function ChunkTerms(eqL: seq<Fr>, eqH: seq<Fr>, aL: seq<Fr>, aH: seq<Fr>, bL: seq<Fr>, bH: seq<Fr>): (s: seq<Evals>)
    requires |eqH| == |eqL| && |aL| == |eqL| && |aH| == |eqL| && |bL| == |eqL| && |bH| == |eqL|
    ensures |s| == |eqL|
  {
    seq(|eqL|, k requires 0 <= k < |eqL| => PairEvals(eqL[k], eqH[k], aL[k], aH[k], bL[k], bH[k]))
  }

  /** The vector computation of one chunk, inner products of entrywise
      products of the low slices, the high slices, and the slices moved on
      by the slope once and twice, is the sum of the chunk's pair
      contributions. */
  lemma ChunkSum(eqL: seq<Fr>, eqH: seq<Fr>, aL: seq<Fr>, aH: seq<Fr>, bL: seq<Fr>, bH: seq<Fr>)
    requires |eqH| == |eqL| && |aL| == |eqL| && |aH| == |eqL| && |bL| == |eqL| && |bH| == |eqL|
    ensures
      var eqM, aM, bM := SubVec(eqH, eqL), SubVec(aH, aL), SubVec(bH, bL);
      var eq2, a2, b2 := AddVec(eqH, eqM), AddVec(aH, aM), AddVec(bH, bM);
      var eq3, a3, b3 := AddVec(eq2, eqM), AddVec(a2, aM), AddVec(b2, bM);
      SumEvals(ChunkTerms(eqL, eqH, aL, aH, bL, bH))
      == Evals(InnerProduct(MulVec(eqL, aL), bL), InnerProduct(MulVec(eqH, aH), bH),
               InnerProduct(MulVec(eq2, a2), b2), InnerProduct(MulVec(eq3, a3), b3))
  {
    var s := ChunkTerms(eqL, eqH, aL, aH, bL, bH);
    var eqM, aM, bM := SubVec(eqH, eqL), SubVec(aH, aL), SubVec(bH, bL);
    var eq2, a2, b2 := AddVec(eqH, eqM), AddVec(aH, aM), AddVec(bH, bM);
    var eq3, a3, b3 := AddVec(eq2, eqM), AddVec(a2, aM), AddVec(b2, bM);
    SumEvalsComponents(s);
    assert Component(s, 0) == MulVec(MulVec(eqL, aL), bL);
    assert Component(s, 1) == MulVec(MulVec(eqH, aH), bH);
    assert Component(s, 2) == MulVec(MulVec(eq2, a2), b2);
    assert Component(s, 3) == MulVec(MulVec(eq3, a3), b3);
  }

  /** The chunk from `start` of the low halves and the high halves of the
      tables carries the top-pairing contributions of pairs start ..
      start + size. */
  lemma ChunkTermsArePairTerms(t: Tables, n: nat, start: nat, size: nat)
    requires SameLengths(t) && n == |t.eq| / 2 && start + size <= n
    ensures
      ChunkTerms(t.eq[start..start + size], t.eq[n + start..n + start + size],
                 t.a[start..start + size], t.a[n + start..n + start + size],
                 t.b[start..start + size], t.b[n + start..n + start + size])
      == PairTerms(Top, t)[start..start + size]
  {
  }

  /** Adding the sum of the next chunk to the sum of a prefix gives the sum
      of the longer prefix. */
  lemma SumEvalsPrefix(s: seq<Evals>, start: nat, size: nat)
    requires start + size <= |s|
    ensures SumEvals(s[..start + size]) == AddEvals(SumEvals(s[..start]), SumEvals(s[start..start + size]))
  {
    assert s[..start + size] == s[..start] + s[start..start + size];
    SumEvalsAppend(s[..start], s[start..start + size]);
  }

  // ---------------------------------------------------------------------
  // SIMDPolynomial

  /** `SIMDPolynomial`: its evaluation vector `Z`, bound in place and then
      truncated. */
  class SimdPolynomial {
    var Z: seq<Fr>

    constructor (z: seq<Fr>)
      ensures Z == z
    {
      Z := z;
    }

    /** `bound_poly_var_top_par`: the left half and the right half are cut
        into chunks of at most `ChunkSize` entries; in each chunk the right
        entries become `(high - low) * r` and the left entries then have
        them added; finally the vector is truncated to the left half, the
        top variable bound at r. */
    method BoundPolyVarTopPar(r: Fr, threads: nat)
      requires threads >= 1
      modifies this
      ensures Z == BindTop(old(Z), r)
    {
      var n := |Z| / 2;
      var chunkSize := ChunkSize(n, threads, 16);
      var rv := seq(chunkSize, _ => r);
      var start := 0;
      while start < n
        invariant start <= n && 2 * n <= |old(Z)|
        invariant Z == PartialBind(old(Z), n, start, r)
        decreases n - start
      {
        var size := if chunkSize < n - start then chunkSize else n - start;
        ghost var before := Z;
        Z := SubRange(Z, n + start, start, size);
        Z := MulRange(Z, n + start, rv[..size]);
        Z := AddRange(Z, start, n + start, size);
        ChunkPasses(before, n, start, rv[..size]);
        ChunkAdvances(old(Z), n, start, rv[..size], r);
        start := start + size;
      }
      PartialBindComplete(old(Z), r);
      Z := Z[..n];
    }
  }

  // ---------------------------------------------------------------------
  // SIMDSumcheck

  /** The body of `eval_cubic_top`'s map over chunks: from the six slices
      of one chunk, the four partial sums, by entrywise products, slopes and
      inner products into scratch buffers. They are the sums of the chunk's
      pair contributions. */
  method EvalChunk(eqLow: seq<Fr>, eqHigh: seq<Fr>, aLow: seq<Fr>, aHigh: seq<Fr>, bLow: seq<Fr>, bHigh: seq<Fr>)
    returns (evals: Evals)
    requires |eqHigh| == |eqLow| && |aLow| == |eqLow| && |aHigh| == |eqLow| && |bLow| == |eqLow| && |bHigh| == |eqLow|
    ensures evals == SumEvals(ChunkTerms(eqLow, eqHigh, aLow, aHigh, bLow, bHigh))
  {
    var buff := MulVec(eqLow, aLow);
    var eval0 := InnerProduct(buff, bLow);
    buff := MulVec(eqHigh, aHigh);
    var eval1 := InnerProduct(buff, bHigh);
    var eqM, aM, bM := SubVec(eqHigh, eqLow), SubVec(aHigh, aLow), SubVec(bHigh, bLow);
    var eq2, a2, b2 := AddVec(eqHigh, eqM), AddVec(aHigh, aM), AddVec(bHigh, bM);
    buff := MulVec(eq2, a2);
    var eval2 := InnerProduct(buff, b2);
    eq2, a2, b2 := AddVec(eq2, eqM), AddVec(a2, aM), AddVec(b2, bM);
    eq2 := MulVec(eq2, a2);
    var eval3 := InnerProduct(eq2, b2);
    ChunkSum(eqLow, eqHigh, aLow, aHigh, bLow, bHigh);
    evals := Evals(eval0, eval1, eval2, eval3);
  }

  /** One item of `eval_cubic_top`'s zipped chunk iterators: the chunk from
      `start` of the low halves and of the high halves of the three vectors,
      evaluated by `EvalChunk`. Its partial sums are the sums of the
      top-pairing contributions of pairs start .. start + size. */
  method EvalChunkAt(E: seq<Fr>, A: seq<Fr>, B: seq<Fr>, n: nat, start: nat, size: nat) returns (chunk: Evals)
    requires |A| == |E| && |B| == |E| && n == |E| / 2 && start + size <= n
    ensures chunk == SumEvals(PairTerms(Top, Tables(E, A, B))[start..start + size])
  {
    var eqLow, eqHigh := E[start..start + size], E[n + start..n + start + size];
    var aLow, aHigh := A[start..start + size], A[n + start..n + start + size];
    var bLow, bHigh := B[start..start + size], B[n + start..n + start + size];
    chunk := EvalChunk(eqLow, eqHigh, aLow, aHigh, bLow, bHigh);
    ChunkTermsArePairTerms(Tables(E, A, B), n, start, size);
  }

  class SimdSumcheck {
    const eq: SimdPolynomial
    const a: SimdPolynomial
    const b: SimdPolynomial

    /** The three polynomials are separate objects. */
    ghost predicate Valid()
      reads this
    {
      eq != a && eq != b && a != b
    }

    /** The current vectors of `eq`, `a` and `b`. */
    function Current(): Tables
      reads this, eq, a, b
    {
      Tables(eq.Z, a.Z, b.Z)
    }

    /** `SIMDSumcheck::new`: wraps the three vectors as they are, without
        checking their lengths. */
    constructor (eqZ: seq<Fr>, aZ: seq<Fr>, bZ: seq<Fr>)
      ensures Valid() && Current() == Tables(eqZ, aZ, bZ)
      ensures fresh(eq) && fresh(a) && fresh(b)
    {
      eq := new SimdPolynomial(eqZ);
      a := new SimdPolynomial(aZ);
      b := new SimdPolynomial(bZ);
    }

    /** `eval_cubic_top`: the length checks on `a` and `b`; then the low and
        high halves are cut into chunks of at most `ChunkSize` pairs, each
        chunk is evaluated with vector operations into four partial sums,
        and the partial sums are added up. The result is the round
        polynomial of the pairs (i, n + i), and nothing is changed. */
    method EvalCubicTop(threads: nat) returns (res: Result<Evals>)
      requires threads >= 1
      ensures res.Ok? <==> SameLengths(Current())
      ensures res.Err? ==> res.error == LengthMismatch
      ensures res.Ok? ==> res.value == RoundEvals(Top, Current())
    {
      var E, A, B := eq.Z, a.Z, b.Z;
      if |A| != |E| || |B| != |E| {
        return Err(LengthMismatch);
      }
      var n := |E| / 2;
      var chunkSize := ChunkSize(n, threads, 32);
      ghost var t := Tables(E, A, B);
      var acc := ZeroEvals;
      var start := 0;
      while start < n
        invariant start <= n
        invariant acc == SumEvals(PairTerms(Top, t)[..start])
        decreases n - start
      {
        var size := if chunkSize < n - start then chunkSize else n - start;
        var chunk := EvalChunkAt(E, A, B, n, start, size);
        SumEvalsPrefix(PairTerms(Top, t), start, size);
        acc := AddEvals(acc, chunk);
        start := start + size;
      }
      assert PairTerms(Top, t)[..n] == PairTerms(Top, t);
      return Ok(acc);
    }

    /** `bind_top`: binds the top variable of all three polynomials at r, the
        variable whose pairs `EvalCubicTop` sums over. */
    method BindTop(r: Fr, threads: nat)
      requires Valid() && threads >= 1
      modifies eq, a, b
      ensures Current() == BindTables(Top, old(Current()), r)
    {
      eq.BoundPolyVarTopPar(r, threads);
      a.BoundPolyVarTopPar(r, threads);
      b.BoundPolyVarTopPar(r, threads);
    }

    /** `sumcheck_top`: `numRounds` rounds of evaluate, derive the challenge,
        bind. The run fails only in the first round, on vectors of unequal
        lengths, and then before anything is changed; otherwise the
        transcript and the tables before and after every round form an honest
        run of the top pairing from the starting tables (`ts` lists those
        tables). */
    method SumcheckTop(numRounds: nat, threads: nat) returns (res: Result<CubicSumcheckProof>, ghost ts: seq<Tables>)
      requires Valid() && threads >= 1
      modifies eq, a, b
      ensures res.Err? <==> numRounds > 0 && !SameLengths(old(Current()))
      ensures res.Err? ==> res.error == LengthMismatch && Current() == old(Current())
      ensures res.Ok? ==> |res.value.roundPolys| == numRounds && HonestRun(Top, ts, res.value)
                          && ts[0] == old(Current()) && ts[|ts| - 1] == Current()
    {
      var roundPolys: seq<Evals> := [];
      var rs: seq<Fr> := [];
      ts := [Current()];
      for i := 0 to numRounds
        invariant |roundPolys| == i
        invariant HonestRun(Top, ts, CubicSumcheckProof(roundPolys, rs))
        invariant ts[0] == old(Current()) && ts[|ts| - 1] == Current()
        invariant i > 0 ==> SameLengths(old(Current())) && SameLengths(Current())
      {
        var evals := EvalCubicTop(threads);
        if evals.Err? {
          return Err(evals.error), ts;
        }
        var r := FiatShamir(evals.value);
        BindTop(r, threads);
        HonestRunExtends(Top, ts, CubicSumcheckProof(roundPolys, rs), evals.value, r, Current());
        roundPolys := roundPolys + [evals.value];
        rs := rs + [r];
        ts := ts + [Current()];
      }
      return Ok(CubicSumcheckProof(roundPolys, rs)), ts;
    }
  }
}
