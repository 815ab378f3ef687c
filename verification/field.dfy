/** The scalar field of the BN254 curve (arkworks' `Fr`), modelled as the
    integers modulo its prime order P, every element held as its canonical
    residue in [0, P).

    Algebraic facts about Fr are proved by mapping field expressions to
    integer expressions: `Reduce` is a ring homomorphism from int onto Fr
    (ReduceAdd, ReduceSub, ReduceMul), so an identity between integer
    polynomials carries over to the field. */
module Field {

  /** The order of the BN254 scalar field. */
  const P: int := 21888242871839275222246405745257275088548364400416034343698204186575808495617

  type Fr = x: int | 0 <= x < P

  /** The canonical residue of an integer. */
  function Reduce(x: int): Fr {
    x % P
  }

  /** `Fr::from(n)` */
  function FromNat(n: nat): Fr {
    n % P
  }

  function Add(a: Fr, b: Fr): Fr {
    (a + b) % P
  }

  function Sub(a: Fr, b: Fr): Fr {
    (a - b) % P
  }

  function Mul(a: Fr, b: Fr): Fr {
    (a * b) % P
  }

  /** The inverses of 6 and of 2 in Fr. */
  const INV6: Fr := 18240202393199396018538671454381062573790303667013361953081836822146507079681
  const INV2: Fr := 10944121435919637611123202872628637544274182200208017171849102093287904247809

  /** The divisors the core ever uses: 6, -6, 2 and -2. */
  predicate IsDivisor(d: Fr) {
    d == 6 || d == P - 6 || d == 2 || d == P - 2
  }

  /** The inverse of a divisor. */
  function Inverse(d: Fr): Fr
    requires IsDivisor(d)
  {
    if d == 6 then INV6 else if d == P - 6 then P - INV6 else if d == 2 then INV2 else P - INV2
  }

  /** Field division `a / d`, for the divisors the core uses. */
  function Div(a: Fr, d: Fr): Fr
    requires IsDivisor(d)
  {
    Mul(a, Inverse(d))
  }

  // ---------------------------------------------------------------------
  // Reduce is a ring homomorphism

  lemma ReduceShift(x: int, k: int)
    ensures Reduce(x + k * P) == Reduce(x)
  {
  }

  lemma ReduceMulLeft(x: int, y: int)
    ensures Reduce(Reduce(x) * y) == Reduce(x * y)
  {
    var q := x / P;
    assert x == q * P + Reduce(x);
    assert x * y == Reduce(x) * y + (q * y) * P;
    ReduceShift(Reduce(x) * y, q * y);
  }

  lemma ReduceMul(x: int, y: int)
    ensures Mul(Reduce(x), Reduce(y)) == Reduce(x * y)
  {
    ReduceMulLeft(x, Reduce(y));
    ReduceMulLeft(y, x);
  }

  lemma ReduceAdd(x: int, y: int)
    ensures Add(Reduce(x), Reduce(y)) == Reduce(x + y)
  {
  }

  lemma ReduceSub(x: int, y: int)
    ensures Sub(Reduce(x), Reduce(y)) == Reduce(x - y)
  {
  }

  /** Multiplying residues of x and y gives the residue of x * y. */
  lemma MulOfResidues(a: Fr, b: Fr, x: int, y: int)
    requires a == Reduce(x) && b == Reduce(y)
    ensures Mul(a, b) == Reduce(x * y)
  {
    ReduceMul(x, y);
  }

  /** Adding residues of x and y gives the residue of x + y. */
  lemma AddOfResidues(a: Fr, b: Fr, x: int, y: int)
    requires a == Reduce(x) && b == Reduce(y)
    ensures Add(a, b) == Reduce(x + y)
  {
    ReduceAdd(x, y);
  }

  /** Subtracting residues of x and y gives the residue of x - y. */
  lemma SubOfResidues(a: Fr, b: Fr, x: int, y: int)
    requires a == Reduce(x) && b == Reduce(y)
    ensures Sub(a, b) == Reduce(x - y)
  {
    ReduceSub(x, y);
  }

  lemma MulOne(a: Fr)
    ensures Mul(a, 1) == a
  {
  }

  lemma MulZero(a: Fr)
    ensures Mul(a, 0) == 0 && Mul(0, a) == 0
  {
  }

  lemma AddZero(a: Fr)
    ensures Add(a, 0) == a && Add(0, a) == a
  {
  }

  lemma ReduceOfElement(a: Fr)
    ensures Reduce(a) == a
  {
  }

  // ---------------------------------------------------------------------
  // Ring laws used by the sums of the core

  lemma AddAssoc(a: Fr, b: Fr, c: Fr)
    ensures Add(Add(a, b), c) == Add(a, Add(b, c))
  {
    assert Add(a, b) == Reduce(a + b) && Add(b, c) == Reduce(b + c);
    ReduceOfElement(a);
    ReduceOfElement(c);
    ReduceAdd(a + b, c);
    ReduceAdd(a, b + c);
  }

  lemma AddComm(a: Fr, b: Fr)
    ensures Add(a, b) == Add(b, a)
  {
  }

  /** Regrouping of four summands, as a componentwise reduction does it. */
  lemma AddSwapMiddle(a: Fr, b: Fr, c: Fr, d: Fr)
    ensures Add(Add(a, b), Add(c, d)) == Add(Add(a, c), Add(b, d))
  {
    ReduceOfElement(a);
    ReduceOfElement(b);
    ReduceOfElement(c);
    ReduceOfElement(d);
    AddOfResidues(a, b, a, b);
    AddOfResidues(c, d, c, d);
    AddOfResidues(a, c, a, c);
    AddOfResidues(b, d, b, d);
    AddOfResidues(Add(a, b), Add(c, d), a + b, c + d);
    AddOfResidues(Add(a, c), Add(b, d), a + c, b + d);
  }

  lemma MulAddDistrib(a: Fr, b: Fr, c: Fr)
    ensures Mul(Add(a, b), c) == Add(Mul(a, c), Mul(b, c))
  {
    ReduceOfElement(a);
    ReduceOfElement(b);
    ReduceOfElement(c);
    MulOfResidues(Add(a, b), c, a + b, c);
    MulOfResidues(a, c, a, c);
    MulOfResidues(b, c, b, c);
    AddOfResidues(Mul(a, c), Mul(b, c), a * c, b * c);
    assert (a + b) * c == a * c + b * c;
  }

  /** Four sums of pairs add up to the sum of the firsts plus the sum of the
      seconds. */
  lemma AddPairs4(a0: Fr, a1: Fr, a2: Fr, a3: Fr, b0: Fr, b1: Fr, b2: Fr, b3: Fr)
    ensures Add(Add(Add(Add(a0, b0), Add(a1, b1)), Add(a2, b2)), Add(a3, b3))
         == Add(Add(Add(Add(a0, a1), a2), a3), Add(Add(Add(b0, b1), b2), b3))
  {
    AddSwapMiddle(a0, b0, a1, b1);
    AddSwapMiddle(Add(a0, a1), Add(b0, b1), a2, b2);
    AddSwapMiddle(Add(Add(a0, a1), a2), Add(Add(b0, b1), b2), a3, b3);
  }

  /** Dividing by 6 undoes multiplying by 6. */
  lemma SixthOfSixfold(y: int)
    ensures Mul(INV6, Reduce(6 * y)) == Reduce(y)
  {
    ReduceMulLeft(6 * y, INV6);
    assert 6 * y * INV6 == y + (5 * y) * P;
    ReduceShift(y, 5 * y);
  }

  lemma MulAssoc(a: Fr, b: Fr, c: Fr)
    ensures Mul(Mul(a, b), c) == Mul(a, Mul(b, c))
  {
    ReduceOfElement(a);
    ReduceOfElement(b);
    ReduceOfElement(c);
    MulOfResidues(a, b, a, b);
    MulOfResidues(b, c, b, c);
    MulOfResidues(Mul(a, b), c, a * b, c);
    MulOfResidues(a, Mul(b, c), a, b * c);
    assert a * b * c == a * (b * c);
  }

  lemma MulComm(a: Fr, b: Fr)
    ensures Mul(a, b) == Mul(b, a)
  {
  }

  /** Each divisor times its inverse is one. */
  lemma InverseIsInverse(d: Fr)
    requires IsDivisor(d)
    ensures Mul(Inverse(d), d) == 1
  {
  }

  /** `Div` really divides: (a / d) * d == a. */
  lemma DivCancels(a: Fr, d: Fr)
    requires IsDivisor(d)
    ensures Mul(Div(a, d), d) == a
  {
    MulAssoc(a, Inverse(d), d);
    InverseIsInverse(d);
    MulOne(a);
  }

  // ---------------------------------------------------------------------
  // Sums of field elements

  /** The sum of a sequence of field elements, added left to right from zero
      (what `.sum()` and a sequential `reduce` compute). */
  function Sum(s: seq<Fr>): Fr {
    if |s| == 0 then 0 else Add(Sum(s[..|s| - 1]), s[|s| - 1])
  }

  /** A sum does not depend on how the sequence is split into parts: the
      partial sums of the parts add up to the sum of the whole. */
  lemma {:induction false} SumAppend(s: seq<Fr>, t: seq<Fr>)
    ensures Sum(s + t) == Add(Sum(s), Sum(t))
  {
    if |t| == 0 {
      assert s + t == s;
    } else {
      var t' := t[..|t| - 1];
      assert (s + t)[..|s + t| - 1] == s + t';
      SumAppend(s, t');
      AddAssoc(Sum(s), Sum(t'), t[|t| - 1]);
    }
  }
}
