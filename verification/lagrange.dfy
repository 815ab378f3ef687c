/** Integer facts about the Lagrange basis on the nodes 0, 1, 2, 3 that
    eval_uni interpolates through. Kept apart from the field so that these
    polynomial identities are proved without the field's large constants. */
module Lagrange {

  /** (x - a) * (x - b) * (x - c) */
  function Numerator(x: int, a: int, b: int, c: int): int {
    (x - a) * (x - b) * (x - c)
  }

  // Six times the Lagrange basis polynomials l0 .. l3: lj(r) = Lj(r) / 6.
  function L0(r: int): int { -Numerator(r, 1, 2, 3) }
  function L1(r: int): int { 3 * Numerator(r, 0, 2, 3) }
  function L2(r: int): int { -3 * Numerator(r, 0, 1, 3) }
  function L3(r: int): int { Numerator(r, 0, 1, 2) }

  /** The combination f0*L0(r) + f1*L1(r) + f2*L2(r) + f3*L3(r). */
  function Combination(f0: int, f1: int, f2: int, f3: int, r: int): int {
    f0 * L0(r) + f1 * L1(r) + f2 * L2(r) + f3 * L3(r)
  }

  /** c0 + c1*x + c2*x^2 + c3*x^3 */
  function Cubic(c0: int, c1: int, c2: int, c3: int, x: int): int {
    c0 + c1 * x + c2 * x * x + c3 * x * x * x
  }

  lemma CubicExpanded(c0: int, c1: int, c2: int, c3: int, x: int)
    ensures c0 + c1 * x + c2 * (x * x) + c3 * (x * (x * x)) == Cubic(c0, c1, c2, c3, x)
  {
  }

  /** Interpolation through four nodes is exact on cubics. */
  lemma CombinationOfCubic(c0: int, c1: int, c2: int, c3: int, r: int)
    ensures Combination(Cubic(c0, c1, c2, c3, 0), Cubic(c0, c1, c2, c3, 1),
                        Cubic(c0, c1, c2, c3, 2), Cubic(c0, c1, c2, c3, 3), r)
         == 6 * Cubic(c0, c1, c2, c3, r)
  {
  }

  /** The combination is linear in the values. */
  lemma CombinationAdds(u0: int, u1: int, u2: int, u3: int, v0: int, v1: int, v2: int, v3: int, r: int)
    ensures Combination(u0 + v0, u1 + v1, u2 + v2, u3 + v3, r)
         == Combination(u0, u1, u2, u3, r) + Combination(v0, v1, v2, v3, r)
  {
  }

  /** The product of three lines `(e0 + e1*x) * (a0 + a1*x) * (b0 + b1*x)`,
      a cubic in x. */
  function LineProduct(e0: int, e1: int, a0: int, a1: int, b0: int, b1: int, x: int): int {
    (e0 + e1 * x) * (a0 + a1 * x) * (b0 + b1 * x)
  }

  lemma LineTimesLine(e0: int, e1: int, a0: int, a1: int, x: int)
    ensures (e0 + e1 * x) * (a0 + a1 * x) == e0 * a0 + (e1 * a0 + e0 * a1) * x + e1 * a1 * (x * x)
  {
  }

  lemma QuadraticTimesLine(q0: int, q1: int, q2: int, b0: int, b1: int, x: int)
    ensures (q0 + q1 * x + q2 * (x * x)) * (b0 + b1 * x)
         == q0 * b0 + (q1 * b0 + q0 * b1) * x + (q2 * b0 + q1 * b1) * (x * x) + q2 * b1 * (x * (x * x))
  {
  }

  lemma LineProductIsCubic(e0: int, e1: int, a0: int, a1: int, b0: int, b1: int, x: int)
    ensures LineProduct(e0, e1, a0, a1, b0, b1, x)
         == Cubic(e0 * a0 * b0, (e1 * a0 + e0 * a1) * b0 + e0 * a0 * b1,
                  e1 * a1 * b0 + (e1 * a0 + e0 * a1) * b1, e1 * a1 * b1, x)
  {
    LineTimesLine(e0, e1, a0, a1, x);
    QuadraticTimesLine(e0 * a0, e1 * a0 + e0 * a1, e1 * a1, b0, b1, x);
    CubicExpanded(e0 * a0 * b0, (e1 * a0 + e0 * a1) * b0 + e0 * a0 * b1,
                  e1 * a1 * b0 + (e1 * a0 + e0 * a1) * b1, e1 * a1 * b1, x);
  }

  /** Interpolation through four nodes is exact on a product of three lines. */
  lemma CombinationOfLineProduct(e0: int, e1: int, a0: int, a1: int, b0: int, b1: int, r: int)
    ensures Combination(LineProduct(e0, e1, a0, a1, b0, b1, 0), LineProduct(e0, e1, a0, a1, b0, b1, 1),
                        LineProduct(e0, e1, a0, a1, b0, b1, 2), LineProduct(e0, e1, a0, a1, b0, b1, 3), r)
         == 6 * LineProduct(e0, e1, a0, a1, b0, b1, r)
  {
    var c0, c1 := e0 * a0 * b0, (e1 * a0 + e0 * a1) * b0 + e0 * a0 * b1;
    var c2, c3 := e1 * a1 * b0 + (e1 * a0 + e0 * a1) * b1, e1 * a1 * b1;
    LineProductIsCubic(e0, e1, a0, a1, b0, b1, 0);
    LineProductIsCubic(e0, e1, a0, a1, b0, b1, 1);
    LineProductIsCubic(e0, e1, a0, a1, b0, b1, 2);
    LineProductIsCubic(e0, e1, a0, a1, b0, b1, 3);
    LineProductIsCubic(e0, e1, a0, a1, b0, b1, r);
    CombinationOfCubic(c0, c1, c2, c3, r);
  }
}
