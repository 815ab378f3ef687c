/** Dense multilinear polynomials given by their evaluation tables over the
    boolean hypercube (`DensePolynomial` of poly/plain.rs), and the two ways
    of fixing one variable to a field element r: the top variable (pairing
    entry i with entry n + i) and the bottom variable (pairing entries 2i and
    2i + 1). */
module Multilinear {
  import opened Field
  import opened Outcomes

  // ---------------------------------------------------------------------
  // is_power_of_two

  /** Bitwise and of two naturals, bit by bit from the least significant. */
  function BitAnd(x: nat, y: nat): nat
    decreases x
  {
    if x == 0 || y == 0 then 0
    else 2 * BitAnd(x / 2, y / 2) + (if x % 2 == 1 && y % 2 == 1 then 1 else 0)
  }

  function Pow2(k: nat): (p: nat)
    ensures p >= 1
  {
    if k == 0 then 1 else 2 * Pow2(k - 1)
  }

  /** `is_power_of_two`: `num != 0 && num & (num - 1) == 0`; the subtraction
      is reached only for a nonzero `num`, so it never wraps. */
  predicate IsPowerOfTwo(num: nat) {
    num != 0 && BitAnd(num, num - 1) == 0
  }

  lemma {:induction false} BitAndSelf(x: nat)
    ensures BitAnd(x, x) == x
    decreases x
  {
    if x != 0 {
      BitAndSelf(x / 2);
    }
  }

  /** Every power of two passes the check. */
  lemma {:induction false} Pow2IsPowerOfTwo(k: nat)
    ensures IsPowerOfTwo(Pow2(k))
  {
    if k > 0 {
      Pow2IsPowerOfTwo(k - 1);
      var h := Pow2(k - 1);
      assert Pow2(k) / 2 == h && (Pow2(k) - 1) / 2 == h - 1;
    }
  }

  /** Only powers of two pass the check; in particular 0 does not. */
  lemma {:induction false} PowerOfTwoExponent(num: nat) returns (k: nat)
    requires IsPowerOfTwo(num)
    ensures num == Pow2(k)
    decreases num
  {
    if num == 1 {
      k := 0;
    } else if num % 2 == 0 {
      var m := num / 2;
      assert (num - 1) / 2 == m - 1 && (num - 1) % 2 == 1;
      assert BitAnd(num, num - 1) == 2 * BitAnd(m, m - 1);
      var k' := PowerOfTwoExponent(m);
      k := k' + 1;
    } else {
      var m := num / 2;
      assert (num - 1) / 2 == m && (num - 1) % 2 == 0;
      BitAndSelf(m);
      assert false;
    }
  }

  /** `is_power_of_two(num)` holds exactly when num is 2^k for some k. */
  lemma IsPowerOfTwoIff(num: nat)
    ensures IsPowerOfTwo(num) <==> exists k: nat :: num == Pow2(k)
  {
    if IsPowerOfTwo(num) {
      var k := PowerOfTwoExponent(num);
    }
    if exists k: nat :: num == Pow2(k) {
      var k: nat :| num == Pow2(k);
      Pow2IsPowerOfTwo(k);
    }
  }

  /** Halving a power of two of at least 2 gives a power of two. */
  lemma HalfOfPowerOfTwo(num: nat)
    requires IsPowerOfTwo(num) && num >= 2
    ensures IsPowerOfTwo(num / 2) && num == 2 * (num / 2)
  {
    var k := PowerOfTwoExponent(num);
    assert k > 0;
    Pow2IsPowerOfTwo(k - 1);
  }

  // ---------------------------------------------------------------------
  // Binding one variable, as functions on tables

  /** `low + r * (high - low)`: the value at r of the line through
      (0, low) and (1, high). */
  function BindPair(low: Fr, high: Fr, r: Fr): Fr {
    Add(low, Mul(r, Sub(high, low)))
  }

  lemma BindPairEnds(low: Fr, high: Fr)
    ensures BindPair(low, high, 0) == low
    ensures BindPair(low, high, 1) == high
  {
    MulZero(Sub(high, low));
    AddZero(low);
    assert Mul(1, Sub(high, low)) == Sub(high, low);
    assert Add(low, Sub(high, low)) == high by {
      ReduceOfElement(low);
      ReduceOfElement(high);
      AddOfResidues(low, Sub(high, low), low, high - low);
    }
  }

  /** The table with its top variable fixed to r: entry i becomes
      `z[i] + r * (z[n + i] - z[i])` with n = |z| / 2. */
  function BindTop(z: seq<Fr>, r: Fr): (b: seq<Fr>)
    ensures |b| == |z| / 2
  {
    var n := |z| / 2;
    seq(n, i requires 0 <= i < n => BindPair(z[i], z[n + i], r))
  }

  /** The table with its bottom variable fixed to r: entry i becomes
      `z[2i] + r * (z[2i + 1] - z[2i])`. */
  function BindBot(z: seq<Fr>, r: Fr): (b: seq<Fr>)
    ensures |b| == |z| / 2
  {
    var n := |z| / 2;
    seq(n, i requires 0 <= i < n => BindPair(z[2 * i], z[2 * i + 1], r))
  }

  /** The even-indexed and odd-indexed entries of a table. */
  function Evens(z: seq<Fr>): (e: seq<Fr>)
    ensures |e| == |z| / 2
  {
    seq(|z| / 2, i requires 0 <= i < |z| / 2 => z[2 * i])
  }

  function Odds(z: seq<Fr>): (o: seq<Fr>)
    ensures |o| == |z| / 2
  {
    seq(|z| / 2, i requires 0 <= i < |z| / 2 => z[2 * i + 1])
  }

  /** Fixing the top variable to 0 keeps the first half, to 1 the second. */
  lemma BindTopAtEnds(z: seq<Fr>)
    ensures BindTop(z, 0) == z[..|z| / 2]
    ensures BindTop(z, 1) == z[|z| / 2..2 * (|z| / 2)]
  {
    var n := |z| / 2;
    forall i | 0 <= i < n
      ensures BindTop(z, 0)[i] == z[i] && BindTop(z, 1)[i] == z[n + i]
    {
      BindPairEnds(z[i], z[n + i]);
    }
  }

  /** Fixing the bottom variable to 0 keeps the even entries, to 1 the odd. */
  lemma BindBotAtEnds(z: seq<Fr>)
    ensures BindBot(z, 0) == Evens(z)
    ensures BindBot(z, 1) == Odds(z)
  {
    forall i | 0 <= i < |z| / 2
      ensures BindBot(z, 0)[i] == z[2 * i] && BindBot(z, 1)[i] == z[2 * i + 1]
    {
      BindPairEnds(z[2 * i], z[2 * i + 1]);
    }
  }

  /** Binding a power-of-two table of length at least 2 leaves a power-of-two
      table of half the length, for either variable. */
  lemma BindKeepsPowerOfTwo(z: seq<Fr>, r: Fr)
    requires IsPowerOfTwo(|z|) && |z| >= 2
    ensures IsPowerOfTwo(|BindTop(z, r)|) && 2 * |BindTop(z, r)| == |z|
    ensures IsPowerOfTwo(|BindBot(z, r)|) && 2 * |BindBot(z, r)| == |z|
  {
    HalfOfPowerOfTwo(|z|);
  }

  // ---------------------------------------------------------------------
  // The polynomial itself: a table bound in place and truncated

  /** `DensePolynomial`: the vector `Z` is the array `Z` of which the first
      `len` entries are live; `truncate` shortens `len`. */
  class DensePolynomial {
    const Z: array<Fr>
    var len: nat

    ghost predicate Valid()
      reads this
    {
      len <= Z.Length
    }

    /** The current evaluation table. */
    function Evaluations(): seq<Fr>
      reads this, Z
      requires Valid()
    {
      Z[..len]
    }

    /** Stores a table as it is. */
    constructor FromTable(z: seq<Fr>)
      ensures Valid() && Evaluations() == z && fresh(Z)
    {
      Z := new Fr[|z|](i requires 0 <= i < |z| => z[i]);
      len := |z|;
      new;
      assert Z[..len] == z;
    }

    /** `DensePolynomial::new`: panics unless the length is a power of two,
        and otherwise keeps the table unchanged. */
    static method New(z: seq<Fr>) returns (res: Result<DensePolynomial>)
      ensures res.Ok? <==> IsPowerOfTwo(|z|)
      ensures res.Err? ==> res.error == NotPowerOfTwo(|z|)
      ensures res.Ok? ==> fresh(res.value) && fresh(res.value.Z)
                          && res.value.Valid() && res.value.Evaluations() == z
    {
      if !IsPowerOfTwo(|z|) {
        return Err(NotPowerOfTwo(|z|));
      }
      var p := new DensePolynomial.FromTable(z);
      return Ok(p);
    }

    /** `Index`: the entry at `index` of the current table. */
    function Index(index: nat): (v: Fr)
      reads this, Z
      requires Valid() && index < len
      ensures v == Evaluations()[index]
    {
      Z[index]
    }

    /** `bound_poly_var_top`: `left[i] += r * (right[i] - left[i])` over the
        two halves, then truncation to the left half. */
    method BoundPolyVarTop(r: Fr)
      requires Valid()
      modifies this, Z
      ensures Valid()
      ensures Evaluations() == BindTop(old(Evaluations()), r)
    {
      var n := len / 2;
      for i := 0 to n
        invariant forall j :: 0 <= j < i ==> Z[j] == BindPair(old(Z[j]), old(Z[n + j]), r)
        invariant forall j :: i <= j < Z.Length ==> Z[j] == old(Z[j])
      {
        Z[i] := Add(Z[i], Mul(r, Sub(Z[n + i], Z[i])));
      }
      len := n;
    }

    /** `bound_poly_var_top_par`: the same element updates as the serial top
        bind, carried out in whatever order the scheduler picks. `schedule`
        lists the left-half indices in that order, each exactly once. */
    method BoundPolyVarTopPar(r: Fr, schedule: seq<nat>)
      requires Valid()
      requires forall k :: 0 <= k < |schedule| ==> schedule[k] < len / 2
      requires forall k, l :: 0 <= k < l < |schedule| ==> schedule[k] != schedule[l]
      requires forall j :: 0 <= j < len / 2 ==> j in schedule
      modifies this, Z
      ensures Valid()
      ensures Evaluations() == BindTop(old(Evaluations()), r)
    {
      var n := len / 2;
      for k := 0 to |schedule|
        invariant forall j :: 0 <= j < n ==>
          Z[j] == (if j in schedule[..k] then BindPair(old(Z[j]), old(Z[n + j]), r) else old(Z[j]))
        invariant forall j :: n <= j < Z.Length ==> Z[j] == old(Z[j])
      {
        var i := schedule[k];
        assert i !in schedule[..k];
        Z[i] := Add(Z[i], Mul(r, Sub(Z[n + i], Z[i])));
        assert schedule[..k + 1] == schedule[..k] + [i];
      }
      assert schedule[..|schedule|] == schedule;
      len := n;
    }

    /** `bound_poly_var_bot`: `Z[i] = Z[2i] + r * (Z[2i + 1] - Z[2i])` for i
        upwards from 0, then truncation. Step i reads only slots 2i and
        2i + 1, which are at or above i and so not yet overwritten. */
    method BoundPolyVarBot(r: Fr)
      requires Valid()
      modifies this, Z
      ensures Valid()
      ensures Evaluations() == BindBot(old(Evaluations()), r)
    {
      var n := len / 2;
      ghost var z := Z[..len];
      for i := 0 to n
        invariant forall j :: 0 <= j < i ==> Z[j] == BindPair(z[2 * j], z[2 * j + 1], r)
        invariant forall j :: i <= j < |z| ==> Z[j] == z[j]
      {
        Z[i] := BindPair(Z[2 * i], Z[2 * i + 1], r);
      }
      assert Z[..n] == BindBot(z, r);
      len := n;
    }
  }
}
