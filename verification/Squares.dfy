/** The square test of 211.c: residue filters, the Jacobi loop they use, and the sum over divisors it is applied to. */
module Squares {
  import opened NumberTheory
  import opened MachineWords
  import opened Reciprocity
  import opened Residues

  // ---- the Jacobi loop ----------------------------------------------------------------------------------------------

  /** The sign a factor of two brings. */
  function SignOfTwo(n: nat): int {
    if n % 8 == 3 || n % 8 == 5 then -1 else 1
  }

  /** The sign of swapping the two arguments. */
  function SignOfSwap(v: nat, n: nat): int {
    if v % 4 == 3 && n % 4 == 3 then -1 else 1
  }

  function Signed(sign: int, x: int): int {
    if sign == -1 then -x else x
  }

  /** Twos are taken out of v, then v and n change places. */
  function Symbol(v: nat, n: nat): (r: int)
    requires Odd(n)
    ensures r == -1 || r == 0 || r == 1
    decreases v
  {
    if v == 0 then if n == 1 then 1 else 0
    else if v % 2 == 0 then Signed(SignOfTwo(n), Symbol(v / 2, n))
    else Signed(SignOfSwap(v, n), Symbol(n % v, v))
  }

  method Jacobi(v0: U64, n0: U64) returns (r: int)
    requires Odd(n0)
    ensures r == Symbol(v0 % n0, n0)
  {
    hide Symbol;
    var n: nat := n0;
    r := 1;
    var v: nat := v0 % n;
    while v != 0
      invariant Odd(n) && (r == 1 || r == -1) && Signed(r, Symbol(v, n)) == Symbol(v0 % n0, n0)
      decreases v
    {
      ghost var v1 := v;
      while v % 2 == 0
        invariant 0 < v <= v1 && (r == 1 || r == -1) && Signed(r, Symbol(v, n)) == Symbol(v0 % n0, n0)
        decreases v
      {
        SymbolOfEven(v, n);
        v := v / 2;
        var nMod8 := n % 8;
        if nMod8 == 3 || nMod8 == 5 {
          r := -r;
        }
      }
      if v % 4 == 3 && n % 4 == 3 {
        r := -r;
      }
      SymbolOfOdd(v, n);
      var vOld := v;
      v := n % v;
      n := vOld;
    }
    SymbolOfZero(n);
    if n == 1 {
      return r;
    }
    return 0;
  }

  lemma SymbolOfEven(v: nat, n: nat)
    requires Odd(n) && v > 0 && v % 2 == 0
    ensures v / 2 > 0 && Symbol(v, n) == Signed(SignOfTwo(n), Symbol(v / 2, n))
  {
  }

  lemma SymbolOfOdd(v: nat, n: nat)
    requires Odd(n) && v % 2 != 0
    ensures Odd(v) && n % v < v && Symbol(v, n) == Signed(SignOfSwap(v, n), Symbol(n % v, v))
  {
  }

  lemma SymbolOfZero(n: nat)
    requires Odd(n)
    ensures Symbol(0, n) == if n == 1 then 1 else 0
  {
  }

  lemma HalvingKeepsDivisors(e: nat, v: nat, n: nat)
    requires Odd(n) && v % 2 == 0
    ensures Divides(e, n) && Divides(e, v) <==> Divides(e, n) && Divides(e, v / 2)
  {
    if Divides(e, n) {
      var m := n / e;
      assert n == e * m;
      OddFactor(e, m);
      if Divides(e, v) {
        var k := v / e;
        assert v == e * k;
        EvenCofactor(e, k);
        Associate(e, k / 2, 2);
        assert v / 2 == e * (k / 2);
        MulMod(e, k / 2);
      }
      if Divides(e, v / 2) {
        var k := v / 2 / e;
        assert v / 2 == e * k;
        Associate(e, k, 2);
        assert v == e * (k * 2);
        MulMod(e, k * 2);
      }
    }
  }

  lemma OddFactor(e: nat, m: nat)
    requires Odd(e * m)
    ensures Odd(e)
  {
    if e % 2 == 0 {
      Associate(2, e / 2, m);
      MulMod(2, e / 2 * m);
    }
  }

  lemma EvenCofactor(e: nat, k: nat)
    requires Odd(e) && (e * k) % 2 == 0
    ensures k % 2 == 0
  {
    if k % 2 == 1 {
      ModMul(2, e, k, 1, 1);
    }
  }

  lemma HalvingKeepsGcd(v: nat, n: nat)
    requires Odd(n) && v % 2 == 0 && v > 0
    ensures GcdOf(n, v) == GcdOf(n, v / 2)
  {
    hide GcdOf, Divides;
    var d, e := GcdOf(n, v), GcdOf(n, v / 2);
    GcdOfIsGreatest(n, v);
    GcdOfIsGreatest(n, v / 2);
    HalvingKeepsDivisors(d, v, n);
    HalvingKeepsDivisors(e, v, n);
  }

  /** The loop answers 0 exactly when the arguments have a common factor. */
  lemma {:induction false} ZeroMeansCommonFactor(v: nat, n: nat)
    requires Odd(n)
    ensures Symbol(v, n) == 0 <==> GcdOf(n, v) > 1
    decreases v
  {
    if v == 0 {
    } else if v % 2 == 0 {
      ZeroMeansCommonFactor(v / 2, n);
      HalvingKeepsGcd(v, n);
    } else {
      ZeroMeansCommonFactor(n % v, v);
    }
  }

  // ---- the loop computes the Jacobi symbol ---------------------------------------------------------------------------

  function Sign(minus: bool): int {
    if minus then -1 else 1
  }

  lemma CoprimeTwo(n: nat)
    requires Odd(n)
    ensures Coprime(n, 2)
  {
    assert GcdOf(2, 1) == GcdOf(1, 0);
  }

  /** Without a common factor the loop's answer is the sign that multiplication by v leaves on half of the residues. */
  lemma {:induction false} SymbolIsSign(v: nat, n: nat)
    requires Odd(n) && Coprime(n, v)
    ensures Symbol(v, n) == Sign(Minus(v, n))
    decreases v
  {
    hide Symbol, Minus;
    if v == 0 {
      SymbolOfZero(n);
      NothingMinus(v);
    } else if v % 2 == 0 {
      SymbolOfEven(v, n);
      HalvingKeepsGcd(v, n);
      SymbolIsSign(v / 2, n);
      CoprimeTwo(n);
      MinusTwo(n);
      MinusMultiplies(2, v / 2, n);
    } else {
      SymbolOfOdd(v, n);
      SymbolIsSign(n % v, v);
      MinusPeriodic(n, v);
      MinusReciprocal(v, n);
    }
  }

  lemma NothingMinus(v: nat)
    ensures !Minus(v, 1)
  {
  }

  /** For every odd modulus the answers multiply. */
  lemma SymbolMultiplies(a: nat, b: nat, n: nat)
    requires Odd(n)
    ensures Symbol(a * b, n) == Symbol(a, n) * Symbol(b, n)
  {
    hide Symbol, Minus, GcdOf;
    CoprimeProduct(n, a, b);
    if Coprime(n, a) && Coprime(n, b) {
      SymbolIsSign(a, n);
      SymbolIsSign(b, n);
      SymbolIsSign(a * b, n);
      MinusMultiplies(a, b, n);
    } else {
      GcdPositive(n, a);
      GcdPositive(n, b);
      GcdPositive(n, a * b);
      ZeroMeansCommonFactor(a, n);
      ZeroMeansCommonFactor(b, n);
      ZeroMeansCommonFactor(a * b, n);
    }
  }

  /** And depend on the remainder only. */
  lemma SymbolPeriodic(v: nat, n: nat)
    requires Odd(n)
    ensures Symbol(v % n, n) == Symbol(v, n)
  {
    hide Symbol, Minus, GcdOf;
    CoprimePeriodic(v, n);
    if Coprime(n, v) {
      SymbolIsSign(v, n);
      SymbolIsSign(v % n, n);
      MinusPeriodic(v, n);
    } else {
      GcdPositive(n, v);
      ZeroMeansCommonFactor(v, n);
      ZeroMeansCommonFactor(v % n, n);
    }
  }

  /** So for every odd modulus a square is never answered with -1: with 1 if it has no factor in common, else with 0. */
  lemma SymbolOfSquare(w: nat, n: nat)
    requires Odd(n)
    ensures Symbol(w * w % n, n) == if Coprime(n, w) then 1 else 0
  {
    hide Symbol, GcdOf;
    SymbolPeriodic(w * w, n);
    SymbolMultiplies(w, w, n);
    GcdPositive(n, w);
    ZeroMeansCommonFactor(w, n);
  }

  // ---- the filters -----------------------------------------------------------------------------------------------

  ghost predicate IsSquare(v: nat) {
    exists w: nat :: w * w == v
  }

  /** Some square leaves the remainder of v. */
  ghost predicate IsResidue(v: nat, n: nat)
    requires n > 0
  {
    exists w: nat :: SquareMod(w, n) == v % n
  }

  function SquareMod(w: nat, n: nat): nat
    requires n > 0
  {
    w * w % n
  }

  lemma SquareModPeriodic(w: nat, n: nat)
    requires n > 0
    ensures SquareMod(w, n) == SquareMod(w % n, n)
  {
    ModMul(n, w, w, w % n, w % n);
  }

  lemma ResidueMeets(v: nat, n: nat)
    requires n > 0
    ensures IsResidue(v, n) <==> exists w: nat :: Meets(n, w, w, v, false)
  {
    hide Divides;
    forall w: nat ensures SquareMod(w, n) == v % n <==> Meets(n, w, w, v, false) { CongruentIff(n, w * w, v); }
  }

  /** For an odd prime, as the two moduli of the test are, the loop answers -1 exactly for what no square is congruent to. */
  lemma MinusOneMeansNoResidue(v: nat, p: nat)
    requires OddPrime(p)
    ensures Symbol(v % p, p) == -1 <==> !IsResidue(v, p)
  {
    hide Symbol, GcdOf, IsPrime, Minus, Meets;
    SymbolPeriodic(v, p);
    if Coprime(p, v) {
      SymbolIsSign(v, p);
      MinusMeansNoSquare(v, p);
      ResidueMeets(v, p);
    } else {
      if !Divides(p, v) { PrimeCoprime(p, v); }
      GcdPositive(p, v);
      ZeroMeansCommonFactor(v, p);
      assert SquareMod(0, p) == v % p;
    }
  }

  lemma ModuliArePrime()
    ensures OddPrime(11) && OddPrime(17)
  {
    forall d | 2 <= d < 11 ensures !Divides(d, 11) {}
    forall d | 2 <= d < 17 ensures !Divides(d, 17) {}
  }

  /** The three filters before the comparison. */
  predicate Passes(v: nat) {
    && (if v % 2 == 0 then v % 4 == 0 else v % 8 == 1)
    && Symbol(v % 11, 11) != -1 && Symbol(v % 17, 17) != -1
  }

  /** They let through exactly what is a square modulo 8, 11 and 17. */
  lemma PassesExactly(v: nat)
    ensures Passes(v) <==> IsResidue(v, 8) && IsResidue(v, 11) && IsResidue(v, 17)
  {
    hide Symbol, IsResidue;
    ModuliArePrime();
    MinusOneMeansNoResidue(v, 11);
    MinusOneMeansNoResidue(v, 17);
    ResidueMod8(v);
    EightToFour(v);
  }

  /** So no filter turns a square away. */
  lemma SquaresPass(w: nat)
    ensures Passes(w * w)
  {
    hide Passes;
    assert SquareMod(w, 8) == w * w % 8 && SquareMod(w, 11) == w * w % 11 && SquareMod(w, 17) == w * w % 17;
    PassesExactly(w * w);
  }

  lemma ResidueMod8(v: nat)
    ensures IsResidue(v, 8) <==> v % 8 in {0, 1, 4}
  {
    forall w: nat ensures SquareMod(w, 8) in {0, 1, 4} {
      SquareModPeriodic(w, 8);
      Small8(w % 8);
    }
    assert SquareMod(0, 8) == 0 && SquareMod(1, 8) == 1 && SquareMod(2, 8) == 4;
  }

  lemma EightToFour(v: nat)
    ensures v % 8 in {0, 1, 4} <==> if v % 2 == 0 then v % 4 == 0 else v % 8 == 1
  {
    var q, r := v / 8, v % 8;
    DivModUnique(2, 4 * q + r / 2, r % 2);
    DivModUnique(4, 2 * q + r / 4, r % 4);
  }

  lemma Small8(w: nat)
    requires w < 8
    ensures SquareMod(w, 8) in {0, 1, 4}
  {
  }

  /** v0 is what the square root function returned, at most 2^32 for a 64-bit v. The test says whether v0 squares to v,
      so it decides squareness if and only if the root of every square is right, as an exact integer root's is. */
  method TestSquare(v: U64, v0: U64) returns (yes: bool)
    requires v0 < TWO_32 || (v0 == TWO_32 && v > 0)
    ensures yes <==> v0 * v0 == v
    ensures (yes <==> IsSquare(v)) <==> (IsSquare(v) ==> v0 * v0 == v)
    ensures v0 * v0 <= v < (v0 + 1) * (v0 + 1) ==> (yes <==> IsSquare(v))
  {
    hide Symbol, Mul64;
    SquaresPass(v0);
    RootFits(v, v0);
    if w: nat :| w * w == v {
      if v0 * v0 <= v < (v0 + 1) * (v0 + 1) { OnlyRoot(w, v0); }
    }
    var odd := v % 2;
    if odd == 0 {
      if v % 4 != 0 {
        return false;
      }
    } else {
      if v % 8 != 1 {
        return false;
      }
    }
    var j := Jacobi(v, 11);
    if j == -1 {
      return false;
    }
    j := Jacobi(v, 17);
    if j == -1 {
      return false;
    }
    return v == Mul64(v0, v0);
  }

  /** The square of such a root is compared without harm from wrap-around. */
  lemma RootFits(v: U64, v0: U64)
    requires v0 < TWO_32 || (v0 == TWO_32 && v > 0)
    ensures v == Mul64(v0, v0) <==> v0 * v0 == v
  {
    if v0 < TWO_32 {
      SquareMonotone(v0, TWO_32 - 1);
    }
  }

  lemma OnlyRoot(w: nat, v0: nat)
    requires v0 * v0 <= w * w < (v0 + 1) * (v0 + 1)
    ensures w == v0
  {
    if w < v0 { SquareMonotone(w + 1, v0); }
    if w > v0 { SquareMonotone(v0 + 1, w); }
  }
}
