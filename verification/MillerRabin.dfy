/** The Miller-Rabin witness test (test_prime.c). */
module MillerRabin {
  import opened NumberTheory
  import opened ModularPower

  /** The odd part of n and the number of twos removed from it. */
  function OddPart(n: nat): nat
    requires n > 0
  {
    if n % 2 == 0 then OddPart(n / 2) else n
  }

  function Twos(n: nat): nat
    requires n > 0
  {
    if n % 2 == 0 then 1 + Twos(n / 2) else 0
  }

  function Doubled(d: nat, r: nat): nat {
    if r == 0 then d else 2 * Doubled(d, r - 1)
  }

  lemma {:induction false} OddPartTwos(n: nat)
    requires n > 0
    ensures OddPart(n) % 2 == 1
    ensures Doubled(OddPart(n), Twos(n)) == n
  {
    if n % 2 == 0 {
      OddPartTwos(n / 2);
    }
  }

  /** The r-th squaring of a^d modulo n. */
  function Square(n: int, a: nat, r: nat): int
    requires n > 1
  {
    if r == 0 then Pow(a, OddPart(n - 1)) % n else SquareMod(Square(n, a, r - 1), n)
  }

  /** One squaring in unsigned 128-bit arithmetic, which does not wrap for a 64-bit x. */
  function SquareMod(x: int, n: int): (y: int)
    requires n > 1
  {
    (x * x) % n
  }

  /** n is a strong probable prime to base a. */
  ghost predicate StrongProbablePrime(n: int, a: nat)
    requires n > 1
  {
    || Square(n, a, 0) == 1
    || Square(n, a, 0) == n - 1
    || exists r :: 1 <= r < Twos(n - 1) && Square(n, a, r) == n - 1
  }

  lemma SquareStep(n: int, a: nat, r: nat, x: int)
    requires 1 < n < TWO_64 && r > 0 && x == Square(n, a, r - 1)
    ensures SquareMod(x, n) == Square(n, a, r)
    ensures x * x < TWO_64 * TWO_64
  {
    SquareRange(n, a, r - 1);
    SquareMonotone(x, TWO_64);
  }

  predicate PowerOverflows(n: int, a: nat)
    requires n > 1
  {
    ModExpOf(a, OddPart(n - 1), n).Overflow?
  }

  method MillerRabinTest(n: int, a: nat) returns (r: Checked<bool>)
    requires 1 < n < TWO_64
    ensures r.Value? ==> (r.v <==> StrongProbablePrime(n, a))
    ensures r.Overflow? <==> PowerOverflows(n, a)
    ensures Fits(n) ==> r.Value?
  {
    var d, s := n - 1, 0;
    while d % 2 == 0
      invariant d > 0 && OddPart(d) == OddPart(n - 1) && s + Twos(d) == Twos(n - 1)
      decreases d
    {
      d := d / 2;
      s := s + 1;
    }
    var p := ModExp(a, d, n);
    if p.Overflow? {
      return Overflow;
    }
    var x := p.v;
    if x == 1 || x == n - 1 {
      return Value(true);
    }
    var r1 := 1;
    while r1 < s
      invariant 1 <= r1 && x == Square(n, a, r1 - 1)
      invariant forall j :: 1 <= j < r1 ==> Square(n, a, j) != n - 1
    {
      SquareStep(n, a, r1, x);
      x := SquareMod(x, n);
      if x == n - 1 {
        return Value(true);
      }
      r1 := r1 + 1;
    }
    return Value(false);
  }

  lemma {:induction false} SquareIsPower(n: int, a: nat, r: nat)
    requires n > 1
    ensures Square(n, a, r) == Pow(a, Doubled(OddPart(n - 1), r)) % n
  {
    if r > 0 {
      SquareIsPower(n, a, r - 1);
      SquareOfPower(n, a, Doubled(OddPart(n - 1), r - 1), Square(n, a, r - 1));
    }
  }

  lemma SquareOfPower(n: int, a: nat, e: nat, x: int)
    requires n > 1 && x == Pow(a, e) % n
    ensures SquareMod(x, n) == Pow(a, 2 * e) % n
  {
    ModOfMod(n, Pow(a, e));
    ModMul(n, x, x, Pow(a, e), Pow(a, e));
    PowAdd(a, e, e);
  }

  /** By Fermat, squaring a^d as often as n - 1 has twos ends in 1. */
  lemma LastSquare(n: int, a: nat)
    requires IsPrime(n) && !Divides(n, a)
    ensures Square(n, a, Twos(n - 1)) == 1
  {
    OddPartTwos(n - 1);
    SquareIsPower(n, a, Twos(n - 1));
    Fermat(n, a);
  }

  lemma SquareRoot(n: int, a: nat, r: nat)
    requires IsPrime(n) && r > 0 && Square(n, a, r) == 1
    ensures Square(n, a, r - 1) == 1 || Square(n, a, r - 1) == n - 1
  {
    SquareRange(n, a, r - 1);
    RootsOfOne(n, Square(n, a, r - 1));
  }

  lemma SquareRange(n: int, a: nat, r: nat)
    requires n > 1
    ensures 0 <= Square(n, a, r) < n
  {
  }

  /** Walking back from a 1 along the squarings, the first number that is not 1 is n - 1. */
  lemma {:induction false} WalkBack(n: int, a: nat, r: nat)
    requires IsPrime(n) && Square(n, a, r) == 1
    ensures Square(n, a, 0) == 1 || exists i :: 0 <= i < r && Square(n, a, i) == n - 1
  {
    if r > 0 {
      SquareRoot(n, a, r);
      if Square(n, a, r - 1) == 1 {
        WalkBack(n, a, r - 1);
      }
    }
  }

  /** No prime is rejected, whatever base it does not divide. */
  lemma PrimesPass(n: int, a: nat)
    requires IsPrime(n) && !Divides(n, a)
    ensures StrongProbablePrime(n, a)
  {
    LastSquare(n, a);
    WalkBack(n, a, Twos(n - 1));
  }

  // ---- the test in powers ---------------------------------------------------------------------------------

  /** However an odd n - 1 = d * 2^s is written with d odd, one of the powers a^d, a^2d, a^4d, ..., a^(2^(s-1) d) says so. */
  ghost predicate StrongInPowers(n: nat, a: nat)
    requires n > 1
  {
    forall d: nat, s: nat :: Splits(n - 1, d, s) ==> SomePower(n, a, d, s)
  }

  predicate Splits(m: nat, d: nat, s: nat) {
    d % 2 == 1 && m == d * Pow(2, s)
  }

  ghost predicate SomePower(n: nat, a: nat, d: nat, s: nat)
    requires n > 1
  {
    Pow(a, d) % n == 1 || exists r: nat :: r < s && Pow(a, d * Pow(2, r)) % n == n - 1
  }

  lemma {:induction false} DoubledIsProduct(d: nat, r: nat)
    ensures Doubled(d, r) == d * Pow(2, r)
  {
    if r > 0 {
      DoubledIsProduct(d, r - 1);
      Associate(d, 2, Pow(2, r - 1));
      Associate(2, d, Pow(2, r - 1));
    }
  }

  lemma {:induction false} OnlyOnePart(d: nat, s: nat)
    requires d % 2 == 1
    ensures Doubled(d, s) > 0 && OddPart(Doubled(d, s)) == d && Twos(Doubled(d, s)) == s
  {
    if s > 0 {
      OnlyOnePart(d, s - 1);
      MulMod(2, Doubled(d, s - 1));
    }
  }

  /** For odd n the squarings decide what the powers decide. */
  lemma StrongExactly(n: nat, a: nat)
    requires n > 1 && n % 2 == 1
    ensures StrongProbablePrime(n, a) <==> StrongInPowers(n, a)
  {
    hide Pow, Square;
    var d0, s0 := OddPart(n - 1), Twos(n - 1);
    OddPartTwos(n - 1);
    DoubledIsProduct(d0, s0);
    SquaresArePowers(n, a);
    var m: nat := n - 1;
    forall d: nat, s: nat | Splits(m, d, s) ensures d == d0 && s == s0 {
      DoubledIsProduct(d, s);
      OnlyOnePart(d, s);
    }
  }

  lemma SquaresArePowers(n: nat, a: nat)
    requires n > 1 && n % 2 == 1
    ensures StrongProbablePrime(n, a) <==> SomePower(n, a, OddPart(n - 1), Twos(n - 1))
  {
    hide Pow, Square, OddPart;
    var d, s := OddPart(n - 1), Twos(n - 1);
    assert s > 0 by { EvenBelow(n); }
    forall r: nat ensures Square(n, a, r) == Pow(a, d * Pow(2, r)) % n {
      SquareIsPower(n, a, r);
      DoubledIsProduct(d, r);
    }
    assert d * Pow(2, 0) == d by { DoubledIsProduct(d, 0); }
  }

  lemma EvenBelow(n: nat)
    requires n > 1 && n % 2 == 1
    ensures Twos(n - 1) > 0
  {
  }
}
