/** The table-backed Miller-Rabin primality test (test_prime.c). */
module PrimalityTest {
  import opened NumberTheory
  import opened ModularPower
  import opened MillerRabin
  import opened BitSieve

  const BASES: seq<nat> := [2, 3, 5, 7, 11, 13, 17, 19, 23]

  predicate SmallFactor(n: nat) {
    n % 3 == 0 || n % 5 == 0 || n % 7 == 0 || n % 11 == 0 || n % 13 == 0 || n % 17 == 0
  }

  /** Going through the bases from the i-th on, n meets itself before it fails a witness test. */
  ghost predicate PassesFrom(n: nat, i: nat)
    requires n > 1 && i <= 9
    decreases 9 - i
  {
    i == 9 || n == BASES[i] || (StrongProbablePrime(n, BASES[i]) && PassesFrom(n, i + 1))
  }

  /** What the program calls a prime, given a table sieved up to limit. */
  ghost predicate Accepted(n: nat, limit: nat) {
    if n <= 2 || n % 2 == 0 then
      n == 2
    else if n < limit then
      IsPrime(n)
    else
      !SmallFactor(n) && PassesFrom(n, 0)
  }

  /** Going through the bases from the i-th on, a power overflows before n meets itself or fails. */
  ghost predicate OverflowsFrom(n: nat, i: nat)
    requires n > 1 && i <= 9
    decreases 9 - i
  {
    && i < 9 && n != BASES[i]
    && (PowerOverflows(n, BASES[i]) || (StrongProbablePrime(n, BASES[i]) && OverflowsFrom(n, i + 1)))
  }

  /** The test returns the verdict Accepted describes unless a 128-bit product overflows, which no n that Fits allows. */
  method IsPrimeTest(table: array<bv8>, limit: nat, n: nat) returns (r: Checked<bool>)
    requires limit / 16 == table.Length && Sieved(table[..]) && n < TWO_64
    requires n < limit && n % 2 == 1 ==> Byte(n) < table.Length
    ensures r.Value? ==> (r.v <==> Accepted(n, limit))
    ensures r.Overflow? <==> n > 2 && n % 2 == 1 && n >= limit && !SmallFactor(n) && OverflowsFrom(n, 0)
    ensures Fits(n) || n < limit ==> r.Value?
  {
    if n == 0 { return Value(false); }
    if n == 1 { return Value(false); }
    if n == 2 { return Value(true); }
    if n % 2 == 0 { return Value(false); }
    if n < limit {
      return Value(Bit(table[..], n));
    }
    if n % 2 == 0 || n % 3 == 0 { return Value(false); }
    if n <= 3 { return Value(n > 1); }
    if n % 5 == 0 { return Value(false); }
    if n % 7 == 0 { return Value(false); }
    if n % 11 == 0 { return Value(false); }
    if n % 13 == 0 { return Value(false); }
    if n % 17 == 0 { return Value(false); }
    var i := 0;
    while i < 9
      invariant i <= 9 && (PassesFrom(n, 0) <==> PassesFrom(n, i))
      invariant OverflowsFrom(n, 0) <==> OverflowsFrom(n, i)
    {
      if n == BASES[i] { return Value(true); }
      var pass := MillerRabinTest(n, BASES[i]);
      if pass.Overflow? { return Overflow; }
      if !pass.v { return Value(false); }
      i := i + 1;
    }
    return Value(true);
  }

  lemma NotMultiple(n: nat, d: nat)
    requires IsPrime(n) && 2 <= d < n
    ensures n % d != 0
  {
    assert !Divides(d, n);
  }

  lemma {:induction false} PrimePassesFrom(n: nat, i: nat)
    requires IsPrime(n) && i <= 9
    ensures PassesFrom(n, i)
    decreases 9 - i
  {
    if i < 9 && n != BASES[i] {
      BasePrime(i);
      assert !Divides(n, BASES[i]);
      PrimesPass(n, BASES[i]);
      PrimePassesFrom(n, i + 1);
    }
  }

  lemma BasePrime(i: nat)
    requires i < 9
    ensures forall d :: 2 <= d < BASES[i] ==> !Divides(d, BASES[i])
  {
  }

  lemma PrimeAccepted(n: nat, limit: nat)
    requires IsPrime(n) && (n < limit || n > 17)
    ensures Accepted(n, limit)
  {
    if n > 2 {
      NotMultiple(n, 2);
      if n >= limit {
        NotMultiple(n, 3); NotMultiple(n, 5); NotMultiple(n, 7);
        NotMultiple(n, 11); NotMultiple(n, 13); NotMultiple(n, 17);
        PrimePassesFrom(n, 0);
      }
    }
  }

  /** No prime is ever rejected exactly when the table reaches beyond the small divisors. */
  lemma NeverRejectsPrimes(limit: nat)
    ensures (forall n: nat :: IsPrime(n) ==> Accepted(n, limit)) <==> limit > 17
  {
    if limit > 17 {
      forall n: nat | IsPrime(n) ensures Accepted(n, limit) {
        PrimeAccepted(n, limit);
      }
    } else {
      assert BASES[6] == 17;
      BasePrime(6);
      assert IsPrime(17) && !Accepted(17, limit);
    }
  }

  // ---- what acceptance means beyond the table ------------------------------------------------------------

  lemma SmallPrimes(a: nat)
    ensures IsPrime(a) && a <= 23 <==> a in BASES
  {
    if a in BASES {
      var i :| 0 <= i < 9 && BASES[i] == a;
      BasePrime(i);
    } else if 2 <= a <= 23 {
      assert Divides(2, a) || Divides(3, a);
    }
  }

  lemma NoSmallDivisor(n: nat)
    requires n % 2 == 1
    ensures !SmallFactor(n) <==> forall d :: 3 <= d <= 17 ==> !Divides(d, n)
  {
    if d :| 3 <= d <= 17 && Divides(d, n) {
      if Divides(2, d) { DividesTransitive(2, d, n); }
      if Divides(3, d) { DividesTransitive(3, d, n); }
      assert SmallFactor(n);
    }
    assert SmallFactor(n) <==> Divides(3, n) || Divides(5, n) || Divides(7, n) || Divides(11, n) || Divides(13, n) || Divides(17, n);
  }

  /** From the i-th base on, exactly the bases below n are tried; n is larger than all of them or one of the last two. */
  lemma {:induction false} PassesAll(n: nat, i: nat)
    requires i <= 9 && (n > 23 || (n == 23 && i <= 8) || (n == 19 && i <= 7))
    ensures PassesFrom(n, i) <==> forall k :: i <= k < 9 && BASES[k] < n ==> StrongProbablePrime(n, BASES[k])
    decreases 9 - i
  {
    hide StrongProbablePrime;
    if i < 9 && n != BASES[i] {
      PassesAll(n, i + 1);
    }
  }

  /** An odd n beyond the table is called prime exactly if nothing from 3 to 17 divides it and it passes the strong test,
      in powers, to every prime base below n and up to 23. */
  lemma AcceptedExactly(n: nat, limit: nat)
    requires n % 2 == 1 && n > 2 && n >= limit
    ensures Accepted(n, limit) <==>
      && (forall d :: 3 <= d <= 17 ==> !Divides(d, n))
      && (forall a: nat :: a < n && IsPrime(a) && a <= 23 ==> StrongInPowers(n, a))
  {
    hide StrongProbablePrime, StrongInPowers;
    NoSmallDivisor(n);
    if !SmallFactor(n) {
      PassesAll(n, 0);
      forall a: nat ensures IsPrime(a) && a <= 23 <==> exists k :: 0 <= k < 9 && BASES[k] == a { SmallPrimes(a); }
      forall a: nat ensures StrongProbablePrime(n, a) <==> StrongInPowers(n, a) { StrongExactly(n, a); }
    }
  }

  /** Some turn of the first power of the test to base a overflows, however n - 1 is split. */
  ghost predicate StopsAt(n: nat, a: nat)
    requires n > 1
  {
    forall d: nat, s: nat :: StopsOn(n, a, d, s)
  }

  ghost predicate StopsOn(n: nat, a: nat, d: nat, s: nat)
    requires n > 1
  {
    Splits(n - 1, d, s) ==> SomeTurnOverflows(a, d, n)
  }

  lemma StopsExactly(n: nat, a: nat)
    requires n > 1 && n % 2 == 1
    ensures PowerOverflows(n, a) <==> StopsAt(n, a)
  {
    hide SomeTurnOverflows, ModExpLoop, Pow;
    var m, d0, s0: nat := n - 1, OddPart(n - 1), Twos(n - 1);
    OddPartTwos(m);
    DoubledIsProduct(d0, s0);
    OverflowsExactly(a, d0, n);
    assert StopsOn(n, a, d0, s0) <==> SomeTurnOverflows(a, d0, n);
    forall d: nat, s: nat | Splits(m, d, s) ensures d == d0 {
      DoubledIsProduct(d, s);
      OnlyOnePart(d, s);
    }
  }

  ghost predicate StopsFirst(n: nat, i: nat, k: nat)
    requires n > 1 && i <= 9
  {
    i <= k < 9 && BASES[k] < n && PowerOverflows(n, BASES[k]) && forall j: nat :: i <= j < k ==> StrongProbablePrime(n, BASES[j])
  }

  /** The first base to overflow comes before any that fails. */
  lemma {:induction false} FirstStop(n: nat, i: nat)
    requires i <= 9 && (n > 23 || (n == 23 && i <= 8) || (n == 19 && i <= 7))
    ensures OverflowsFrom(n, i) <==> exists k: nat :: StopsFirst(n, i, k)
    decreases 9 - i
  {
    hide StrongProbablePrime, PowerOverflows;
    if i < 9 && n != BASES[i] {
      FirstStop(n, i + 1);
      assert StopsFirst(n, i, i) <==> PowerOverflows(n, BASES[i]);
      forall k: nat | k > i ensures StopsFirst(n, i, k) <==> StrongProbablePrime(n, BASES[i]) && StopsFirst(n, i + 1, k) {}
      if k: nat :| StopsFirst(n, i, k) {
        assert k == i || StopsFirst(n, i + 1, k);
      }
      if OverflowsFrom(n, i) && !PowerOverflows(n, BASES[i]) {
        var k: nat :| StopsFirst(n, i + 1, k);
        assert StopsFirst(n, i, k);
      }
    }
  }

  /** The power to base a overflows, and n passes the strong test to every smaller prime base. */
  ghost predicate StopsAtPrime(n: nat, a: nat)
    requires n > 1
  {
    IsPrime(a) && a <= 23 && a < n && StopsAt(n, a) && forall b: nat :: IsPrime(b) && b < a ==> StrongInPowers(n, b)
  }

  lemma SameStop(n: nat, k: nat)
    requires n % 2 == 1 && n > 2 && k < 9
    ensures StopsFirst(n, 0, k) <==> StopsAtPrime(n, BASES[k])
  {
    hide StrongProbablePrime, PowerOverflows, StopsAt, StrongInPowers;
    var a := BASES[k];
    SmallPrimes(a);
    StopsExactly(n, a);
    hide IsPrime;
    forall b: nat ensures StrongProbablePrime(n, b) <==> StrongInPowers(n, b) { StrongExactly(n, b); }
    forall b: nat | IsPrime(b) && b < a ensures exists j: nat :: j < k && BASES[j] == b { SmallPrimes(b); }
    forall j: nat | j < k ensures IsPrime(BASES[j]) && BASES[j] < a { SmallPrimes(BASES[j]); }
  }

  /** An odd n beyond the table that nothing from 3 to 17 divides overflows the test exactly if the power to some prime base
      below it and up to 23 does, and n passes the strong test to every smaller prime base. */
  lemma OverflowsInOrder(n: nat)
    requires n % 2 == 1 && n > 2 && !SmallFactor(n)
    ensures OverflowsFrom(n, 0) <==> exists a: nat :: StopsAtPrime(n, a)
  {
    FirstStop(n, 0);
    forall k: nat | k < 9 ensures StopsFirst(n, 0, k) <==> StopsAtPrime(n, BASES[k]) { SameStop(n, k); }
    hide StopsAt, StrongInPowers, OverflowsFrom, PowerOverflows, StrongProbablePrime;
    if a: nat :| StopsAtPrime(n, a) {
      SmallPrimes(a);
      var k: nat :| k < 9 && BASES[k] == a;
      assert StopsFirst(n, 0, k);
    }
    hide IsPrime;
  }

  // ---- beyond the range that fits ------------------------------------------------------------------------

  lemma Turn(result: nat, b: nat, exp: nat, mod: nat, q: nat, result2: nat, p: nat, b2: nat)
    requires exp > 0 && result2 < mod && b2 < mod && b * b < TWO_127 && b * b == mod * p + b2
    requires if exp % 2 == 1 then result * b < TWO_127 && result * b == mod * q + result2 else result2 == result
    ensures ModExpLoop(result, b, exp, mod) == ModExpLoop(result2, b2, exp / 2, mod)
  {
    DivModUnique(mod, p, b2);
    if exp % 2 == 1 { DivModUnique(mod, q, result2); }
  }

  lemma Stop(result: nat, b: nat, exp: nat, mod: nat)
    requires exp > 0 && mod > 0 && b * b >= TWO_127
    ensures ModExpLoop(result, b, exp, mod) == Overflow
  {
  }

  /** A 64-bit number on which the first witness test leaves the signed 128-bit range: it has no small factor, and
      computing 2 to the odd part of n - 1 overflows. */
  lemma NotAll64BitNumbersFit()
    ensures var n := 14000000000000000299;
      && n < TWO_64 && n % 2 == 1 && !SmallFactor(n)
      && OddPart(n - 1) == 7000000000000000149
      && ModExpOf(2, 7000000000000000149, n) == Overflow
  {
    hide ModExpLoop;
    var n := 14000000000000000299;
    assert OddPart(n - 1) == OddPart(7000000000000000149);
    Turn(1, 2, 7000000000000000149, n, 0, 2, 0, 4);
    Turn(2, 4, 3500000000000000074, n, 0, 2, 0, 16);
    Turn(2, 16, 1750000000000000037, n, 0, 32, 0, 256);
    Turn(32, 256, 875000000000000018, n, 0, 32, 0, 65536);
    Turn(32, 65536, 437500000000000009, n, 0, 2097152, 0, 4294967296);
    Turn(2097152, 4294967296, 218750000000000004, n, 0, 2097152, 1, 4446744073709551317);
    Turn(2097152, 4446744073709551317, 109375000000000002, n, 0, 2097152, 1412395204076501080, 13915485334582611569);
    Stop(2097152, 13915485334582611569, 54687500000000001, n);
  }
}
