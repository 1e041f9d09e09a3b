/** The byte-table sieve and the hybrid primality test: table, base-2 Fermat filter, recursive trial division (146.c). */
module HybridPrimality {
  import opened NumberTheory
  import opened SieveTheory
  import opened ModularPower

  /** The table holds 1 at the primes below its length and 0 elsewhere. */
  ghost predicate Sieved(t: seq<nat>) {
    forall n: nat :: n < |t| ==> t[n] == if IsPrime(n) then 1 else 0
  }

  ghost predicate Swept(t: seq<nat>, i: nat) {
    forall n: nat :: n < |t| ==> t[n] == if n >= 2 && (n == 2 || n % 2 == 1) && Survives(n, i) then 1 else 0
  }

  lemma SweptAt(t: seq<nat>, i: nat)
    requires Swept(t, i) && 2 <= i && i * i < |t|
    ensures i < |t| && (t[i] != 0 <==> IsPrime(i))
  {
    SurvivesIffPrime(i, i);
    SquareBeyond(i);
    if i > 2 && IsPrime(i) { assert !Divides(2, i); }
  }

  lemma SweptStep(t: seq<nat>, u: seq<nat>, i: nat)
    requires |t| == |u| && Swept(t, i) && i > 0
    requires forall n: nat :: n < |t| ==> u[n] == if IsPrime(i) && OnTrack(n, i * i, i) then 0 else t[n]
    ensures Swept(u, i + 1)
  {
    forall n: nat | n < |t|
      ensures Survives(n, i + 1) <==> Survives(n, i) && !(IsPrime(i) && OnTrack(n, i * i, i))
    {
      SurvivesStep(n, i, i + 1);
      TrackIsMultiples(i, n);
    }
  }

  lemma SweptDone(t: seq<nat>, i: nat)
    requires Swept(t, i) && i * i >= |t|
    ensures Sieved(t)
  {
    forall n: nat | n < |t| ensures t[n] == if IsPrime(n) then 1 else 0 {
      if n >= 2 {
        SurvivesIffPrime(n, i);
        if n > 2 && IsPrime(n) { assert !Divides(2, n); }
      }
    }
  }

  /** The first loop over a zeroed table: 2 and every odd number from 3 on. */
  method MarkCandidates(t: array<nat>)
    requires 2 < t.Length && forall n :: 0 <= n < t.Length ==> t[n] == 0
    modifies t
    ensures Swept(t[..], 2)
  {
    t[2] := 1;
    var i := 3;
    while i < t.Length
      invariant i % 2 == 1 && i >= 3
      invariant forall n :: 0 <= n < t.Length ==> t[n] == if n == 2 || (2 < n < i && n % 2 == 1) then 1 else 0
    {
      t[i] := 1;
      i := i + 2;
    }
  }

  method Strike(t: array<nat>, i: nat)
    requires i > 0
    modifies t
    ensures forall n: nat :: n < t.Length ==> t[n] == if OnTrack(n, i * i, i) then 0 else old(t[n])
  {
    var j := i * i;
    while j < t.Length
      invariant j >= i * i && OnTrack(j, i * i, i)
      invariant forall n: nat :: n < t.Length ==> t[n] == if n < j && OnTrack(n, i * i, i) then 0 else old(t[n])
      decreases t.Length - j
    {
      t[j] := 0;
      NextOnTrack(j, i * i, i);
      j := j + i;
    }
  }

  method Sieve(t: array<nat>)
    requires 2 < t.Length <= TWO_63 && forall n :: 0 <= n < t.Length ==> t[n] == 0
    modifies t
    ensures Sieved(t[..])
  {
    MarkCandidates(t);
    var i := 2;
    while i * i < t.Length
      invariant 2 <= i < TWO_32 && Swept(t[..], i)
      decreases t.Length - i
    {
      ghost var before := t[..];
      RootRange(i);
      SweptAt(t[..], i);
      if t[i] != 0 {
        Strike(t, i);
      }
      SweptStep(before, t[..], i);
      i := i + 1;
    }
    SweptDone(t[..], i);
  }

  // ---- the hybrid test -------------------------------------------------------------------------

  predicate SmallFactor(n: nat) {
    n % 5 == 0 || n % 7 == 0 || n % 11 == 0 || n % 13 == 0 || n % 17 == 0
  }

  /** What the program calls a prime, given a table sieved up to limit. */
  ghost predicate Accepted(n: nat, limit: nat)
    decreases n, 1
  {
    if n < limit then IsPrime(n)
    else if n % 2 == 0 || n % 3 == 0 then false
    else if n <= 3 then n > 1
    else
      !SmallFactor(n) && Pow(2, n - 1) % n == 1 && NoFactor(n, limit)
  }

  /** No number that the test accepts divides n and has a square up to n. */
  ghost predicate NoFactor(n: nat, limit: nat)
    decreases n, 0
  {
    forall i: nat :: 2 <= i < n && i * i <= n && Accepted(i, limit) ==> n % i != 0
  }

  /** No i with i * i <= n wraps when n fits: the square after it is still in range. */
  lemma TrialRange(i: nat, n: nat)
    requires i * i <= n && n < TWO_64
    ensures i < TWO_32 && (Fits(n) ==> i + 1 < TWO_32)
  {
    if i >= TWO_32 { SquareMonotone(TWO_32, i); }
    if Fits(n) {
      FitsRange(if n == 0 then 1 else n);
      if i >= TWO_32 - 1 { SquareMonotone(TWO_32 - 1, i); }
    }
  }

  lemma TrialFits(i: nat)
    requires 0 < i < TWO_32
    ensures Fits(i)
  {
    SquareMonotone(i - 1, TWO_32);
  }

  /** A power of 2 overflows, or n is so large and so free of factors that trial division comes to 2^32. */
  ghost predicate Overflows(n: nat, limit: nat) {
    && n > 3 && n >= limit && n % 2 != 0 && n % 3 != 0 && !SmallFactor(n)
    && (ModExpOf(2, n - 1, n).Overflow? || (Accepted(n, limit) && n >= (TWO_32 - 1) * (TWO_32 - 1)))
  }

  /** The outcome is an overflow if a signed 128-bit product overflows, or if the trial loop comes to 2^32, whose square
      wraps to 0. */
  method IsPrimeTest(t: array<nat>, n: nat) returns (r: Checked<bool>)
    requires Sieved(t[..]) && n < TWO_64
    ensures r.Value? ==> (r.v <==> Accepted(n, t.Length))
    ensures r.Overflow? <==> Overflows(n, t.Length)
    ensures n < t.Length || Fits(n) ==> r.Value?
    decreases n, 2
  {
    hide Fits, NoFactor;
    if n < t.Length {
      return Value(t[n] != 0);
    }
    if n % 2 == 0 || n % 3 == 0 { return Value(false); }
    if n <= 3 { return Value(n > 1); }
    if n % 5 == 0 { return Value(false); }
    if n % 7 == 0 { return Value(false); }
    if n % 11 == 0 { return Value(false); }
    if n % 13 == 0 { return Value(false); }
    if n % 17 == 0 { return Value(false); }
    r := FilterAndDivide(t, n);
  }

  /** The Fermat filter and the loop after it. */
  method FilterAndDivide(t: array<nat>, n: nat) returns (r: Checked<bool>)
    requires Sieved(t[..]) && 3 < n < TWO_64 && t.Length <= n && n % 2 != 0 && n % 3 != 0 && !SmallFactor(n)
    ensures r.Value? ==> (r.v <==> Accepted(n, t.Length))
    ensures r.Overflow? <==> Overflows(n, t.Length)
    ensures Fits(n) ==> r.Value?
    decreases n, 1
  {
    AcceptedBeyond(n, t.Length);
    hide Accepted, Fits, NoFactor, SmallFactor;
    var m := ModExp(2, n - 1, n);
    if m.Overflow? { return Overflow; }
    if m.v != 1 { return Value(false); }
    r := TrialDivision(t, n);
  }

  lemma AcceptedBeyond(n: nat, limit: nat)
    requires n > 3 && n >= limit && n % 2 != 0 && n % 3 != 0 && !SmallFactor(n)
    ensures Accepted(n, limit) <==> Pow(2, n - 1) % n == 1 && NoFactor(n, limit)
  {
  }

  /** The loop at the end. */
  method TrialDivision(t: array<nat>, n: nat) returns (r: Checked<bool>)
    requires Sieved(t[..]) && 3 < n < TWO_64
    ensures r == if !NoFactor(n, t.Length) then Value(false)
                 else if n >= (TWO_32 - 1) * (TWO_32 - 1) then Overflow else Value(true)
    ensures Fits(n) ==> r.Value?
    decreases n, 0
  {
    hide Accepted, Fits;
    var i: nat := 2;
    while i * i <= n
      invariant 2 <= i <= TWO_32 && (Fits(n) ==> i < TWO_32) && (i - 1) * (i - 1) <= n
      invariant forall d: nat :: 2 <= d < i && d * d <= n && Accepted(d, t.Length) ==> n % d != 0
      decreases n - i
    {
      TrialRange(i, n);
      SquareBeyond(i);
      TrialFits(i);
      var p := IsPrimeTest(t, i);
      if p.v {
        if n % i == 0 { return Value(false); }
      }
      i := i + 1;
    }
    TrialDone(n, i);
    if i == TWO_32 { return Overflow; }
    SquareMonotone(i, TWO_32 - 1);
    return Value(true);
  }

  lemma TrialDone(n: nat, i: nat)
    requires i * i > n
    ensures forall d: nat :: d * d <= n ==> d < i
  {
    forall d: nat | d * d <= n ensures d < i {
      if d >= i { SquareMonotone(i, d); }
    }
  }

  lemma PrimeNotMultiple(n: nat, d: nat)
    requires IsPrime(n) && 2 <= d < n
    ensures n % d != 0
  {
    assert !Divides(d, n);
  }

  lemma PrimeAccepted(n: nat, limit: nat)
    requires IsPrime(n) && n > 17
    ensures Accepted(n, limit)
  {
    PrimeNotMultiple(n, 2); PrimeNotMultiple(n, 3); PrimeNotMultiple(n, 5); PrimeNotMultiple(n, 7);
    PrimeNotMultiple(n, 11); PrimeNotMultiple(n, 13); PrimeNotMultiple(n, 17);
    assert !Divides(n, 2);
    Fermat(n, 2);
    forall i: nat | 2 <= i < n ensures n % i != 0 {
      PrimeNotMultiple(n, i);
    }
  }

  lemma SmallRejected(n: nat)
    requires n <= 17
    ensures n <= 1 || n % 2 == 0 || n % 3 == 0 || SmallFactor(n)
  {
  }

  /** The verdict for every number and every table: primality, but that the primes up to 17 are rejected unless the table
      holds them. */
  lemma {:induction false} VerdictExactly(n: nat, limit: nat)
    ensures Accepted(n, limit) <==> IsPrime(n) && (n < limit || n > 17)
    decreases n
  {
    if n >= limit {
      if n <= 17 {
        SmallRejected(n);
      } else if IsPrime(n) {
        PrimeAccepted(n, limit);
      } else if Accepted(n, limit) {
        var p := SmallPrimeDivisor(n);
        SquareBeyond(p);
        if p <= 17 { NoSmallDivisor(n, p); }
        VerdictExactly(p, limit);
      }
    }
  }

  lemma NoSmallDivisor(n: nat, p: nat)
    requires IsPrime(p) && p <= 17 && Divides(p, n)
    ensures n % 2 == 0 || n % 3 == 0 || SmallFactor(n)
  {
    assert p in {2, 3, 5, 7, 11, 13, 17} by { SmallPrimes(p); }
  }

  lemma SmallPrimes(p: nat)
    requires IsPrime(p) && p <= 17
    ensures p in {2, 3, 5, 7, 11, 13, 17}
  {
    assert p !in {2, 3, 5, 7, 11, 13, 17} ==> Divides(2, p) || Divides(3, p);
  }

  /** The test overflows exactly on what the table and the divisors up to 17 leave, if a turn of the power of 2 does, or on
      primes from (2^32 - 1)^2 on. */
  lemma OverflowsOn(n: nat, limit: nat)
    ensures Overflows(n, limit) <==>
      && n > 17 && n >= limit && (forall p :: IsPrime(p) && p <= 17 ==> !Divides(p, n))
      && (SomeTurnOverflows(2, n - 1, n) || (IsPrime(n) && n >= (TWO_32 - 1) * (TWO_32 - 1)))
  {
    NoSmallPrimes(n);
    VerdictExactly(n, limit);
    hide Accepted, IsPrime, Divides, SomeTurnOverflows, ModExpOf;
    if n <= 17 {
      SmallRejected(n);
    } else {
      OverflowsExactly(2, n - 1, n);
    }
  }

  lemma NoSmallPrimes(n: nat)
    ensures n % 2 != 0 && n % 3 != 0 && !SmallFactor(n) <==> forall p :: IsPrime(p) && p <= 17 ==> !Divides(p, n)
  {
    if p :| IsPrime(p) && p <= 17 && Divides(p, n) { NoSmallDivisor(n, p); }
    forall p | p in {2, 3, 5, 7, 11, 13, 17} ensures IsPrime(p) { forall d | 2 <= d < p ensures !Divides(d, p) {} }
    assert Divides(2, n) <==> n % 2 == 0;
    assert Divides(3, n) <==> n % 3 == 0;
    assert SmallFactor(n) <==> Divides(5, n) || Divides(7, n) || Divides(11, n) || Divides(13, n) || Divides(17, n);
  }

  /** With a table beyond the small divisors the test is exact. */
  lemma AcceptedExactly(n: nat, limit: nat)
    requires limit > 17
    ensures Accepted(n, limit) <==> IsPrime(n)
  {
    VerdictExactly(n, limit);
  }

  /** The test is exact on every number if and only if the table reaches beyond the small divisors. */
  lemma ExactIffTableLargeEnough(limit: nat)
    ensures (forall n: nat :: Accepted(n, limit) <==> IsPrime(n)) <==> limit > 17
  {
    if limit > 17 {
      forall n: nat ensures Accepted(n, limit) <==> IsPrime(n) {
        AcceptedExactly(n, limit);
      }
    } else {
      assert !Accepted(17, limit);
      assert forall d :: 2 <= d < 17 ==> !Divides(d, 17);
      assert IsPrime(17);
    }
  }
}
