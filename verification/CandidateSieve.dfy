/** The sieve over an array of candidates +1 and -1 modulo 6, with its early starting index (prime.c). */
module CandidateSieve {
  import opened NumberTheory
  import opened SieveTheory

  predicate IsCandidate(v: nat) {
    v % 6 == 1 || v % 6 == 5
  }

  /** What the program has appended when its first loop stands at v: 2, 3 and the candidates from 5 on below v. */
  function Listed(v: nat): (l: seq<nat>)
    ensures |l| >= 2
  {
    if v <= 3 then [2, 3] else if IsCandidate(v - 1) then Listed(v - 1) + [v - 1] else Listed(v - 1)
  }

  /** The k-th entry of the list: 2, 3, and from then on alternately 6t - 1 and 6t + 1. */
  function Candidate(k: nat): nat {
    if k < 2 then 2 + k else if k % 2 == 0 then 6 * (k / 2) - 1 else 6 * (k / 2) + 1
  }

  lemma NextCandidate(n: nat, v: nat)
    requires n >= 2 && Candidate(n - 1) < v <= Candidate(n)
    ensures IsCandidate(v) <==> v == Candidate(n)
    ensures Candidate(n) < Candidate(n + 1)
  {
    var t, d := n / 2, Candidate(n) - v;
    assert d < 4;
    if n % 2 == 0 {
      assert v == 6 * (t - 1) + (5 - d);
    } else {
      assert v == 6 * t + (1 - d);
    }
  }

  lemma {:induction false} ListedIsCandidates(v: nat)
    ensures var l := Listed(v);
            && (forall k: nat :: k < |l| ==> l[k] == Candidate(k))
            && Candidate(|l|) >= v && (|l| > 2 ==> Candidate(|l| - 1) < v)
  {
    if v > 3 {
      ListedIsCandidates(v - 1);
      if v > 4 {
        NextCandidate(|Listed(v - 1)|, v - 1);
      }
    }
  }

  /** A number is listed if and only if it is 2, 3 or a candidate from 5 on below v. */
  lemma {:induction false} ListedExactly(v: nat, x: nat)
    ensures x in Listed(v) <==> x == 2 || x == 3 || (5 <= x < v && IsCandidate(x))
  {
    if v > 3 {
      ListedExactly(v - 1, x);
    }
  }

  /** The sieve may start at index i * i: the square of the i-th candidate does not lie before it, and i * i does not wrap there. */
  lemma StartsInTime(i: nat, k: nat)
    requires i >= 1 && Candidate(i) * Candidate(i) <= Candidate(k) < TWO_32
    ensures (i * i) % TWO_32 <= k
  {
    if i >= 2 {
      SquareMonotone(3 * i - 2, Candidate(i));
      SquareBound(i, k);
    }
  }

  lemma SquareBound(i: nat, k: nat)
    requires i >= 2 && (3 * i - 2) * (3 * i - 2) <= 3 * k + 2
    ensures i * i <= k
  {
    MulMonotone(2, i, i, i);
    assert (3 * i - 2) * (3 * i - 2) == 9 * (i * i) - 12 * i + 4;
  }

  /** Entry k is its candidate or, if that is no prime, possibly 0. */
  ghost predicate Entry(s: seq<nat>, k: nat)
    requires k < |s|
  {
    s[k] == Candidate(k) || (s[k] == 0 && !IsPrime(Candidate(k)))
  }

  /** Entry k is 0 if a listed prime of index m divides it from its square on. */
  ghost predicate StruckBy(s: seq<nat>, m: nat, k: nat)
    requires k < |s|
  {
    IsPrime(Candidate(m)) && Divides(Candidate(m), Candidate(k)) && Candidate(m) * Candidate(m) <= Candidate(k) ==> s[k] == 0
  }

  ghost predicate Swept(s: seq<nat>, i: nat) {
    && (forall k: nat :: k < |s| ==> Entry(s, k))
    && (forall m: nat, k: nat :: 1 <= m < i && k < |s| ==> StruckBy(s, m, k))
  }

  lemma ProperMultiple(p: nat, v: nat)
    requires p >= 2 && v > 0 && v % p == 0 && v != p
    ensures !IsPrime(v)
  {
    if v < p {
      SmallNotDivisible(p, v);
    }
    assert Divides(p, v);
  }

  lemma SweptDone(s: seq<nat>, v: nat, k: nat)
    requires |s| == |Listed(v)| && Swept(s, |s|) && k < |s|
    ensures s[k] == if IsPrime(Candidate(k)) then Candidate(k) else 0
  {
    var c := Candidate(k);
    assert Entry(s, k);
    if !IsPrime(c) {
      assert k >= 2;
      var p := SmallPrimeDivisor(c);
      var m := PrimeIndex(p, v, k);
      assert StruckBy(s, m, k);
    } else {
      assert c > 0;
    }
  }

  /** The prime divisors of a listed number are listed before it. */
  lemma PrimeIndex(p: nat, v: nat, k: nat) returns (m: nat)
    requires k < |Listed(v)| && k >= 2 && IsPrime(p) && Divides(p, Candidate(k)) && p <= Candidate(k)
    ensures 1 <= m < |Listed(v)| && Candidate(m) == p
  {
    var c := Candidate(k);
    ListedIsCandidates(v);
    ListedExactly(v, c);
    assert c in Listed(v);
    CandidateDivisor(p, c);
    ListedExactly(v, p);
    m :| 0 <= m < |Listed(v)| && Listed(v)[m] == p;
  }

  lemma Mod6(q: nat, r: nat)
    requires r < 6
    ensures (6 * q + r) % 2 == r % 2 && (6 * q + r) % 3 == r % 3
  {
    DivModUnique(2, 3 * q + r / 2, r % 2);
    DivModUnique(3, 2 * q + r / 3, r % 3);
  }

  lemma CandidateIff(v: nat)
    ensures IsCandidate(v) <==> v % 2 != 0 && v % 3 != 0
  {
    Mod6(v / 6, v % 6);
  }

  lemma PrimeIsCandidate(p: nat)
    requires IsPrime(p) && p > 3
    ensures p >= 5 && IsCandidate(p)
  {
    CandidateIff(p);
    assert !Divides(2, p) && !Divides(3, p);
  }

  lemma CandidateDivisor(p: nat, c: nat)
    requires c >= 5 && IsCandidate(c) && IsPrime(p) && Divides(p, c)
    ensures p >= 5 && IsCandidate(p)
  {
    CandidateIff(c);
    if p > 3 {
      PrimeIsCandidate(p);
    }
  }

  // ---- the program -----------------------------------------------------------------------------

  class Seq {
    const s: array<nat>
    var i: nat

    constructor (capacity: nat)
      ensures fresh(s) && s.Length == capacity && i == 0
    {
      s := new nat[capacity];
      i := 0;
    }

    ghost predicate Valid()
      reads this
    {
      i <= s.Length
    }

    ghost function Contents(): seq<nat>
      requires Valid()
      reads this, s
    {
      s[..i]
    }

    method AddEl(l: nat)
      requires Valid() && i < s.Length
      modifies this`i, s
      ensures Valid() && i == old(i) + 1
      ensures Contents() == old(Contents()) + [l]
    {
      s[i] := l;
      i := i + 1;
    }
  }

  method Collect(primes: Seq, lim: nat)
    requires primes.Valid() && primes.i == 0 && lim < TWO_32 && primes.s.Length >= |Listed(lim)|
    modifies primes`i, primes.s
    ensures primes.Valid() && primes.Contents() == Listed(lim)
  {
    primes.AddEl(2);
    primes.AddEl(3);
    var v := 3;
    ghost var half := 1;
    while v < lim
      invariant v == 2 * half + 1 && half >= 1 && (v == 3 || v <= lim + 1)
      invariant primes.Valid() && primes.Contents() == Listed(v)
    {
      ListedStep(half, lim, Listed(v), Listed(v + 2));
      if IsCandidate(v) {
        primes.AddEl(v);
      }
      v := v + 2;
      half := half + 1;
    }
    ListedEnd(half, lim);
  }

  lemma ListedEnd(half: nat, lim: nat)
    requires half >= 1 && (half == 1 || 2 * half <= lim) && 2 * half + 1 >= lim
    ensures Listed(2 * half + 1) == Listed(lim)
  {
    if half > 1 && lim == 2 * half { assert lim % 2 == 0 && !IsCandidate(lim); }
  }

  lemma ListedStep(half: nat, lim: nat, now: seq<nat>, next: seq<nat>)
    requires half >= 1 && 2 * half + 1 < lim && now == Listed(2 * half + 1) && next == Listed(2 * half + 3)
    ensures next == if IsCandidate(2 * half + 1) then now + [2 * half + 1] else now
    ensures IsCandidate(2 * half + 1) ==> |now| < |Listed(lim)|
  {
    assert !IsCandidate(2 * half + 2) by { CandidateIff(2 * half + 2); }
    ListedGrows(2 * half + 2, lim);
  }

  lemma {:induction false} ListedGrows(v: nat, w: nat)
    requires v <= w
    ensures |Listed(v)| <= |Listed(w)|
    decreases w
  {
    if v < w { ListedGrows(v, w - 1); }
  }

  /** The inner loop's effect on one entry. */
  function Struck(x: nat, p: nat): nat
    requires p > 0
  {
    if x != 0 && x % p == 0 && x != p then 0 else x
  }

  lemma StruckEntry(s: seq<nat>, u: seq<nat>, i: nat, k: nat)
    requires k < |s| == |u| && 1 <= i && Entry(s, k) && (u[k] == s[k] || u[k] == Struck(s[k], Candidate(i)))
    ensures Entry(u, k)
  {
    if u[k] != s[k] {
      ProperMultiple(Candidate(i), Candidate(k));
    }
  }

  lemma StruckMultiple(s: seq<nat>, u: seq<nat>, i: nat, k: nat)
    requires k < |s| == |u| && 1 <= i && Entry(s, k) && Candidate(k) < TWO_32
    requires u[k] == if (i * i) % TWO_32 <= k then Struck(s[k], Candidate(i)) else s[k]
    ensures StruckBy(u, i, k)
  {
    var p := Candidate(i);
    if Divides(p, Candidate(k)) && p * p <= Candidate(k) {
      StartsInTime(i, k);
      SquareBeyond(p);
    }
  }

  lemma SweptStep(s: seq<nat>, u: seq<nat>, i: nat)
    requires |s| == |u| && 1 <= i && Swept(s, i)
    requires forall k: nat :: k < |s| ==> Candidate(k) < TWO_32
    requires forall k: nat :: k < |s| ==> u[k] == if (i * i) % TWO_32 <= k then Struck(s[k], Candidate(i)) else s[k]
    ensures Swept(u, i + 1)
  {
    forall k: nat | k < |s| ensures Entry(u, k) && StruckBy(u, i, k) {
      StruckEntry(s, u, i, k);
      StruckMultiple(s, u, i, k);
    }
    forall m: nat, k: nat | 1 <= m < i && k < |s| ensures StruckBy(u, m, k) {
      assert StruckBy(s, m, k);
    }
  }

  lemma SweptSkip(s: seq<nat>, i: nat)
    requires 1 <= i < |s| && Swept(s, i) && s[i] == 0
    ensures Swept(s, i + 1)
  {
    assert Entry(s, i);
    assert Candidate(i) > 0;
  }

  method StrikeFrom(s: array<nat>, count: nat, i: nat, pi: nat)
    requires pi > 0 && count <= s.Length
    modifies s
    ensures forall k: nat :: k < count ==>
      s[k] == if (i * i) % TWO_32 <= k then Struck(old(s[k]), pi) else old(s[k])
  {
    var start := (i * i) % TWO_32;
    var j := start;
    while j < count
      invariant start <= j
      invariant forall k: nat :: k < count ==> s[k] == if start <= k < j then Struck(old(s[k]), pi) else old(s[k])
    {
      if s[j] != 0 {
        if s[j] % pi == 0 && s[j] != pi {
          s[j] := 0;
        }
      }
      j := j + 1;
    }
  }

  method StrikeAll(s: array<nat>, count: nat)
    requires 2 <= count <= s.Length && Swept(s[..count], 1)
    requires forall k: nat :: k < count ==> Candidate(k) < TWO_32
    modifies s
    ensures Swept(s[..count], count)
  {
    var i := 1;
    while i < count
      invariant 1 <= i <= count && Swept(s[..count], i)
    {
      var pi := s[i];
      ghost var before := s[..count];
      if pi != 0 {
        assert Entry(before, i);
        StrikeFrom(s, count, i, pi);
        SweptStep(before, s[..count], i);
      } else {
        SweptSkip(before, i);
      }
      i := i + 1;
    }
  }

  lemma SweptStart(s: seq<nat>, lim: nat)
    requires s == Listed(lim) && lim < TWO_32
    ensures Swept(s, 1) && forall k: nat :: k < |s| ==> Candidate(k) < TWO_32
  {
    ListedIsCandidates(lim);
    forall k: nat | k < |s| ensures Candidate(k) < TWO_32 {
      ListedExactly(lim, s[k]);
    }
  }

  /** At the end an entry is its original value if that is prime and 0 if not, whatever lim is. */
  method SieveOfErat(primes: Seq, lim: nat)
    requires primes.Valid() && primes.i == 0 && lim < TWO_32 && primes.s.Length >= |Listed(lim)|
    modifies primes`i, primes.s
    ensures primes.Valid() && primes.i == |Listed(lim)|
    ensures forall k: nat :: k < primes.i ==> primes.s[k] == if IsPrime(Listed(lim)[k]) then Listed(lim)[k] else 0
  {
    Collect(primes, lim);
    SweptStart(primes.Contents(), lim);
    StrikeAll(primes.s, primes.i);
    ListedIsCandidates(lim);
    forall k: nat | k < primes.i
      ensures primes.s[k] == if IsPrime(Listed(lim)[k]) then Listed(lim)[k] else 0
    {
      SweptDone(primes.Contents(), lim, k);
    }
  }

  /** So from lim = 4 on the numbers left are the primes below lim. */
  lemma LeftAreThePrimes(lim: nat, x: nat)
    requires lim >= 4
    ensures x in Listed(lim) && IsPrime(x) <==> x < lim && IsPrime(x)
  {
    ListedExactly(lim, x);
    if IsPrime(x) && x > 3 {
      PrimeIsCandidate(x);
    }
  }
}
