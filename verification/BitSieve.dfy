/** The odd-only bitmap with its plain and its mod-30 wheel sieve (test_prime.c). */
module BitSieve {
  import opened NumberTheory
  import opened SieveTheory

  // ---- the bitmap --------------------------------------------------------------------------

  /** 1 << b in a byte. */
  function Mask(b: nat): bv8
    requires b < 8
  {
    match b
    case 0 => 0x01 case 1 => 0x02 case 2 => 0x04 case 3 => 0x08
    case 4 => 0x10 case 5 => 0x20 case 6 => 0x40 case _ => 0x80
  }

  /** Where the bit of the odd number n lives: byte Byte(n), place Place(n). */
  function Byte(n: nat): nat {
    (n / 2) / 8
  }

  function Place(n: nat): (b: nat)
    ensures b < 8
  {
    (n / 2) % 8
  }

  lemma Layout(n: nat, m: nat)
    ensures n / 16 == Byte(n)
    ensures n % 2 == 1 && m % 2 == 1 && Byte(n) == Byte(m) && Place(n) == Place(m) ==> n == m
  {
  }

  ghost predicate OddComposite(n: nat) {
    n % 2 == 1 && n > 1 && !IsPrime(n)
  }

  /** A buffer of bits(limit) bytes for which no odd composite below limit lies outside. */
  ghost predicate Covers(len: nat, limit: nat) {
    limit / 16 == len && forall n: nat :: OddComposite(n) && n < limit ==> Byte(n) < len
  }

  lemma Multiple(i: nat, n: nat)
    requires i >= 2 && n % 2 == 1 && Divides(i, n) && i < n
    ensures OddComposite(n)
  {
  }

  /** An odd number that is tested, its square lying below limit, lies inside. */
  lemma RootInside(len: nat, limit: nat, i: nat)
    requires Covers(len, limit) && i >= 2 && i % 2 == 1 && i * i < limit
    ensures Byte(i) < len
  {
    OddProduct(i / 2, i / 2);
    SquareBeyond(i);
    MulMod(i, i);
    Multiple(i, i * i);
    Layout(i, i);
    Layout(i * i, i);
  }

  /** So does what is struck for it. */
  lemma TrackInside(len: nat, limit: nat, i: nat, step: nat, n: nat)
    requires Covers(len, limit) && i >= 2 && i % 2 == 1 && (step == i || step == 2 * i)
    requires n < limit && n % 2 == 1 && OnTrack(n, i * i, step)
    ensures Byte(n) < len
  {
    StruckBy(n, i, step);
    SquareBeyond(i);
    Multiple(i, n);
  }

  /** The odd numbers whose bits the plain sieve looks at: it tests those whose square lies below limit, and for the
      primes among them strikes the multiples from the square on. */
  ghost predicate Touched(n: nat, limit: nat) {
    && n % 2 == 1
    && ((n >= 2 && n * n < limit)
        || (n < limit && exists i: nat :: i >= 2 && i % 2 == 1 && i * i < limit && IsPrime(i) && OnTrack(n, i * i, i)))
  }

  /** The limits for which it stays inside its buffer are exactly those the buffer covers. */
  lemma CoversExactly(limit: nat)
    ensures Covers(limit / 16, limit) <==> forall n: nat :: Touched(n, limit) ==> Byte(n) < limit / 16
  {
    var len := limit / 16;
    if Covers(len, limit) {
      forall n: nat | Touched(n, limit) ensures Byte(n) < len {
        if n >= 2 && n * n < limit {
          RootInside(len, limit, n);
        } else {
          var i: nat :| i >= 2 && i % 2 == 1 && i * i < limit && IsPrime(i) && OnTrack(n, i * i, i);
          TrackInside(len, limit, i, i, n);
        }
      }
    }
    if forall n: nat :: Touched(n, limit) ==> Byte(n) < len {
      forall n: nat | OddComposite(n) && n < limit ensures Byte(n) < len { CompositeTouched(n, limit); }
    }
  }

  lemma CompositeTouched(n: nat, limit: nat)
    requires OddComposite(n) && n < limit
    ensures Touched(n, limit)
  {
    var p := SmallPrimeDivisor(n);
    TrackIsMultiples(p, n);
    StruckBy(n, p, p);
  }

  /** Every odd number below limit has its bit inside only for limits of the form 16k and 16k + 1. */
  lemma HoldsAllExactly(limit: nat)
    ensures limit % 16 <= 1 <==> forall n: nat :: n < limit && n % 2 == 1 ==> Byte(n) < limit / 16
  {
    var k := limit / 16;
    if limit % 16 <= 1 {
      forall n: nat | n < limit && n % 2 == 1 ensures Byte(n) < k { Layout(n, n); }
    } else {
      var n := 16 * k + 1;
      Layout(n, n);
      assert n < limit && n % 2 == 1 && Byte(n) == k;
    }
  }

  predicate ByteBit(x: bv8, n: nat) {
    n % 2 == 1 && x & Mask(Place(n)) != 0
  }

  predicate Bit(p: seq<bv8>, n: nat)
    requires n % 2 == 1 ==> Byte(n) < |p|
  {
    n % 2 == 1 && ByteBit(p[Byte(n)], n)
  }

  function WithBit(x: bv8, i: nat, v: bool): bv8 {
    if v then x | Mask(Place(i)) else x & !Mask(Place(i))
  }

  lemma WithBitView(x: bv8, i: nat, v: bool, n: nat)
    requires i % 2 == 1 && Byte(n) == Byte(i)
    ensures ByteBit(WithBit(x, i, v), n) == if n == i then v else ByteBit(x, n)
  {
    SetInByte(x, Place(i), Place(n));
    Layout(n, i);
  }

  lemma SetInByte(x: bv8, b: nat, c: nat)
    requires b < 8 && c < 8
    ensures (x | Mask(b)) & Mask(c) == if b == c then Mask(c) else x & Mask(c)
    ensures (x & !Mask(b)) & Mask(c) == if b == c then 0 else x & Mask(c)
    ensures Mask(c) != 0
  {
  }

  /** Bytes with the same eight bits are the same byte. */
  lemma ByteFromBits(x: bv8, y: bv8)
    requires forall b :: 0 <= b < 8 ==> (x & Mask(b) != 0 <==> y & Mask(b) != 0)
    ensures x == y
  {
    var m0, m1, m2, m3, m4, m5, m6, m7 := Mask(0), Mask(1), Mask(2), Mask(3), Mask(4), Mask(5), Mask(6), Mask(7);
  }

  function WithBitSet(p: seq<bv8>, i: nat, v: bool): (q: seq<bv8>)
    requires i % 2 == 1 ==> Byte(i) < |p|
  {
    if i % 2 == 0 then p else p[Byte(i) := WithBit(p[Byte(i)], i, v)]
  }

  lemma WithBitSetBytes(p: seq<bv8>, i: nat, v: bool)
    requires i % 2 == 1 ==> Byte(i) < |p|
    ensures WithBitSet(p, i, v) == if i % 2 == 0 then p else p[Byte(i) := WithBit(p[Byte(i)], i, v)]
  {
  }

  /** q is p but for the bit of i, which even numbers do not have. */
  ghost predicate OneBitSet(p: seq<bv8>, q: seq<bv8>, i: nat, v: bool) {
    |p| == |q| && forall n: nat :: Byte(n) < |p| ==> Bit(q, n) == if n == i then v && n % 2 == 1 else Bit(p, n)
  }

  lemma SetBitView(p: seq<bv8>, i: nat, v: bool)
    requires i % 2 == 1 ==> Byte(i) < |p|
    ensures OneBitSet(p, WithBitSet(p, i, v), i, v)
  {
    forall n: nat | Byte(n) < |p| && Byte(n) == Byte(i) && i % 2 == 1
      ensures ByteBit(WithBit(p[Byte(i)], i, v), n) == if n == i then v else ByteBit(p[Byte(i)], n)
    {
      WithBitView(p[Byte(i)], i, v, n);
    }
  }

  method SetBit(p: array<bv8>, i: nat, v: bool)
    requires i % 2 == 1 ==> Byte(i) < p.Length
    modifies p
    ensures OneBitSet(old(p[..]), p[..], i, v)
  {
    hide OneBitSet, WithBitSet, WithBit, Mask, Byte, Place;
    ghost var before := p[..];
    WithBitSetBytes(before, i, v);
    SetBitView(before, i, v);
    if i % 2 == 0 {
      return;
    }
    var idx, bitidx := Byte(i), Place(i);
    WithBitBits(p[idx], i, v);
    if v {
      p[idx] := p[idx] | Mask(bitidx);
    } else {
      p[idx] := p[idx] & !Mask(bitidx);
    }
    assert p[..] == before[idx := WithBit(before[idx], i, v)];
  }

  lemma WithBitBits(x: bv8, i: nat, v: bool)
    ensures WithBit(x, i, v) == if v then x | Mask(Place(i)) else x & !Mask(Place(i))
  {
  }

  /** One inner loop: clear start, start + step, start + 2 * step, ... below limit. */
  method Strike(p: array<bv8>, start: nat, step: nat, limit: nat)
    requires 16 * p.Length <= limit && 0 < step && limit + step <= TWO_64
    requires forall n: nat :: n < limit && n % 2 == 1 && OnTrack(n, start, step) ==> Byte(n) < p.Length
    modifies p
    ensures forall n: nat :: Byte(n) < p.Length && n % 2 == 1 ==>
      (Bit(p[..], n) <==> old(Bit(p[..], n)) && !OnTrack(n, start, step))
  {
    hide Byte;
    var j := start;
    while j < limit
      invariant j >= start && OnTrack(j, start, step)
      invariant forall n: nat :: Byte(n) < p.Length && n % 2 == 1 ==>
        (Bit(p[..], n) <==> old(Bit(p[..], n)) && !(n < j && OnTrack(n, start, step)))
      decreases limit - j
    {
      SetBit(p, j, false);
      NextOnTrack(j, start, step);
      j := j + step;
    }
    forall n: nat | Byte(n) < p.Length ensures n < j { Layout(n, n); }
  }

  lemma OddTrackIsMultiples(i: nat, start: nat, n: nat)
    requires i % 2 == 1 && start % 2 == 1 && n % 2 == 1 && Divides(i, start)
    ensures OnTrack(n, start, 2 * i) <==> Divides(i, n) && start <= n
  {
    if n >= start {
      CongruentIff(i, n, start);
      var m := n - start;
      if Divides(i, m) {
        DividesWitness(i, m);
        var k := m / i;
        EvenFactor(i, k);
        assert m == (2 * i) * (k / 2);
        MulMod(2 * i, k / 2);
      } else if m % (2 * i) == 0 {
        DividesWitness(2 * i, m);
        assert m == i * (2 * (m / (2 * i)));
        WitnessDivides(i, 2 * (m / (2 * i)));
      }
    }
  }

  lemma EvenFactor(i: nat, k: nat)
    requires i % 2 == 1 && (i * k) % 2 == 0
    ensures k % 2 == 0
  {
    if k % 2 == 1 {
      OddProduct(i / 2, k / 2);
    }
  }

  lemma OddProduct(a: nat, b: nat)
    ensures ((2 * a + 1) * (2 * b + 1)) % 2 == 1
  {
    assert (2 * a + 1) * (2 * b + 1) == 2 * (2 * a * b + a + b) + 1;
  }

  // ---- the two sieves ------------------------------------------------------------------------

  /** The bitmap says of every odd number below limit whether it is 1 or a prime. */
  ghost predicate Sieved(p: seq<bv8>) {
    forall n: nat :: Byte(n) < |p| && n % 2 == 1 ==> (Bit(p, n) <==> n == 1 || IsPrime(n))
  }

  method FillOnes(p: array<bv8>)
    modifies p
    ensures forall n: nat :: Byte(n) < p.Length && n % 2 == 1 ==> Bit(p[..], n)
  {
    forall k | 0 <= k < p.Length {
      p[k] := 0xff;
    }
    forall n: nat | Byte(n) < p.Length && n % 2 == 1 ensures Bit(p[..], n) {
      SetInByte(0xff, Place(n), Place(n));
    }
  }

  ghost predicate Swept(p: seq<bv8>, i: nat) {
    forall n: nat :: Byte(n) < |p| && n % 2 == 1 ==> (Bit(p, n) <==> Survives(n, i))
  }

  /** Striking the multiples of a prime i from its square on, or nothing when i is no prime, moves the sweep on. */
  lemma SweptStep(p: seq<bv8>, q: seq<bv8>, i: nat, step: nat, next: nat)
    requires |p| == |q| && Swept(p, i) && 0 < i < next && (step == i || (i % 2 == 1 && step == 2 * i))
    requires forall d :: i < d < next ==> !IsPrime(d)
    requires forall n: nat :: Byte(n) < |p| && n % 2 == 1 ==>
      (Bit(q, n) <==> Bit(p, n) && !(i % 2 == 1 && IsPrime(i) && OnTrack(n, i * i, step)))
    ensures Swept(q, next)
  {
    forall n: nat | Byte(n) < |p| && n % 2 == 1 ensures Bit(q, n) <==> Survives(n, next) {
      SurvivesTurn(n, i, step, next);
    }
  }

  lemma SurvivesTurn(n: nat, i: nat, step: nat, next: nat)
    requires n % 2 == 1 && 0 < i < next && (step == i || (i % 2 == 1 && step == 2 * i))
    requires forall d :: i < d < next ==> !IsPrime(d)
    ensures Survives(n, next) <==> Survives(n, i) && !(i % 2 == 1 && IsPrime(i) && OnTrack(n, i * i, step))
  {
    SurvivesStep(n, i, next);
    StruckBy(n, i, step);
  }

  lemma StruckBy(n: nat, i: nat, step: nat)
    requires 0 < i && n % 2 == 1 && (step == i || (i % 2 == 1 && step == 2 * i))
    ensures i % 2 == 1 && OnTrack(n, i * i, step) <==> Divides(i, n) && i * i <= n
  {
    if step == i {
      TrackIsMultiples(i, n);
      if Divides(i, n) {
        DividesWitness(i, n);
        if i % 2 == 0 { MulEven(i, n / i); }
      }
    } else {
      OddProduct(i / 2, i / 2);
      MulMod(i, i);
      OddTrackIsMultiples(i, i * i, n);
    }
  }

  lemma MulEven(i: nat, k: nat)
    requires i % 2 == 0
    ensures (i * k) % 2 == 0
  {
    assert i * k == 2 * ((i / 2) * k);
  }

  lemma SweptDone(p: seq<bv8>, i: nat)
    requires Swept(p, i) && i * i >= 16 * |p|
    ensures Sieved(p)
  {
    forall n: nat | Byte(n) < |p| && n % 2 == 1 ensures Bit(p, n) <==> n == 1 || IsPrime(n) {
      Layout(n, n);
      SurvivesIffPrime(n, i);
    }
  }

  lemma SweptStart(p: seq<bv8>)
    requires forall n: nat :: Byte(n) < |p| && n % 2 == 1 ==> Bit(p, n)
    ensures Swept(p, 2)
  {
  }

  /** The bit of i itself, when the sweep has come to i, says whether i is an odd prime. */
  lemma SweptAt(p: seq<bv8>, i: nat, limit: nat)
    requires Swept(p, i) && i >= 2 && Covers(|p|, limit) && i * i < limit
    ensures i % 2 == 1 ==> Byte(i) < |p|
    ensures Bit(p, i) <==> i % 2 == 1 && IsPrime(i)
  {
    if i % 2 == 1 { RootInside(|p|, limit, i); }
    SurvivesIffPrime(i, i);
    SquareBeyond(i);
  }

  method Sieve(p: array<bv8>, limit: nat)
    requires Covers(p.Length, limit) && limit <= TWO_63
    modifies p
    ensures Sieved(p[..])
  {
    FillOnes(p);
    SweptStart(p[..]);
    var i := 2;
    while i * i < limit
      invariant 2 <= i < TWO_32 && Swept(p[..], i)
      decreases limit - i
    {
      ghost var before := p[..];
      RootRange(i);
      SweptAt(p[..], i, limit);
      if Bit(p[..], i) {
        forall n: nat | n < limit && n % 2 == 1 && OnTrack(n, i * i, i) ensures Byte(n) < p.Length {
          TrackInside(p.Length, limit, i, i, n);
        }
        Strike(p, i * i, i, limit);
      }
      SweptStep(before, p[..], i, i, i + 1);
      i := i + 1;
    }
    SweptDone(p[..], i);
  }

  // ---- the wheel -----------------------------------------------------------------------------

  const GAPS: seq<nat> := [4, 2, 4, 2, 4, 6, 2, 6]
  const SPOKES: seq<nat> := [7, 11, 13, 17, 19, 23, 29, 1]

  predicate Coprime30(n: nat) {
    n % 2 != 0 && n % 3 != 0 && n % 5 != 0
  }

  /** The wheel stands at i with gap index g. */
  predicate OnWheel(i: nat, g: nat) {
    i >= 7 && g < 8 && i % 30 == SPOKES[g]
  }

  lemma Mod30(q: nat, t: nat)
    requires t < 60
    ensures var n := 30 * q + t;
            n % 2 == t % 2 && n % 3 == t % 3 && n % 5 == t % 5 && n % 30 == if t < 30 then t else t - 30
  {
  }

  lemma WheelStep(i: nat, g: nat, k: nat)
    requires OnWheel(i, g) && k <= GAPS[g]
    ensures k == 0 || k == GAPS[g] <==> Coprime30(i + k)
    ensures k == GAPS[g] ==> OnWheel(i + k, (g + 1) % 8)
  {
    Mod30(i / 30, SPOKES[g] + k);
    SpokeStep(g, k);
  }

  lemma SpokeStep(g: nat, k: nat)
    requires g < 8 && k <= GAPS[g]
    ensures k == 0 || k == GAPS[g] <==> Coprime30(SPOKES[g] + k)
    ensures k == GAPS[g] ==> SPOKES[(g + 1) % 8] == if SPOKES[g] + k < 30 then SPOKES[g] + k else SPOKES[g] + k - 30
  {
    match g case 0 => case 1 => case 2 => case 3 => case 4 => case 5 => case 6 => case _ =>
  }

  lemma CompositeOffWheel(d: nat)
    requires d > 5 && !Coprime30(d)
    ensures !IsPrime(d)
  {
    assert Divides(2, d) || Divides(3, d) || Divides(5, d);
  }

  /** Turning the wheel passes over nothing that is prime to 30. */
  lemma WheelTurn(i: nat, g: nat)
    requires OnWheel(i, g)
    ensures Coprime30(i) && OnWheel(i + GAPS[g], (g + 1) % 8)
    ensures forall d: nat :: i < d < i + GAPS[g] ==> !Coprime30(d) && !IsPrime(d)
  {
    WheelStep(i, g, 0);
    WheelStep(i, g, GAPS[g]);
    forall d: nat | i < d < i + GAPS[g] ensures !Coprime30(d) && !IsPrime(d) {
      WheelStep(i, g, d - i);
      CompositeOffWheel(d);
    }
  }

  /** The k-th number the wheel visits, and its gap index. */
  function Visit(k: nat): (i: nat)
    ensures OnWheel(i, k % 8)
  {
    if k == 0 then 7 else
      var i, g := Visit(k - 1), (k - 1) % 8;
      WheelStep(i, g, GAPS[g]);
      i + GAPS[g]
  }

  /** The wheel visits every number from 7 on that is prime to 30, and no other. */
  lemma WheelVisits(m: nat)
    ensures m >= 7 && Coprime30(m) <==> exists k: nat :: Visit(k) == m
  {
    if m >= 7 && Coprime30(m) {
      VisitReaches(m, 0);
    } else if k: nat :| Visit(k) == m {
      WheelTurn(m, k % 8);
    }
  }

  lemma {:induction false} VisitReaches(m: nat, k: nat)
    requires Coprime30(m) && Visit(k) <= m
    ensures exists k': nat :: Visit(k') == m
    decreases m - Visit(k)
  {
    if Visit(k) < m {
      WheelTurn(Visit(k), k % 8);
      assert Visit(k + 1) == Visit(k) + GAPS[k % 8];
      VisitReaches(m, k + 1);
    }
  }

  method WheelSieve(p: array<bv8>, limit: nat)
    requires Covers(p.Length, limit) && p.Length > 0 && limit <= TWO_63
    modifies p
    ensures Sieved(p[..])
  {
    StrikeThreeFive(p, limit);
    var i: nat, g: nat := 7, 0;
    while i * i < limit
      invariant OnWheel(i, g) && i < TWO_32 && Swept(p[..], i)
      decreases limit - i
    {
      ghost var before := p[..];
      RootRange(i);
      SweptAt(p[..], i, limit);
      if Bit(p[..], i) {
        forall n: nat | n < limit && n % 2 == 1 && OnTrack(n, i * i, 2 * i) ensures Byte(n) < p.Length {
          TrackInside(p.Length, limit, i, 2 * i, n);
        }
        Strike(p, i * i, 2 * i, limit);
      }
      WheelTurn(i, g);
      SweptStep(before, p[..], i, 2 * i, i + GAPS[g]);
      i := i + GAPS[g];
      g := (g + 1) % 8;
    }
    SweptDone(p[..], i);
  }

  /** The start of the wheel sieve: all set, then 3 and 5 struck out with all their multiples and put back. */
  method StrikeThreeFive(p: array<bv8>, limit: nat)
    requires Covers(p.Length, limit) && p.Length > 0 && limit <= TWO_63
    modifies p
    ensures Swept(p[..], 7)
  {
    FillOnes(p);
    SpokeInside(p.Length, limit, 3);
    SpokeInside(p.Length, limit, 5);
    Strike(p, 3, 6, limit);
    SetBit(p, 3, true);
    Strike(p, 5, 10, limit);
    SetBit(p, 5, true);
    forall n: nat | n % 2 == 1
      ensures Survives(n, 7) <==> (n == 3 || !OnTrack(n, 3, 6)) && (n == 5 || !OnTrack(n, 5, 10))
    {
      OddTrackIsMultiples(3, 3, n);
      OddTrackIsMultiples(5, 5, n);
      SurvivesSeven(n);
    }
  }

  lemma SpokeInside(len: nat, limit: nat, i: nat)
    requires Covers(len, limit) && len > 0 && (i == 3 || i == 5)
    ensures forall n: nat :: n < limit && n % 2 == 1 && OnTrack(n, i, 2 * i) ==> Byte(n) < len
  {
    forall n: nat | n < limit && n % 2 == 1 && OnTrack(n, i, 2 * i) ensures Byte(n) < len {
      OddTrackIsMultiples(i, i, n);
      if n > i { Multiple(i, n); }
    }
  }

  lemma SurvivesSeven(n: nat)
    requires n % 2 == 1
    ensures Survives(n, 7) <==> (n == 3 || !Divides(3, n)) && (n == 5 || !Divides(5, n))
  {
    assert IsPrime(3) && IsPrime(5);
    assert !IsPrime(4) && !IsPrime(6) by { assert Divides(2, 4) && Divides(2, 6); }
    assert !Divides(2, n);
    if n == 15 { assert Divides(3, n); }
  }

  /** A sieved bitmap is unique, byte for byte. */
  lemma SievedUnique(p: seq<bv8>, q: seq<bv8>)
    requires |p| == |q| && Sieved(p) && Sieved(q)
    ensures p == q
  {
    forall k | 0 <= k < |p| ensures p[k] == q[k] {
      forall n: nat | Byte(n) == k && n % 2 == 1 ensures ByteBit(p[k], n) <==> ByteBit(q[k], n) {
        assert Bit(p, n) <==> Bit(q, n);
      }
      ByteFromOddBits(p[k], q[k], k);
    }
  }

  lemma ByteFromOddBits(x: bv8, y: bv8, k: nat)
    requires forall n: nat :: Byte(n) == k && n % 2 == 1 ==> (ByteBit(x, n) <==> ByteBit(y, n))
    ensures x == y
  {
    forall b | 0 <= b < 8 ensures x & Mask(b) != 0 <==> y & Mask(b) != 0 {
      var n := NumberAt(k, b);
      assert ByteBit(x, n) <==> ByteBit(y, n);
    }
    ByteFromBits(x, y);
  }

  lemma NumberAt(k: nat, b: nat) returns (n: nat)
    requires b < 8
    ensures n == 16 * k + 2 * b + 1 && n % 2 == 1 && Byte(n) == k && Place(n) == b
  {
    n := 16 * k + 2 * b + 1;
  }

  /** The driver: whatever the two buffers held, the two sieves leave the same bytes. */
  method CompareSieves(p: array<bv8>, q: array<bv8>, limit: nat)
    requires p != q && Covers(p.Length, limit) && q.Length == p.Length > 0 && limit <= TWO_63
    modifies p, q
    ensures Sieved(p[..]) && p[..] == q[..]
  {
    Sieve(p, limit);
    WheelSieve(q, limit);
    SievedUnique(p[..], q[..]);
  }
}
