/** fasthash64 (hashes.c): aligned 8-byte words, a byte-wise tail gathered by a falling-through switch, a final mix. */
module FastHash {
  import opened NumberTheory
  import opened MachineWords
  import opened Detection
  import opened WordHashes

  const MIX: U64 := 0x2127_599b_f432_5c37
  const M: U64 := 0x8803_55f2_1e6d_1965

  function XorShifted64(h: U64, s: nat): U64
    requires s > 0
  {
    ShrBound(h, s);
    Xor64(h, Shr(h, s))
  }

  function Mix(h: U64): U64 {
    XorShifted64(Mul64(XorShifted64(h, 23), MIX), 47)
  }

  function FastMix(h: U64, v: U64): U64 {
    Mul64(Xor64(h, Mix(v)), M)
  }

  function FastStep(h: U64, t: Eight): U64 {
    FastMix(h, Load64(t))
  }

  function Tail8(x: seq<Byte>): (t: seq<Byte>)
    ensures |t| == |x| % 8
  {
    x[|x| / 8 * 8..]
  }

  function TailWord8(t: seq<Byte>): U64
    requires |t| < 8
  {
    TailBound8(t);
    LittleEndian(t)
  }

  /** The state the length and the seed give. */
  function FastStart(n: nat, seed: U64): U64 {
    Xor64(seed, Mul64(n % TWO_64, M))
  }

  function FastHash64(buf: seq<Byte>, seed: U64): U64 {
    var h, t := Fold(FastStep, FastStart(|buf|, seed), Eights(buf)), Tail8(buf);
    Mix(if t == [] then h else FastMix(h, TailWord8(t)))
  }

  method FastHash(buf: seq<Byte>, seed: U64) returns (r: U64)
    ensures r == FastHash64(buf, seed)
  {
    hide Mul64, Xor64, Mix, LittleEndian;
    var h := Xor64(seed, Mul64(|buf| % TWO_64, M));
    ghost var start := h;
    var pos, end := 0, |buf| / 8;
    while pos != end
      invariant pos <= end
      invariant Fold(FastStep, h, Eights(buf[8 * pos..])) == Fold(FastStep, start, Eights(buf))
    {
      assert buf[8 * pos..][..8] == buf[8 * pos..8 * pos + 8] && buf[8 * pos..][8..] == buf[8 * (pos + 1)..];
      var v := Mix(Load64(buf[8 * pos..8 * pos + 8]));
      pos := pos + 1;
      h := Xor64(h, v);
      h := Mul64(h, M);
    }
    assert Eights(buf[8 * pos..]) == [];
    if |buf| % 8 != 0 {
      var v := GatherTail(Tail8(buf));
      h := Xor64(h, Mix(v));
      h := Mul64(h, M);
    }
    r := Mix(h);
  }

  // ---- the tail ----------------------------------------------------------------------------------------

  lemma {:induction false} BytesAreBits(k: nat)
    ensures Pow(256, k) == Pow(2, 8 * k)
  {
    if k > 0 {
      BytesAreBits(k - 1);
      assert Pow(2, 8) == 256;
      PowAdd(2, 8, 8 * (k - 1));
    }
  }

  lemma {:induction false} BytesGrow(j: nat, k: nat)
    requires j <= k
    ensures 0 < Pow(256, j) <= Pow(256, k)
  {
    if j < k {
      BytesGrow(j, k - 1);
    } else if j > 0 {
      BytesGrow(j - 1, k - 1);
    }
  }

  lemma TailBound8(t: seq<Byte>)
    requires |t| < 8
    ensures LittleEndian(t) < TWO_64
  {
    BytesGrow(|t|, 8);
    BytesAreBits(8);
    Powers();
  }

  /** Where no bits overlap, exclusive or adds. */
  lemma {:induction false} XorDisjoint(hi: nat, lo: nat, s: nat)
    requires lo < Pow(2, s)
    ensures Xor(hi * Pow(2, s), lo) == hi * Pow(2, s) + lo
    decreases s
  {
    if s == 0 {
      XorZero(hi);
    } else {
      hide Xor;
      XorDisjoint(hi, lo / 2, s - 1);
      DoubleInside(hi, Pow(2, s - 1));
      XorSplit(hi * Pow(2, s - 1), lo);
    }
  }

  lemma DoubleInside(a: nat, b: nat)
    ensures a * (2 * b) == 2 * (a * b)
  {
  }

  lemma XorSplit(w: nat, lo: nat)
    ensures Xor(2 * w, lo) == lo % 2 + 2 * Xor(w, lo / 2)
  {
  }

  lemma {:induction false} XorZero(x: nat)
    ensures Xor(x, 0) == x
  {
    if x > 0 {
      XorZero(x / 2);
    }
  }

  /** The bytes of t from k on, in their places in the word. */
  function Above(t: seq<Byte>, k: nat): U64
    requires |t| < 8
  {
    if k >= |t| then 0 else AboveBound(t, k); LittleEndian(t[k..]) * Pow(256, k)
  }

  lemma LowByte(t: seq<Byte>)
    requires t != []
    ensures t[0] <= LittleEndian(t)
  {
  }

  lemma AboveBound(t: seq<Byte>, k: nat)
    requires k < |t| < 8
    ensures LittleEndian(t[k..]) * Pow(256, k) < TWO_64
    ensures t[k] * Pow(256, k) < TWO_64
  {
    hide LittleEndian, Pow;
    var a, b := Pow(256, |t| - k), Pow(256, k);
    PowAdd(256, |t| - k, k);
    LowByte(t[k..]);
    MulMonotone(LittleEndian(t[k..]), b, a, b);
    MulMonotone(t[k], b, LittleEndian(t[k..]), b);
    BytesGrow(|t|, 7);
    SevenBytes();
  }

  lemma NextByte(k: nat)
    ensures Pow(256, k + 1) == 256 * Pow(256, k)
  {
  }

  lemma SevenBytes()
    ensures Pow(256, 7) < TWO_64
  {
    hide Pow;
    NextByte(7);
    BytesGrow(0, 7);
    BytesAreBits(8);
    Powers();
  }

  /** One case of the switch: v ^= t[k] << 8k. */
  method Absorb(v: U64, t: seq<Byte>, k: nat) returns (w: U64)
    requires k < |t| < 8 && v == Above(t, k + 1)
    ensures w == Above(t, k)
  {
    hide Pow, Xor64, LittleEndian;
    AboveBound(t, k);
    w := Xor64(v, t[k] * Pow(256, k));
    AbsorbStep(t, k);
  }

  lemma AbsorbStep(t: seq<Byte>, k: nat)
    requires k < |t| < 8 && t[k] * Pow(256, k) < TWO_64
    ensures Xor64(Above(t, k + 1), t[k] * Pow(256, k)) == Above(t, k)
  {
    hide Pow, Xor;
    var hi := LittleEndian(t[k + 1..]);
    assert t[k..][1..] == t[k + 1..];
    assert LittleEndian(t[k..]) == t[k] + 256 * hi;
    assert Above(t, k + 1) == hi * Pow(256, k + 1);
    NextByte(k);
    BytesAreBits(k + 1);
    BytesGrow(0, k);
    MulMonotone(t[k], Pow(256, k), 255, Pow(256, k));
    XorDisjoint(hi, t[k] * Pow(256, k), 8 * (k + 1));
    Distribute(t[k], hi, Pow(256, k));
  }

  lemma Distribute(a: nat, hi: nat, p: nat)
    ensures (a + 256 * hi) * p == a * p + hi * (256 * p)
  {
  }

  /** The switch on len & 7, each case falling through to the next. */
  method GatherTail(t: seq<Byte>) returns (v: U64)
    requires 0 < |t| < 8
    ensures v == TailWord8(t)
  {
    hide Above;
    v := 0;
    NothingAbove(t);
    if |t| >= 7 { v := Absorb(v, t, 6); }
    if |t| >= 6 { v := Absorb(v, t, 5); }
    if |t| >= 5 { v := Absorb(v, t, 4); }
    if |t| >= 4 { v := Absorb(v, t, 3); }
    if |t| >= 3 { v := Absorb(v, t, 2); }
    if |t| >= 2 { v := Absorb(v, t, 1); }
    v := Absorb(v, t, 0);
    WholeTail(t);
  }

  lemma NothingAbove(t: seq<Byte>)
    requires |t| < 8
    ensures Above(t, |t|) == 0
  {
  }

  lemma WholeTail(t: seq<Byte>)
    requires 0 < |t| < 8
    ensures Above(t, 0) == TailWord8(t)
  {
    assert t[0..] == t;
  }

  // ---- everything can be undone --------------------------------------------------------------------------------

  function Unmix(h: U64): nat {
    Unshift(Mul64(Unshift(h, 47) % TWO_64, 0xa1bc_efb1_4d10_1987), 23)
  }

  lemma MixUndone(h: U64)
    ensures Unmix(Mix(h)) == h
  {
    hide Mul64, Xor, Shr;
    var a := XorShifted64(h, 23);
    UnshiftUndoes(Mul64(a, MIX), 47);
    MulUndone64(a, MIX, 0xa1bc_efb1_4d10_1987);
    UnshiftUndoes(h, 23);
  }

  /** What a step took out of the memory, from the states before and after it. */
  function FastBlock(h: U64, h': U64): nat {
    Unmix(Xor64(Mul64(h', 0x28fc_2378_3fb0_706d), h))
  }

  lemma FastMixUndone(h: U64, v: U64)
    ensures FastBlock(h, FastMix(h, v)) == v
  {
    hide Mul64, Mix, Unmix, Xor;
    MulUndone64(Xor64(h, Mix(v)), M, 0x28fc_2378_3fb0_706d);
    XorUndoes(h, Mix(v));
    MixUndone(v);
  }

  function FastState(buf: seq<Byte>, start: U64): U64 {
    Fold(FastStep, start, Eights(buf))
  }

  /** From the hash of a buffer and the state before its tail, the tail can be read back as a number, low-order byte first;
      so can each whole word from the states around it. */
  lemma FastReadsBack(x: seq<Byte>, t: Eight, seed: U64, start: U64)
    ensures FastBlock(FastState(x[..|x| / 8 * 8], start), FastState(x[..|x| / 8 * 8] + t, start)) == Load64(t)
    ensures var h, y := FastState(x, FastStart(|x|, seed)), Unmix(FastHash64(x, seed));
            if |x| % 8 == 0 then y == h else y < TWO_64 && FastBlock(h, y) == LittleEndian(Tail8(x))
  {
    hide Mix, Unmix, FastMix, FastBlock, LittleEndian, Mul64, Xor;
    var h := FastState(x, FastStart(|x|, seed));
    var w := x[..|x| / 8 * 8];
    EightsSnoc(w, t);
    FoldSnoc(FastStep, start, Eights(w), t);
    FastMixUndone(FastState(w, start), Load64(t));
    if Tail8(x) == [] {
      MixUndone(h);
    } else {
      MixUndone(FastMix(h, TailWord8(Tail8(x))));
      FastMixUndone(h, TailWord8(Tail8(x)));
    }
  }

  lemma {:induction false} EightsSnoc(x: seq<Byte>, t: Eight)
    requires |x| % 8 == 0
    ensures Eights(x + t) == Eights(x) + [t]
  {
    if x == [] {
      assert x + t == t && t[..8] == t && t[8..] == [];
    } else {
      assert (x + t)[..8] == x[..8] && (x + t)[8..] == x[8..] + t;
      EightsSnoc(x[8..], t);
    }
  }

  // ---- what cannot be missed -------------------------------------------------------------------------------

  lemma FastMulInjective(x: U64, y: U64)
    ensures Mul64(x, MIX) == Mul64(y, MIX) ==> x == y
    ensures Mul64(x, M) == Mul64(y, M) ==> x == y
  {
    hide Mul64;
    MulOne64(x, y, MIX, 0xa1bc_efb1_4d10_1987);
    MulOne64(x, y, M, 0x28fc_2378_3fb0_706d);
  }

  lemma MixInjective(x: U64, y: U64)
    requires Mix(x) == Mix(y)
    ensures x == y
  {
    hide Mul64;
    var a, b := XorShifted64(x, 23), XorShifted64(y, 23);
    XorShiftInjective(Mul64(a, MIX), Mul64(b, MIX), 47);
    FastMulInjective(a, b);
    XorShiftInjective(x, y, 23);
  }

  lemma FastMixInjective(g: U64, v: U64, h: U64, w: U64)
    requires FastMix(g, v) == FastMix(h, w)
    ensures g == h ==> v == w
    ensures v == w ==> g == h
  {
    hide Mul64, Mix, Xor64;
    FastMulInjective(Xor64(g, Mix(v)), Xor64(h, Mix(w)));
    XorCancel64(g, h, Mix(v));
    XorCancel64(Mix(v), Mix(w), g);
    if g == h { MixInjective(v, w); }
  }

  lemma FastBijective()
    ensures Bijective(FastStep)
  {
    hide FastMix, LittleEndian;
    forall s: U64, t: U64, e: Eight, f: Eight
      ensures FastStep(s, e) == FastStep(t, e) ==> s == t
      ensures FastStep(s, e) == FastStep(s, f) ==> e == f
    {
      if FastStep(s, e) == FastStep(t, e) { FastMixInjective(s, Load64(e), t, Load64(e)); }
      if FastStep(s, e) == FastStep(s, f) {
        FastMixInjective(s, Load64(e), s, Load64(f));
        LittleEndianInjective(e, f);
      }
    }
  }

  /** Different states before a common tail, or a common state before different tails, end in different hashes. */
  lemma FastEndsApart(g: U64, h: U64, t: seq<Byte>, u: seq<Byte>)
    requires |t| == |u| < 8 && (if t == u then g != h else g == h)
    ensures Mix(if t == [] then g else FastMix(g, TailWord8(t))) != Mix(if u == [] then h else FastMix(h, TailWord8(u)))
  {
    hide Mix, FastMix, LittleEndian;
    var a := if t == [] then g else FastMix(g, TailWord8(t));
    var b := if u == [] then h else FastMix(h, TailWord8(u));
    if Mix(a) == Mix(b) {
      MixInjective(a, b);
      if t != [] {
        FastMixInjective(g, TailWord8(t), h, TailWord8(u));
        if t != u { LittleEndianInjective(t, u); }
      }
    }
  }

  /** Changes confined to one aligned word, or to the tail, change fasthash64. */
  lemma FastHashDetects(x: seq<Byte>, y: seq<Byte>, k: nat, seed: U64)
    requires DifferWithin(x, y, 8 * k, if k < |x| / 8 then 8 * k + 8 else |x|) && k <= |x| / 8
    ensures FastHash64(x, seed) != FastHash64(y, seed)
  {
    hide FastStep, Mix, FastMix, LittleEndian, Xor64, Mul64;
    var start := FastStart(|x|, seed);
    var g, h := Fold(FastStep, start, Eights(x)), Fold(FastStep, start, Eights(y));
    var m := |x| / 8 * 8;
    if k < |x| / 8 {
      EightsDiffer(x, y, k);
      FastBijective();
      OneElementShows(FastStep, start, Eights(x), Eights(y), k);
      assert x[m..] == x[8 * k + 8..][m - 8 * k - 8..] && y[m..] == y[8 * k + 8..][m - 8 * k - 8..];
    } else {
      TailLeavesEights(x, y);
      assert x == x[..m] + Tail8(x) && y == y[..m] + Tail8(y);
    }
    FastEndsApart(g, h, Tail8(x), Tail8(y));
  }
}
