/** Words in memory and murmur3 (murmur3.c): blocks, tail and finaliser, and the changes to a buffer they cannot miss. */
module WordHashes {
  import opened NumberTheory
  import opened MachineWords
  import opened Detection
  import opened Hashes

  // ---- words in memory ---------------------------------------------------------------------------------

  /** The bytes t as a number, low-order byte first. */
  function LittleEndian(t: seq<Byte>): (n: nat)
    ensures n < Pow(256, |t|)
  {
    if t == [] then 0 else t[0] + 256 * LittleEndian(t[1..])
  }

  lemma {:induction false} LittleEndianInjective(t: seq<Byte>, u: seq<Byte>)
    requires |t| == |u| && LittleEndian(t) == LittleEndian(u)
    ensures t == u
  {
    if t != [] {
      LittleEndianInjective(t[1..], u[1..]);
      assert t == [t[0]] + t[1..] && u == [u[0]] + u[1..];
    }
  }

  type Four = t: seq<Byte> | |t| == 4 witness [0, 0, 0, 0]
  type Eight = t: seq<Byte> | |t| == 8 witness [0, 0, 0, 0, 0, 0, 0, 0]

  function Load32(t: Four): U32 {
    assert Pow(256, 4) == TWO_32;
    LittleEndian(t)
  }

  function Load64(t: Eight): U64 {
    assert Pow(256, 4) * Pow(256, 4) == Pow(256, 8) == TWO_64;
    LittleEndian(t)
  }

  /** The whole aligned words of a buffer. */
  function Fours(x: seq<Byte>): (f: seq<Four>)
    ensures |f| == |x| / 4
  {
    if |x| < 4 then [] else [x[..4]] + Fours(x[4..])
  }

  function Eights(x: seq<Byte>): (e: seq<Eight>)
    ensures |e| == |x| / 8
  {
    if |x| < 8 then [] else [x[..8]] + Eights(x[8..])
  }

  lemma {:induction false} FourAt(x: seq<Byte>, k: nat)
    requires k < |x| / 4
    ensures Fours(x)[k] == x[4 * k..4 * k + 4]
  {
    if k > 0 {
      FourAt(x[4..], k - 1);
    }
  }

  lemma {:induction false} EightAt(x: seq<Byte>, k: nat)
    requires k < |x| / 8
    ensures Eights(x)[k] == x[8 * k..8 * k + 8]
  {
    if k > 0 {
      EightAt(x[8..], k - 1);
    }
  }

  /** x and y are different buffers of the same length that agree outside [from, to). */
  ghost predicate DifferWithin(x: seq<Byte>, y: seq<Byte>, from: nat, to: nat) {
    |x| == |y| && x != y && from <= to <= |x| && x[..from] == y[..from] && x[to..] == y[to..]
  }

  lemma SameBefore(x: seq<Byte>, y: seq<Byte>, m: nat, a: nat, b: nat)
    requires a <= b <= m <= |x| == |y| && x[..m] == y[..m]
    ensures x[a..b] == y[a..b]
  {
    assert x[a..b] == x[..m][a..b] && y[a..b] == y[..m][a..b];
  }

  lemma SameBeyond(x: seq<Byte>, y: seq<Byte>, m: nat, a: nat, b: nat)
    requires m <= a <= b <= |x| == |y| && x[m..] == y[m..]
    ensures x[a..b] == y[a..b]
  {
    forall i | a <= i < b ensures x[i] == y[i] {
      assert x[m..][i - m] == y[m..][i - m];
    }
  }

  lemma FoursDiffer(x: seq<Byte>, y: seq<Byte>, k: nat)
    requires DifferWithin(x, y, 4 * k, 4 * k + 4)
    ensures DifferAt(Fours(x), Fours(y), k)
  {
    forall j | 0 <= j < |x| / 4 ensures (Fours(x)[j] == Fours(y)[j]) <==> j != k {
      FourAt(x, j);
      FourAt(y, j);
      if j < k {
        SameBefore(x, y, 4 * k, 4 * j, 4 * j + 4);
      } else if j > k {
        SameBeyond(x, y, 4 * k + 4, 4 * j, 4 * j + 4);
      } else {
        assert x == x[..4 * k] + x[4 * k..4 * k + 4] + x[4 * k + 4..];
        assert y == y[..4 * k] + y[4 * k..4 * k + 4] + y[4 * k + 4..];
      }
    }
  }

  lemma EightsDiffer(x: seq<Byte>, y: seq<Byte>, k: nat)
    requires DifferWithin(x, y, 8 * k, 8 * k + 8)
    ensures DifferAt(Eights(x), Eights(y), k)
  {
    forall j | 0 <= j < |x| / 8 ensures (Eights(x)[j] == Eights(y)[j]) <==> j != k {
      EightAt(x, j);
      EightAt(y, j);
      if j < k {
        SameBefore(x, y, 8 * k, 8 * j, 8 * j + 8);
      } else if j > k {
        SameBeyond(x, y, 8 * k + 8, 8 * j, 8 * j + 8);
      } else {
        assert x == x[..8 * k] + x[8 * k..8 * k + 8] + x[8 * k + 8..];
        assert y == y[..8 * k] + y[8 * k..8 * k + 8] + y[8 * k + 8..];
      }
    }
  }

  /** A change in the tail leaves the words alone. */
  lemma {:induction false} TailLeavesFours(x: seq<Byte>, y: seq<Byte>)
    requires |x| == |y| && x[..|x| / 4 * 4] == y[..|x| / 4 * 4]
    ensures Fours(x) == Fours(y)
  {
    var m := |x| / 4 * 4;
    forall k | 0 <= k < |x| / 4 ensures Fours(x)[k] == Fours(y)[k] {
      FourAt(x, k);
      FourAt(y, k);
      assert x[4 * k..4 * k + 4] == x[..m][4 * k..4 * k + 4];
      assert y[4 * k..4 * k + 4] == y[..m][4 * k..4 * k + 4];
    }
  }

  lemma {:induction false} TailLeavesEights(x: seq<Byte>, y: seq<Byte>)
    requires |x| == |y| && x[..|x| / 8 * 8] == y[..|x| / 8 * 8]
    ensures Eights(x) == Eights(y)
  {
    var m := |x| / 8 * 8;
    forall k | 0 <= k < |x| / 8 ensures Eights(x)[k] == Eights(y)[k] {
      EightAt(x, k);
      EightAt(y, k);
      assert x[8 * k..8 * k + 8] == x[..m][8 * k..8 * k + 8];
      assert y[8 * k..8 * k + 8] == y[..m][8 * k..8 * k + 8];
    }
  }

  // ---- murmur3 -----------------------------------------------------------------------------------------

  const C1: U32 := 0xcc9e2d51
  const C2: U32 := 0x1b873593
  const F1: U32 := 0x85ebca6b
  const F2: U32 := 0xc2b2ae35

  function Scramble(k: U32): U32 {
    Mul32(Rotate15(Mul32(k, C1)), C2)
  }

  function MurmurStep(h: U32, t: Four): U32 {
    Add32(Mul32(Rotate13(Xor32(h, Scramble(Load32(t)))), 5), 0xe6546b64)
  }

  function Fmix(h: U32): U32 {
    XorShifted32(Mul32(XorShifted32(Mul32(XorShifted32(h, 16), F1), 13), F2), 16)
  }

  function Tail4(x: seq<Byte>): (t: seq<Byte>)
    ensures |t| == |x| % 4
  {
    x[|x| / 4 * 4..]
  }

  function TailWord(t: seq<Byte>): U32
    requires |t| < 4
  {
    TailBound(t);
    LittleEndian(t)
  }

  lemma TailBound(t: seq<Byte>)
    requires |t| < 4
    ensures LittleEndian(t) < 0x100_0000
  {
    assert Pow(256, 3) == 0x100_0000;
  }

  function Murmur(key: seq<Byte>, seed: U32): U32 {
    var h, t := Fold(MurmurStep, seed, Fours(key)), Tail4(key);
    Fmix(Xor32(if t == [] then h else Xor32(h, Scramble(TailWord(t))), |key| % TWO_32))
  }

  method Murmur3_32(key: seq<Byte>, seed: U32) returns (h: U32)
    ensures h == Murmur(key, seed)
  {
    hide Mul32, Xor32, Rotate13, Rotate15, XorShifted32, Add32, LittleEndian;
    h := seed;
    var p := 0;
    if |key| > 3 {
      var i := |key| / 4;
      while true
        invariant 0 < i && p + 4 * i + |key| % 4 == |key|
        invariant Fold(MurmurStep, h, Fours(key[p..])) == Fold(MurmurStep, seed, Fours(key))
        decreases i
      {
        assert key[p..][..4] == key[p..p + 4] && key[p..][4..] == key[p + 4..];
        var k := Load32(key[p..p + 4]);
        p := p + 4;
        k := Mul32(k, C1);
        k := Rotate15(k);
        k := Mul32(k, C2);
        h := Xor32(h, k);
        h := Rotate13(h);
        h := Add32(Mul32(h, 5), 0xe6546b64);
        i := i - 1;
        if i == 0 { break; }
      }
    }
    assert p == |key| / 4 * 4 && Fours(key[p..]) == [];
    if |key| % 4 != 0 {
      var k := Gather(Tail4(key));
      k := Mul32(k, C1);
      k := Rotate15(k);
      k := Mul32(k, C2);
      h := Xor32(h, k);
    }
    h := Xor32(h, |key| % TWO_32);
    h := XorShifted32(h, 16);
    h := Mul32(h, F1);
    h := XorShifted32(h, 13);
    h := Mul32(h, F2);
    h := XorShifted32(h, 16);
  }

  /** The tail loop: shift left by a byte, or the next byte into the place freed. */
  method Gather(key: seq<Byte>) returns (k: U32)
    requires 0 < |key| < 4
    ensures k == TailWord(key)
  {
    var i := |key|;
    k := 0;
    while true
      invariant 0 < i <= |key| && k == LittleEndian(key[i..])
      decreases i
    {
      TailBound(key[i - 1..]);
      assert key[i - 1..][1..] == key[i..];
      k := k * 256;
      k := k + key[i - 1];
      i := i - 1;
      if i == 0 { break; }
    }
    assert key[0..] == key;
  }

  // ---- everything can be undone --------------------------------------------------------------------------

  function Unscramble(k: U32): U32 {
    Mul32(Unrotate15(Mul32(k, 0x56ed_309b)), 0xdee1_3bb1)
  }

  /** What a block step took out of the memory, from the states before and after it. */
  function MurmurBlock(h: U32, h': U32): U32 {
    Unscramble(Xor32(Unrotate13(Mul32(Sub32(h', 0xe6546b64), 0xcccc_cccd)), h))
  }

  function Unfmix(h: U32): nat {
    var a := Mul32(Unshift(h, 16) % TWO_32, 0x7ed1_b41d);
    var b := Mul32(Unshift(a, 13) % TWO_32, 0xa5cb_9243);
    Unshift(b, 16)
  }

  lemma ScrambleUndone(k: U32)
    ensures Unscramble(Scramble(k)) == k
  {
    hide Mul32, Rotate15, Unrotate15;
    MulUndone32(Rotate15(Mul32(k, C1)), C2, 0x56ed_309b);
    UnrotateUndoes(Mul32(k, C1));
    MulUndone32(k, C1, 0xdee1_3bb1);
  }

  lemma FmixUndone(h: U32)
    ensures Unfmix(Fmix(h)) == h
  {
    hide Mul32, Xor, Shr;
    var a := XorShifted32(h, 16);
    var b := XorShifted32(Mul32(a, F1), 13);
    UnshiftUndoes(Mul32(b, F2), 16);
    MulUndone32(b, F2, 0x7ed1_b41d);
    UnshiftUndoes(Mul32(a, F1), 13);
    MulUndone32(a, F1, 0xa5cb_9243);
    UnshiftUndoes(h, 16);
  }

  lemma MurmurStepUndone(h: U32, t: Four)
    ensures MurmurBlock(h, MurmurStep(h, t)) == Load32(t)
  {
    hide Mul32, Rotate13, Unrotate13, Add32, Sub32, Scramble, Unscramble, Xor, LittleEndian;
    var k := Scramble(Load32(t));
    var w := Rotate13(Xor32(h, k));
    SubUndoes(Mul32(w, 5), 0xe6546b64);
    MulUndone32(w, 5, 0xcccc_cccd);
    UnrotateUndoes(Xor32(h, k));
    XorUndoes(h, k);
    ScrambleUndone(Load32(t));
  }

  function MurmurState(x: seq<Byte>, seed: U32): U32 {
    Fold(MurmurStep, seed, Fours(x))
  }

  /** The state before the length of n bytes went in. */
  function MurmurUnfinal(h: U32, n: nat): nat {
    Xor(Unfmix(h), n % TWO_32)
  }

  /** From the hash of a buffer and the state before its tail, the tail can be read back as a number, low-order byte
      first; without a tail the state itself can. */
  lemma MurmurTailReadsBack(x: seq<Byte>, seed: U32)
    ensures var y := MurmurUnfinal(Murmur(x, seed), |x|);
            if |x| % 4 == 0 then y == MurmurState(x, seed)
            else y < TWO_32 && Unscramble(Xor32(y, MurmurState(x, seed))) == LittleEndian(Tail4(x))
  {
    hide MurmurStep, Fmix, Unfmix, Scramble, Unscramble, Xor, LittleEndian;
    var h, t := MurmurState(x, seed), Tail4(x);
    if t == [] {
      FmixUndone(Xor32(h, |x| % TWO_32));
      XorUndoes(h, |x| % TWO_32);
    } else {
      var k := Scramble(TailWord(t));
      FmixUndone(Xor32(Xor32(h, k), |x| % TWO_32));
      XorUndoes(Xor32(h, k), |x| % TWO_32);
      XorUndoes(h, k);
      ScrambleUndone(TailWord(t));
    }
  }

  /** From the hashes of whole words and of the same without the last, that word can be read back, low-order byte first. */
  lemma MurmurReadsBack(x: seq<Byte>, t: Four, seed: U32)
    requires |x| % 4 == 0
    ensures MurmurUnfinal(Murmur(x + t, seed), |x| + 4) == MurmurState(x + t, seed)
    ensures MurmurUnfinal(Murmur(x, seed), |x|) == MurmurState(x, seed)
    ensures MurmurBlock(MurmurState(x, seed), MurmurState(x + t, seed)) == Load32(t)
  {
    hide MurmurStep, Murmur, MurmurUnfinal, LittleEndian, MurmurBlock;
    MurmurTailReadsBack(x, seed);
    MurmurTailReadsBack(x + t, seed);
    FoursSnoc(x, t);
    FoldSnoc(MurmurStep, seed, Fours(x), t);
    MurmurStepUndone(MurmurState(x, seed), t);
  }

  lemma {:induction false} FoursSnoc(x: seq<Byte>, t: Four)
    requires |x| % 4 == 0
    ensures Fours(x + t) == Fours(x) + [t]
  {
    if x == [] {
      assert x + t == t && t[..4] == t && t[4..] == [];
    } else {
      assert (x + t)[..4] == x[..4] && (x + t)[4..] == x[4..] + t;
      FoursSnoc(x[4..], t);
    }
  }

  lemma MurmurMulInjective(x: U32, y: U32)
    ensures Mul32(x, C1) == Mul32(y, C1) ==> x == y
    ensures Mul32(x, C2) == Mul32(y, C2) ==> x == y
    ensures Mul32(x, F1) == Mul32(y, F1) ==> x == y
    ensures Mul32(x, F2) == Mul32(y, F2) ==> x == y
    ensures Mul32(x, 5) == Mul32(y, 5) ==> x == y
  {
    hide Mul32;
    MulOne32(x, y, C1, 0xdee1_3bb1);
    MulOne32(x, y, C2, 0x56ed_309b);
    MulOne32(x, y, F1, 0xa5cb_9243);
    MulOne32(x, y, F2, 0x7ed1_b41d);
    MulOne32(x, y, 5, 0xcccc_cccd);
  }

  lemma ScrambleInjective(x: U32, y: U32)
    requires Scramble(x) == Scramble(y)
    ensures x == y
  {
    hide Mul32, Rotate15, Rotate13;
    var a, b := Mul32(x, C1), Mul32(y, C1);
    MurmurMulInjective(Rotate15(a), Rotate15(b));
    RotateInjective(a, b);
    MurmurMulInjective(x, y);
  }

  lemma MurmurStepInjective(s: U32, e: Four, t: U32, f: Four)
    requires MurmurStep(s, e) == MurmurStep(t, f)
    ensures s == t ==> e == f
    ensures e == f ==> s == t
  {
    hide Mul32, Rotate15, Rotate13, Xor32, Add32, Scramble, LittleEndian;
    var a, b := Xor32(s, Scramble(Load32(e))), Xor32(t, Scramble(Load32(f)));
    AddInjective(Mul32(Rotate13(a), 5), Mul32(Rotate13(b), 5), 0xe6546b64);
    MurmurMulInjective(Rotate13(a), Rotate13(b));
    RotateInjective(a, b);
    XorCancel32(s, t, Scramble(Load32(f)));
    XorCancel32(Scramble(Load32(e)), Scramble(Load32(f)), s);
    if s == t {
      ScrambleInjective(Load32(e), Load32(f));
      LittleEndianInjective(e, f);
    }
  }

  lemma MurmurBijective()
    ensures Bijective(MurmurStep)
  {
    hide MurmurStep;
    forall s: U32, t: U32, e: Four, f: Four
      ensures MurmurStep(s, e) == MurmurStep(t, e) ==> s == t
      ensures MurmurStep(s, e) == MurmurStep(s, f) ==> e == f
    {
      if MurmurStep(s, e) == MurmurStep(t, e) { MurmurStepInjective(s, e, t, e); }
      if MurmurStep(s, e) == MurmurStep(s, f) { MurmurStepInjective(s, e, s, f); }
    }
  }

  lemma FmixInjective(x: U32, y: U32)
    requires Fmix(x) == Fmix(y)
    ensures x == y
  {
    hide Mul32, XorShifted32;
    var a, b := XorShifted32(x, 16), XorShifted32(y, 16);
    var c, d := XorShifted32(Mul32(a, F1), 13), XorShifted32(Mul32(b, F1), 13);
    XorShiftedInjective32(Mul32(c, F2), Mul32(d, F2), 16);
    MurmurMulInjective(c, d);
    XorShiftedInjective32(Mul32(a, F1), Mul32(b, F1), 13);
    MurmurMulInjective(a, b);
    XorShiftedInjective32(x, y, 16);
  }

  /** Different states before a common tail, or a common state before different tails, end in different hashes. */
  lemma MurmurEndsApart(g: U32, h: U32, t: seq<Byte>, u: seq<Byte>, n: U32)
    requires |t| == |u| < 4 && (if t == u then g != h else g == h)
    ensures Fmix(Xor32(if t == [] then g else Xor32(g, Scramble(TailWord(t))), n))
         != Fmix(Xor32(if u == [] then h else Xor32(h, Scramble(TailWord(u))), n))
  {
    hide Fmix, Xor32, Scramble, LittleEndian;
    var a := if t == [] then g else Xor32(g, Scramble(TailWord(t)));
    var b := if u == [] then h else Xor32(h, Scramble(TailWord(u)));
    if Fmix(Xor32(a, n)) == Fmix(Xor32(b, n)) {
      FmixInjective(Xor32(a, n), Xor32(b, n));
      XorCancel32(a, b, n);
      if t != [] {
        XorCancel32(g, h, Scramble(TailWord(t)));
        XorCancel32(Scramble(TailWord(t)), Scramble(TailWord(u)), g);
        if t != u {
          ScrambleInjective(TailWord(t), TailWord(u));
          LittleEndianInjective(t, u);
        }
      }
    }
  }

  /** Changes confined to one aligned word, or to the tail, change murmur3. */
  lemma MurmurDetects(x: seq<Byte>, y: seq<Byte>, k: nat, seed: U32)
    requires DifferWithin(x, y, 4 * k, if k < |x| / 4 then 4 * k + 4 else |x|) && k <= |x| / 4
    ensures Murmur(x, seed) != Murmur(y, seed)
  {
    hide MurmurStep, Fmix, Xor32, Scramble, LittleEndian;
    var g, h := Fold(MurmurStep, seed, Fours(x)), Fold(MurmurStep, seed, Fours(y));
    var m := |x| / 4 * 4;
    if k < |x| / 4 {
      FoursDiffer(x, y, k);
      MurmurBijective();
      OneElementShows(MurmurStep, seed, Fours(x), Fours(y), k);
      assert x[m..] == x[4 * k + 4..][m - 4 * k - 4..] && y[m..] == y[4 * k + 4..][m - 4 * k - 4..];
    } else {
      TailLeavesFours(x, y);
      assert x == x[..m] + Tail4(x) && y == y[..m] + Tail4(y);
    }
    MurmurEndsApart(g, h, Tail4(x), Tail4(y), |x| % TWO_32);
  }
}
