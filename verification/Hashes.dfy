/** The byte-wise hashes FNV-1a and one-at-a-time (hashes.c): what the loops compute, and the changes to a buffer they
    cannot miss. */
module Hashes {
  import opened NumberTheory
  import opened MachineWords
  import opened Detection

  // ---- FNV-1a --------------------------------------------------------------------------------------

  /** A char widened to the accumulator; whether char is signed is up to the platform. */
  function Widen32(b: Byte, signed: bool): U32 {
    if signed && b >= 128 then TWO_32 - 256 + b else b
  }

  function Widen64(b: Byte, signed: bool): U64 {
    if signed && b >= 128 then TWO_64 - 256 + b else b
  }

  const FNV_OFFSET_32: U32 := 2166136261
  const FNV_PRIME_32: U32 := 16777619

  function FnvStep32(signed: bool): (U32, Byte) -> U32 {
    (h, b) => Mul32(Xor32(h, Widen32(b, signed)), FNV_PRIME_32)
  }

  function Fnv32(s: seq<Byte>, signed: bool): U32 {
    Fold(FnvStep32(signed), FNV_OFFSET_32, s)
  }

  method FNV1A_32(s: seq<Byte>, signed: bool) returns (hash: U32)
    ensures hash == Fnv32(s, signed)
  {
    hash := FNV_OFFSET_32;
    for i := 0 to |s|
      invariant Fold(FnvStep32(signed), hash, s[i..]) == Fnv32(s, signed)
    {
      assert s[i..][1..] == s[i + 1..];
      hash := Xor32(hash, Widen32(s[i], signed));
      hash := Mul32(hash, FNV_PRIME_32);
    }
  }

  lemma FnvBijective32(signed: bool)
    ensures Bijective(FnvStep32(signed))
  {
    hide Xor32, Mul32, Widen32;
    var step := FnvStep32(signed);
    forall s: U32, t: U32, e: Byte | step(s, e) == step(t, e) ensures s == t {
      var w := Widen32(e, signed);
      FnvInjective32(Xor32(s, w), Xor32(t, w));
      XorCancel32(s, t, w);
    }
    forall s: U32, e: Byte, f: Byte | step(s, e) == step(s, f) ensures e == f {
      var v, w := Widen32(e, signed), Widen32(f, signed);
      FnvInjective32(Xor32(s, v), Xor32(s, w));
      XorCancel32(v, w, s);
      WidenInjective32(e, f, signed);
    }
  }

  lemma WidenInjective32(e: Byte, f: Byte, signed: bool)
    requires Widen32(e, signed) == Widen32(f, signed)
    ensures e == f
  {
  }

  lemma FnvInjective32(x: U32, y: U32)
    requires Mul32(x, FNV_PRIME_32) == Mul32(y, FNV_PRIME_32)
    ensures x == y
  {
    hide Mul32;
    MulOne32(x, y, FNV_PRIME_32, 0x359c_449b);
  }

  const FNV_OFFSET_64: U64 := 0xcbf2_9ce4_8422_2325
  const FNV_PRIME_64: U64 := 0x100_0000_01b3

  function FnvStep64(signed: bool): (U64, Byte) -> U64 {
    (h, b) => Mul64(Xor64(h, Widen64(b, signed)), FNV_PRIME_64)
  }

  function Fnv64(s: seq<Byte>, signed: bool): U64 {
    Fold(FnvStep64(signed), FNV_OFFSET_64, s)
  }

  method FNV1A_64(s: seq<Byte>, signed: bool) returns (hash: U64)
    ensures hash == Fnv64(s, signed)
  {
    hash := FNV_OFFSET_64;
    for i := 0 to |s|
      invariant Fold(FnvStep64(signed), hash, s[i..]) == Fnv64(s, signed)
    {
      assert s[i..][1..] == s[i + 1..];
      hash := Xor64(hash, Widen64(s[i], signed));
      hash := Mul64(hash, FNV_PRIME_64);
    }
  }

  lemma FnvBijective64(signed: bool)
    ensures Bijective(FnvStep64(signed))
  {
    hide Xor64, Mul64, Widen64;
    var step := FnvStep64(signed);
    forall s: U64, t: U64, e: Byte | step(s, e) == step(t, e) ensures s == t {
      var w := Widen64(e, signed);
      FnvInjective64(Xor64(s, w), Xor64(t, w));
      XorCancel64(s, t, w);
    }
    forall s: U64, e: Byte, f: Byte | step(s, e) == step(s, f) ensures e == f {
      var v, w := Widen64(e, signed), Widen64(f, signed);
      FnvInjective64(Xor64(s, v), Xor64(s, w));
      XorCancel64(v, w, s);
      WidenInjective64(e, f, signed);
    }
  }

  lemma WidenInjective64(e: Byte, f: Byte, signed: bool)
    requires Widen64(e, signed) == Widen64(f, signed)
    ensures e == f
  {
  }

  lemma FnvInjective64(x: U64, y: U64)
    requires Mul64(x, FNV_PRIME_64) == Mul64(y, FNV_PRIME_64)
    ensures x == y
  {
    hide Mul64;
    MulOne64(x, y, FNV_PRIME_64, 0xce96_5057_aff6_957b);
  }

  /** A single changed byte changes both FNV-1a hashes, in buffers of any length. */
  lemma FnvDetects(x: seq<Byte>, y: seq<Byte>, i: nat, signed: bool)
    requires DifferAt(x, y, i)
    ensures Fnv32(x, signed) != Fnv32(y, signed) && Fnv64(x, signed) != Fnv64(y, signed)
  {
    FnvBijective32(signed);
    FnvBijective64(signed);
    OneElementShows(FnvStep32(signed), FNV_OFFSET_32, x, y, i);
    OneElementShows(FnvStep64(signed), FNV_OFFSET_64, x, y, i);
  }

  /** From the hashes of a buffer and of the buffer without its last byte, that byte can be read back: FNV-1a puts the
      byte in first and multiplies afterwards. */
  lemma FnvReadsBack(x: seq<Byte>, b: Byte, signed: bool)
    ensures Xor32(Mul32(Fnv32(x + [b], signed), 0x359c_449b), Fnv32(x, signed)) == Widen32(b, signed)
    ensures Xor64(Mul64(Fnv64(x + [b], signed), 0xce96_5057_aff6_957b), Fnv64(x, signed)) == Widen64(b, signed)
  {
    hide Mul32, Mul64;
    var g, h := Fnv32(x, signed), Fnv64(x, signed);
    FoldSnoc(FnvStep32(signed), FNV_OFFSET_32, x, b);
    FoldSnoc(FnvStep64(signed), FNV_OFFSET_64, x, b);
    MulUndone32(Xor32(g, Widen32(b, signed)), FNV_PRIME_32, 0x359c_449b);
    MulUndone64(Xor64(h, Widen64(b, signed)), FNV_PRIME_64, 0xce96_5057_aff6_957b);
    XorUndoes(g, Widen32(b, signed));
    XorUndoes(h, Widen64(b, signed));
  }

  // ---- one-at-a-time -----------------------------------------------------------------------------------

  /** h += h << k. */
  function AddShifted(h: U32, power: U32): U32 {
    Add32(h, Mul32(h, power))
  }

  function XorShifted32(h: U32, s: nat): U32
    requires s > 0
  {
    ShrBound(h, s);
    Xor32(h, Shr(h, s))
  }

  function JenkinsStep(h: U32, b: Byte): U32 {
    XorShifted32(AddShifted(Add32(h, b), 0x400), 6)
  }

  function JenkinsFinal(h: U32): U32 {
    AddShifted(XorShifted32(AddShifted(h, 0x8), 11), 0x8000)
  }

  function Jenkins(key: seq<Byte>): U32 {
    JenkinsFinal(Fold(JenkinsStep, 0, key))
  }

  method JenkinsOneAtATimeHash(key: seq<Byte>) returns (hash: U32)
    ensures hash == Jenkins(key)
  {
    var i := 0;
    hash := 0;
    while i != |key|
      invariant i <= |key| && Fold(JenkinsStep, hash, key[i..]) == Fold(JenkinsStep, 0, key)
    {
      assert key[i..][1..] == key[i + 1..];
      hash := Add32(hash, key[i]);
      i := i + 1;
      hash := AddShifted(hash, 0x400);
      hash := XorShifted32(hash, 6);
    }
    hash := AddShifted(hash, 0x8);
    hash := XorShifted32(hash, 11);
    hash := AddShifted(hash, 0x8000);
  }

  lemma AddInjective(x: U32, y: U32, z: U32)
    ensures Add32(x, z) == Add32(y, z) ==> x == y
    ensures Add32(z, x) == Add32(z, y) ==> x == y
  {
  }

  lemma AddShiftedIsMul(h: U32, power: U32)
    requires power < TWO_32 - 1
    ensures AddShifted(h, power) == Mul32(h, power + 1)
  {
    var q := h * power / TWO_32;
    assert h * (power + 1) == h + h * power;
    CongruentIff(TWO_32, h * (power + 1), h + h * power % TWO_32);
    assert h * (power + 1) - (h + h * power % TWO_32) == TWO_32 * q;
    MulMod(TWO_32, q);
  }

  lemma AddShiftedInjective(x: U32, y: U32)
    ensures AddShifted(x, 0x400) == AddShifted(y, 0x400) ==> x == y
    ensures AddShifted(x, 0x8) == AddShifted(y, 0x8) ==> x == y
    ensures AddShifted(x, 0x8000) == AddShifted(y, 0x8000) ==> x == y
  {
    hide AddShifted;
    AddShiftedOne(x, y, 0x400, 0xc00f_fc01);
    AddShiftedOne(x, y, 0x8, 0x38e3_8e39);
    AddShiftedOne(x, y, 0x8000, 0x3fff_8001);
  }

  lemma AddShiftedOne(x: U32, y: U32, power: U32, q: nat)
    requires power < TWO_32 - 1 && ((power + 1) * q) % TWO_32 == 1
    ensures AddShifted(x, power) == AddShifted(y, power) ==> x == y
  {
    hide AddShifted;
    AddShiftedIsMul(x, power);
    AddShiftedIsMul(y, power);
    if AddShifted(x, power) == AddShifted(y, power) {
      MulInjective(TWO_32, power + 1, q, x, y);
    }
  }

  lemma XorShiftedInjective32(x: U32, y: U32, s: nat)
    requires s > 0 && XorShifted32(x, s) == XorShifted32(y, s)
    ensures x == y
  {
    XorShiftInjective(x, y, s);
  }

  lemma JenkinsBijective()
    ensures Bijective(JenkinsStep)
  {
    forall s: U32, t: U32, e: Byte, f: Byte
      ensures JenkinsStep(s, e) == JenkinsStep(t, e) ==> s == t
      ensures JenkinsStep(s, e) == JenkinsStep(s, f) ==> e == f
    {
      JenkinsStepInjective(s, e, t, e);
      JenkinsStepInjective(s, e, s, f);
    }
  }

  lemma JenkinsStepInjective(s: U32, e: Byte, t: U32, f: Byte)
    ensures JenkinsStep(s, e) == JenkinsStep(t, f) ==> Add32(s, e) == Add32(t, f)
    ensures s == t && Add32(s, e) == Add32(t, f) ==> e == f
    ensures e == f && Add32(s, e) == Add32(t, f) ==> s == t
  {
    hide AddShifted, XorShifted32;
    var a, b := Add32(s, e), Add32(t, f);
    if JenkinsStep(s, e) == JenkinsStep(t, f) {
      XorShiftedInjective32(AddShifted(a, 0x400), AddShifted(b, 0x400), 6);
      AddShiftedInjective(a, b);
    }
    AddInjective(s, t, e);
    AddInjective(e, f, s);
  }

  /** The state from which the hash is finished. */
  function JenkinsUnfinal(h: U32): nat {
    Mul32(Unshift(Mul32(h, 0x3fff_8001), 11) % TWO_32, 0x38e3_8e39)
  }

  /** Each byte is added, then the sum multiplied by 1025 and shifted into itself by 6; at the end come factors 9 and 32769
      around a shift by 11. All of it can be undone, down to the last byte. */
  lemma JenkinsReadsBack(x: seq<Byte>, b: Byte)
    ensures JenkinsUnfinal(Jenkins(x)) == Fold(JenkinsStep, 0, x)
    ensures var y := JenkinsUnfinal(Jenkins(x + [b]));
            Sub32(Mul32(Unshift(y, 6) % TWO_32, 0xc00f_fc01), JenkinsUnfinal(Jenkins(x))) == b
  {
    hide Mul32, JenkinsStep, Jenkins, JenkinsFinal, JenkinsUnfinal, Add32, Sub32;
    var h := Fold(JenkinsStep, 0, x);
    FoldSnoc(JenkinsStep, 0, x, b);
    JenkinsFinalUndone(x);
    JenkinsFinalUndone(x + [b]);
    JenkinsStepUndone(h, b);
    SubUndoes(b, h);
  }

  lemma JenkinsFinalUndone(x: seq<Byte>)
    ensures JenkinsUnfinal(Jenkins(x)) == Fold(JenkinsStep, 0, x)
  {
    hide Mul32, JenkinsStep, AddShifted, Xor, Shr;
    var h := Fold(JenkinsStep, 0, x);
    var w := AddShifted(h, 0x8);
    AddShiftedIsMul(h, 0x8);
    AddShiftedIsMul(XorShifted32(w, 11), 0x8000);
    MulUndone32(XorShifted32(w, 11), 0x8001, 0x3fff_8001);
    UnshiftUndoes(w, 11);
    MulUndone32(h, 9, 0x38e3_8e39);
  }

  lemma JenkinsStepUndone(h: U32, b: Byte)
    ensures Mul32(Unshift(JenkinsStep(h, b), 6) % TWO_32, 0xc00f_fc01) == Add32(h, b)
  {
    hide Mul32, AddShifted, Xor, Shr, Add32;
    var w := AddShifted(Add32(h, b), 0x400);
    AddShiftedIsMul(Add32(h, b), 0x400);
    UnshiftUndoes(w, 6);
    MulUndone32(Add32(h, b), 0x401, 0xc00f_fc01);
  }

  lemma JenkinsFinalInjective(x: U32, y: U32)
    requires JenkinsFinal(x) == JenkinsFinal(y)
    ensures x == y
  {
    hide AddShifted, XorShifted32;
    var a, b := AddShifted(x, 0x8), AddShifted(y, 0x8);
    AddShiftedInjective(XorShifted32(a, 11), XorShifted32(b, 11));
    XorShiftedInjective32(a, b, 11);
    AddShiftedInjective(x, y);
  }

  /** A single changed byte changes the one-at-a-time hash, in buffers of any length. */
  lemma JenkinsDetects(x: seq<Byte>, y: seq<Byte>, i: nat)
    requires DifferAt(x, y, i)
    ensures Jenkins(x) != Jenkins(y)
  {
    hide JenkinsStep, JenkinsFinal;
    JenkinsBijective();
    OneElementShows(JenkinsStep, 0, x, y, i);
    if Jenkins(x) == Jenkins(y) {
      JenkinsFinalInjective(Fold(JenkinsStep, 0, x), Fold(JenkinsStep, 0, y));
    }
  }
}
