/** Values of the hashes in numbers: the published ones of FNV-1a, one-at-a-time and murmur3, and one of fasthash64. */
module HashValues {
  import opened NumberTheory
  import opened MachineWords
  import opened Detection
  import opened Hashes
  import opened WordHashes
  import opened FastHash

  // ---- exclusive or, byte by byte ----------------------------------------------------------------------

  function Number(x: bv8): nat {
    x as nat
  }

  lemma {:induction false} XorOfBytes(x: bv8, y: bv8)
    ensures Xor(Number(x), Number(y)) == Number(x ^ y)
    decreases Number(x) + Number(y)
  {
    hide Number;
    Halves(x, y);
    XorStep(Number(x), Number(y));
    if Number(x) > 0 || Number(y) > 0 {
      XorOfBytes(x >> 1, y >> 1);
    }
    hide Xor;
  }

  lemma Halves(x: bv8, y: bv8)
    ensures Number(x) / 2 == Number(x >> 1) && Number(y) / 2 == Number(y >> 1)
    ensures Number(x ^ y) / 2 == Number((x >> 1) ^ (y >> 1))
    ensures Number(x ^ y) % 2 == if Number(x) % 2 == Number(y) % 2 then 0 else 1
    ensures Number(x) == Number(y) == 0 ==> Number(x ^ y) == 0
  {
    Half(x);
    Half(y);
    Half(x ^ y);
    HalfXor(x, y);
  }

  lemma Half(x: bv8)
    ensures (x as nat) / 2 == (x >> 1) as nat && (x as nat) % 2 == (x & 1) as nat
  {
  }

  lemma HalfXor(x: bv8, y: bv8)
    ensures (x ^ y) >> 1 == (x >> 1) ^ (y >> 1)
    ensures ((x ^ y) & 1) as nat == if (x & 1) as nat == (y & 1) as nat then 0 else 1
  {
  }

  lemma {:induction false} XorBelow(a: nat, b: nat, x: nat, y: nat, s: nat)
    requires x < Pow(2, s) && y < Pow(2, s)
    ensures Xor(Pow(2, s) * a + x, Pow(2, s) * b + y) == Pow(2, s) * Xor(a, b) + Xor(x, y)
    decreases s
  {
    if s > 0 {
      hide Xor;
      var p := Pow(2, s - 1);
      HalfOf(p, a, x);
      HalfOf(p, b, y);
      XorStep(2 * p * a + x, 2 * p * b + y);
      XorStep(x, y);
      XorBelow(a, b, x / 2, y / 2, s - 1);
      Associate(2, p, Xor(a, b));
    } else {
      assert Xor(0, 0) == 0;
    }
  }

  lemma HalfOf(p: nat, a: nat, x: nat)
    ensures (2 * p * a + x) / 2 == p * a + x / 2 && (2 * p * a + x) % 2 == x % 2
  {
    Associate(2, p, a);
    DivModUnique(2, p * a + x / 2, x % 2);
  }

  lemma XorAppend(a: nat, b: nat, x: bv8, y: bv8)
    ensures Xor(256 * a + x as nat, 256 * b + y as nat) == 256 * Xor(a, b) + (x ^ y) as nat
  {
    assert Pow(2, 8) == 256;
    XorBelow(a, b, x as nat, y as nat, 8);
    XorOfBytes(x, y);
  }

  /** A number with four more bytes at its low end. */
  function Bytes4(n: nat, x: bv8, y: bv8, z: bv8, w: bv8): nat {
    256 * (256 * (256 * (256 * n + x as nat) + y as nat) + z as nat) + w as nat
  }

  lemma Xor4(m: nat, n: nat, a: bv8, b: bv8, c: bv8, d: bv8, x: bv8, y: bv8, z: bv8, w: bv8)
    ensures Xor(Bytes4(m, a, b, c, d), Bytes4(n, x, y, z, w)) == Bytes4(Xor(m, n), a ^ x, b ^ y, c ^ z, d ^ w)
  {
    hide Xor;
    XorAppend(m, n, a, x);
    Xor3(256 * m + a as nat, 256 * n + x as nat, b, c, d, y, z, w);
  }

  lemma Xor3(m: nat, n: nat, b: bv8, c: bv8, d: bv8, y: bv8, z: bv8, w: bv8)
    ensures Xor(256 * (256 * (256 * m + b as nat) + c as nat) + d as nat,
                256 * (256 * (256 * n + y as nat) + z as nat) + w as nat)
         == 256 * (256 * (256 * Xor(m, n) + (b ^ y) as nat) + (c ^ z) as nat) + (d ^ w) as nat
  {
    hide Xor;
    XorAppend(m, n, b, y);
    XorAppend(256 * m + b as nat, 256 * n + y as nat, c, z);
    XorAppend(256 * (256 * m + b as nat) + c as nat, 256 * (256 * n + y as nat) + z as nat, d, w);
  }

  /** A 32-bit exclusive or, byte by byte from the top. */
  lemma XorWords(a: bv8, b: bv8, c: bv8, d: bv8, e: bv8, f: bv8, g: bv8, h: bv8, x: nat, y: nat)
    requires x == Bytes4(0, a, b, c, d) && y == Bytes4(0, e, f, g, h)
    ensures Xor(x, y) == Bytes4(0, a ^ e, b ^ f, c ^ g, d ^ h)
  {
    hide Bytes4;
    assert Xor(0, 0) == 0;
    hide Xor;
    Xor4(0, 0, a, b, c, d, e, f, g, h);
  }

  /** A 64-bit exclusive or, byte by byte from the top. */
  lemma Xor8(a: bv8, b: bv8, c: bv8, d: bv8, e: bv8, f: bv8, g: bv8, h: bv8,
             i: bv8, j: bv8, k: bv8, l: bv8, m: bv8, n: bv8, o: bv8, p: bv8, x: nat, y: nat)
    requires x == Bytes4(Bytes4(0, a, b, c, d), e, f, g, h) && y == Bytes4(Bytes4(0, i, j, k, l), m, n, o, p)
    ensures Xor(x, y) == Bytes4(Bytes4(0, a ^ i, b ^ j, c ^ k, d ^ l), e ^ m, f ^ n, g ^ o, h ^ p)
  {
    hide Bytes4;
    assert Xor(0, 0) == 0;
    hide Xor;
    Xor4(0, 0, a, b, c, d, i, j, k, l);
    Xor4(Bytes4(0, a, b, c, d), Bytes4(0, i, j, k, l), e, f, g, h, m, n, o, p);
  }

  lemma {:induction false} ShrIs(x: nat, s: nat)
    ensures Pow(2, s) > 0 && Shr(x, s) == x / Pow(2, s)
  {
    if s > 0 {
      ShrIs(x / 2, s - 1);
      HalvedFirst(x, Pow(2, s - 1));
    }
  }

  lemma HalvedFirst(x: nat, p: nat)
    requires p > 0
    ensures x / 2 / p == x / (2 * p)
  {
    var q, r := x / 2 / p, x / 2 % p;
    assert x == 2 * (p * q + r) + x % 2;
    Associate(2, p, q);
    DivModUnique(2 * p, q, 2 * r + x % 2);
  }

  lemma ShiftPowers()
    ensures Pow(2, 6) == 0x40 && Pow(2, 11) == 0x800 && Pow(2, 13) == 0x2000 && Pow(2, 16) == 0x1_0000
    ensures Pow(2, 23) == 0x80_0000 && Pow(2, 47) == 0x8000_0000_0000
  {
    assert Pow(2, 5) == 0x20 && Pow(2, 6) == 0x40;
    PowAdd(2, 5, 6);
    PowAdd(2, 2, 11);
    PowAdd(2, 5, 11);
    PowAdd(2, 7, 16);
    PowAdd(2, 1, 23);
    PowAdd(2, 23, 24);
    assert Pow(2, 7) == 0x80 && Pow(2, 2) == 4 && Pow(2, 1) == 2;
  }

  // ---- FNV-1a ------------------------------------------------------------------------------------------

  lemma XorLow(q: nat, x: bv8, y: bv8)
    ensures Xor(256 * q + x as nat, y as nat) == 256 * q + (x ^ y) as nat
  {
    XorAppend(q, 0, x, y);
    XorZero(q);
  }

  /** One step in numbers; below 128 it does not matter whether char is signed. */
  lemma FnvStepIs32(signed: bool, y: bv8, q: nat, l: bv8)
    requires y < 128 && 256 * q + (l as nat) < TWO_32
    ensures FnvStep32(signed)(256 * q + l as nat, y as nat) == (256 * q + (l ^ y) as nat) * FNV_PRIME_32 % TWO_32
  {
    XorLow(q, l, y);
    hide Xor;
  }

  lemma FnvStepIs64(signed: bool, y: bv8, q: nat, l: bv8)
    requires y < 128 && 256 * q + (l as nat) < TWO_64
    ensures FnvStep64(signed)(256 * q + l as nat, y as nat) == (256 * q + (l ^ y) as nat) * FNV_PRIME_64 % TWO_64
  {
    XorLow(q, l, y);
    hide Xor;
  }

  /** One more byte. */
  lemma FnvNext32(x: seq<Byte>, signed: bool, y: bv8, q: nat, l: bv8)
    requires y < 128 && Fnv32(x, signed) == 256 * q + l as nat
    ensures Fnv32(x + [y as nat], signed) == (256 * q + (l ^ y) as nat) * FNV_PRIME_32 % TWO_32
  {
    var e: Byte := y as nat;
    FoldSnoc(FnvStep32(signed), FNV_OFFSET_32, x, e);
    FnvStepIs32(signed, y, q, l);
  }

  lemma FnvNext64(x: seq<Byte>, signed: bool, y: bv8, q: nat, l: bv8)
    requires y < 128 && Fnv64(x, signed) == 256 * q + l as nat
    ensures Fnv64(x + [y as nat], signed) == (256 * q + (l ^ y) as nat) * FNV_PRIME_64 % TWO_64
  {
    var e: Byte := y as nat;
    FoldSnoc(FnvStep64(signed), FNV_OFFSET_64, x, e);
    FnvStepIs64(signed, y, q, l);
  }

  /** The published 32-bit value of "foobar". */
  lemma Foobar32(signed: bool)
    ensures Fnv32([102, 111, 111, 98, 97, 114], signed) == 0xbf9c_f968
  {
    hide Fnv32;
    FnvOfNothing(signed);
    var x: seq<Byte> := [];
    FnvNext32(x, signed, 102, 0x81_1c9d, 0xc5);
    x := x + [102];
    assert Fnv32(x, signed) == 0xe30c_2799;
    FnvNext32(x, signed, 111, 0xe3_0c27, 0x99);
    x := x + [111];
    assert Fnv32(x, signed) == 0x6222_e842;
    FnvNext32(x, signed, 111, 0x62_22e8, 0x42);
    x := x + [111];
    assert Fnv32(x, signed) == 0xa9f3_7ed7;
    FnvNext32(x, signed, 98, 0xa9_f37e, 0xd7);
    x := x + [98];
    assert Fnv32(x, signed) == 0x3f50_76ef;
    FnvNext32(x, signed, 97, 0x3f_5076, 0xef);
    x := x + [97];
    assert Fnv32(x, signed) == 0x39aa_a18a;
    FnvNext32(x, signed, 114, 0x39_aaa1, 0x8a);
    x := x + [114];
    assert Fnv32(x, signed) == 0xbf9c_f968;
    assert x == [102, 111, 111, 98, 97, 114];
  }

  /** The published 64-bit value of "foobar". */
  lemma Foobar64(signed: bool)
    ensures Fnv64([102, 111, 111, 98, 97, 114], signed) == 0x8594_4171_f739_67e8
  {
    hide Fnv64;
    FnvOfNothing(signed);
    var x: seq<Byte> := [];
    FnvNext64(x, signed, 102, 0xcb_f29c_e484_2223, 0x25);
    x := x + [102];
    assert Fnv64(x, signed) == 0xaf63_db4c_8601_ead9;
    FnvNext64(x, signed, 111, 0xaf_63db_4c86_01ea, 0xd9);
    x := x + [111];
    assert Fnv64(x, signed) == 0x0898_5907_b541_d342;
    FnvNext64(x, signed, 111, 0x8_9859_07b5_41d3, 0x42);
    x := x + [111];
    assert Fnv64(x, signed) == 0xdcb2_7518_fed9_d577;
    FnvNext64(x, signed, 98, 0xdc_b275_18fe_d9d5, 0x77);
    x := x + [98];
    assert Fnv64(x, signed) == 0xdd12_0e79_0c25_12af;
    FnvNext64(x, signed, 97, 0xdd_120e_790c_2512, 0xaf);
    x := x + [97];
    assert Fnv64(x, signed) == 0xcac1_65af_a2fe_f40a;
    FnvNext64(x, signed, 114, 0xca_c165_afa2_fef4, 0x0a);
    x := x + [114];
    assert Fnv64(x, signed) == 0x8594_4171_f739_67e8;
    assert x == [102, 111, 111, 98, 97, 114];
  }

  lemma FnvOfNothing(signed: bool)
    ensures Fnv32([], signed) == 0x811c_9dc5 && Fnv64([], signed) == 0xcbf2_9ce4_8422_2325
  {
  }

  /** A byte from 128 on, where it does matter. */
  lemma FnvOfHighByte32()
    ensures Fnv32([255], true) == 0xf9f3_a14e && Fnv32([255], false) == 0x7a0b_824e
  {
    HighByte32();
    OneElement(FnvStep32(true), FNV_OFFSET_32, 255);
    OneElement(FnvStep32(false), FNV_OFFSET_32, 255);
    hide Xor32, Mul32, Fold;
  }

  lemma HighByte32()
    ensures FnvStep32(true)(FNV_OFFSET_32, 255) == 0xf9f3_a14e
    ensures FnvStep32(false)(FNV_OFFSET_32, 255) == 0x7a0b_824e
  {
    hide Xor;
    XorWords(0x81, 0x1c, 0x9d, 0xc5, 0xff, 0xff, 0xff, 0xff, 0x811c_9dc5, 0xffff_ffff);
    assert Xor(0x811c_9dc5, 0xffff_ffff) == 0x7ee3_623a;
    XorWords(0x81, 0x1c, 0x9d, 0xc5, 0x00, 0x00, 0x00, 0xff, 0x811c_9dc5, 255);
    assert Xor(0x811c_9dc5, 255) == 0x811c_9d3a;
  }

  /** A byte from 128 on, where it does matter. */
  lemma FnvOfHighByte64()
    ensures Fnv64([255], true) == 0x509c_41b3_79fe_466e && Fnv64([255], false) == 0xaf64_724c_8602_eb6e
  {
    HighByte64();
    OneElement(FnvStep64(true), FNV_OFFSET_64, 255);
    OneElement(FnvStep64(false), FNV_OFFSET_64, 255);
    hide Xor64, Mul64, Fold;
  }

  lemma HighByte64()
    ensures FnvStep64(true)(FNV_OFFSET_64, 255) == 0x509c_41b3_79fe_466e
    ensures FnvStep64(false)(FNV_OFFSET_64, 255) == 0xaf64_724c_8602_eb6e
  {
    hide Xor;
    Xor8(0xcb, 0xf2, 0x9c, 0xe4, 0x84, 0x22, 0x23, 0x25,
         0xff, 0xff, 0xff, 0xff, 0xff, 0xff, 0xff, 0xff, 0xcbf2_9ce4_8422_2325, 0xffff_ffff_ffff_ffff);
    assert Xor(0xcbf2_9ce4_8422_2325, 0xffff_ffff_ffff_ffff) == 0x340d_631b_7bdd_dcda;
    Xor8(0xcb, 0xf2, 0x9c, 0xe4, 0x84, 0x22, 0x23, 0x25,
         0x00, 0x00, 0x00, 0x00, 0x00, 0x00, 0x00, 0xff, 0xcbf2_9ce4_8422_2325, 255);
    assert Xor(0xcbf2_9ce4_8422_2325, 255) == 0xcbf2_9ce4_8422_23da;
  }

  // ---- one-at-a-time -----------------------------------------------------------------------------------

  lemma JenkinsOfAStep()
    ensures JenkinsStep(0, 97) == 0x0001_8270
  {
    hide Xor, Shr;
    ShiftPowers();
    ShrIs(0x0001_8461, 6);
    XorWords(0x00, 0x01, 0x84, 0x61, 0x00, 0x00, 0x06, 0x11, 0x0001_8461, 0x0000_0611);
    assert Xor(0x0001_8461, 0x0000_0611) == 0x0001_8270;
  }

  lemma JenkinsOfAFinal()
    ensures JenkinsFinal(0x0001_8270) == 0xca2e_9442
  {
    hide Xor, Shr;
    ShiftPowers();
    ShrIs(0x000d_95f0, 11);
    XorWords(0x00, 0x0d, 0x95, 0xf0, 0x00, 0x00, 0x01, 0xb2, 0x000d_95f0, 0x0000_01b2);
    assert Xor(0x000d_95f0, 0x0000_01b2) == 0x000d_9442;
  }

  /** The published value of "a". */
  lemma JenkinsOfA()
    ensures Jenkins([97]) == 0xca2e_9442
  {
    hide JenkinsStep, JenkinsFinal, Fold;
    OneElement(JenkinsStep, 0, 97);
    JenkinsOfAStep();
    JenkinsOfAFinal();
  }

  lemma OneElement<S, E>(step: (S, E) -> S, s: S, e: E)
    ensures Fold(step, s, [e]) == step(s, e)
  {
    assert [e][1..] == [];
  }

  // ---- murmur3 -----------------------------------------------------------------------------------------

  lemma LittleEndianIs(a: Byte, b: Byte, c: Byte, d: Byte, t: seq<Byte>)
    ensures LittleEndian([a, b, c, d] + t) == a + 256 * (b + 256 * (c + 256 * (d + 256 * LittleEndian(t))))
  {
    FirstByte(a, [b, c, d] + t);
    FirstByte(b, [c, d] + t);
    FirstByte(c, [d] + t);
    FirstByte(d, t);
    hide LittleEndian;
    assert [a] + ([b, c, d] + t) == [a, b, c, d] + t && [b] + ([c, d] + t) == [b, c, d] + t;
    assert [c] + ([d] + t) == [c, d] + t;
  }

  lemma FirstByte(a: Byte, t: seq<Byte>)
    ensures LittleEndian([a] + t) == a + 256 * LittleEndian(t)
  {
    assert ([a] + t)[1..] == t;
  }

  lemma StirIs(x: U32, a: U32, b: U32, h: U32)
    requires Rotate13(x) == a && a * 5 % TWO_32 == b && (b + 0xe654_6b64) % TWO_32 == h
    ensures Add32(Mul32(Rotate13(x), 5), 0xe654_6b64) == h
  {
    hide Rotate13;
  }

  lemma ScrambleIs(k: U32, a: U32, b: U32, w: U32)
    requires k * 0xcc9e_2d51 % TWO_32 == a && Rotate15(a) == b && b * 0x1b87_3593 % TWO_32 == w
    ensures Scramble(k) == w
  {
    hide Rotate15;
  }

  /** One step in numbers: the word k, what it is scrambled to, the state mixed with that, the state after it. */
  lemma MurmurStepIs(h: U32, t: Four, k: U32, w: U32, x: U32, h': U32)
    requires Load32(t) == k && Scramble(k) == w && Xor(h, w) == x && Add32(Mul32(Rotate13(x), 5), 0xe654_6b64) == h'
    ensures MurmurStep(h, t) == h'
  {
    hide Xor, LittleEndian, Scramble, Mul32, Rotate13, Add32;
  }

  lemma Scrambled1()
    ensures Scramble(0x6c6c_6548) == 0x0153_080c
  {
    hide Scramble;
    ScrambleIs(0x6c6c_6548, 0x3e89_b3c8, 0xd9e4_1f44, 0x0153_080c);
  }

  lemma Scrambled2()
    ensures Scramble(0x7720_2c6f) == 0x7d23_8cad
  {
    hide Scramble;
    ScrambleIs(0x7720_2c6f, 0x397f_921f, 0xc90f_9cbf, 0x7d23_8cad);
  }

  lemma Scrambled3()
    ensures Scramble(0x646c_726f) == 0xa9bc_9655
  {
    hide Scramble;
    ScrambleIs(0x646c_726f, 0xeaef_b81f, 0xdc0f_f577, 0xa9bc_9655);
  }

  lemma Stirred1()
    ensures Add32(Mul32(Rotate13(0x9614_ba80), 5), 0xe654_6b64) == 0xdae4_c92e
  {
    StirIs(0x9614_ba80, 0x9750_12c2, 0xf490_5dca, 0xdae4_c92e);
  }

  lemma Stirred2()
    ensures Add32(Mul32(Rotate13(0xa7c7_4583), 5), 0xe654_6b64) == 0x71c6_b43c
  {
    StirIs(0xa7c7_4583, 0xe8b0_74f8, 0x8b72_48d8, 0x71c6_b43c);
  }

  lemma Stirred3()
    ensures Add32(Mul32(Rotate13(0xd87a_2269), 5), 0xe654_6b64) == 0x3bd6_92af
  {
    StirIs(0xd87a_2269, 0x444d_3b0f, 0x5582_274b, 0x3bd6_92af);
  }

  lemma MurmurBlock1()
    ensures MurmurStep(0x9747_b28c, [72, 101, 108, 108]) == 0xdae4_c92e
  {
    hide LittleEndian, Xor, MurmurStep, Scramble, Add32, Mul32, Rotate13;
    var t: Four := [72, 101, 108, 108];
    NoBytes();
    LittleEndianIs(72, 101, 108, 108, []);
    assert t == [72, 101, 108, 108] + [];
    Scrambled1();
    Stirred1();
    MurmurXor1();
    MurmurStepIs(0x9747_b28c, t, 0x6c6c_6548, 0x0153_080c, 0x9614_ba80, 0xdae4_c92e);
  }

  lemma MurmurXor1()
    ensures Xor(0x9747_b28c, 0x0153_080c) == 0x9614_ba80
  {
    hide Xor;
    XorWords(0x97, 0x47, 0xb2, 0x8c, 0x01, 0x53, 0x08, 0x0c, 0x9747_b28c, 0x0153_080c);
    assert Xor(0x9747_b28c, 0x0153_080c) == 0x9614_ba80;
  }

  lemma MurmurBlock2()
    ensures MurmurStep(0xdae4_c92e, [111, 44, 32, 119]) == 0x71c6_b43c
  {
    hide LittleEndian, Xor, MurmurStep, Scramble, Add32, Mul32, Rotate13;
    var t: Four := [111, 44, 32, 119];
    NoBytes();
    LittleEndianIs(111, 44, 32, 119, []);
    assert t == [111, 44, 32, 119] + [];
    Scrambled2();
    Stirred2();
    MurmurXor2();
    MurmurStepIs(0xdae4_c92e, t, 0x7720_2c6f, 0x7d23_8cad, 0xa7c7_4583, 0x71c6_b43c);
  }

  lemma MurmurXor2()
    ensures Xor(0xdae4_c92e, 0x7d23_8cad) == 0xa7c7_4583
  {
    hide Xor;
    XorWords(0xda, 0xe4, 0xc9, 0x2e, 0x7d, 0x23, 0x8c, 0xad, 0xdae4_c92e, 0x7d23_8cad);
    assert Xor(0xdae4_c92e, 0x7d23_8cad) == 0xa7c7_4583;
  }

  lemma MurmurBlock3()
    ensures MurmurStep(0x71c6_b43c, [111, 114, 108, 100]) == 0x3bd6_92af
  {
    hide LittleEndian, Xor, MurmurStep, Scramble, Add32, Mul32, Rotate13;
    var t: Four := [111, 114, 108, 100];
    NoBytes();
    LittleEndianIs(111, 114, 108, 100, []);
    assert t == [111, 114, 108, 100] + [];
    Scrambled3();
    Stirred3();
    MurmurXor3();
    MurmurStepIs(0x71c6_b43c, t, 0x646c_726f, 0xa9bc_9655, 0xd87a_2269, 0x3bd6_92af);
  }

  lemma MurmurXor3()
    ensures Xor(0x71c6_b43c, 0xa9bc_9655) == 0xd87a_2269
  {
    hide Xor;
    XorWords(0x71, 0xc6, 0xb4, 0x3c, 0xa9, 0xbc, 0x96, 0x55, 0x71c6_b43c, 0xa9bc_9655);
    assert Xor(0x71c6_b43c, 0xa9bc_9655) == 0xd87a_2269;
  }

  lemma NoBytes()
    ensures LittleEndian([]) == 0
  {
  }

  lemma Fmix1()
    ensures XorShifted32(0x9788_c381, 16) == 0x9788_5409
  {
    hide Xor, Shr;
    ShiftPowers();
    ShrIs(0x9788_c381, 16);
    XorWords(0x97, 0x88, 0xc3, 0x81, 0x00, 0x00, 0x97, 0x88, 0x9788_c381, 0x0000_9788);
    assert Xor(0x9788_c381, 0x0000_9788) == 0x9788_5409;
  }

  lemma Fmix2()
    ensures XorShifted32(0xb98d_39c3, 13) == 0xb988_f5aa
  {
    hide Xor, Shr;
    ShiftPowers();
    ShrIs(0xb98d_39c3, 13);
    XorWords(0xb9, 0x8d, 0x39, 0xc3, 0x00, 0x05, 0xcc, 0x69, 0xb98d_39c3, 0x0005_cc69);
    assert Xor(0xb98d_39c3, 0x0005_cc69) == 0xb988_f5aa;
  }

  lemma Fmix3()
    ensures XorShifted32(0x2488_6832, 16) == 0x2488_4cba
  {
    hide Xor, Shr;
    ShiftPowers();
    ShrIs(0x2488_6832, 16);
    XorWords(0x24, 0x88, 0x68, 0x32, 0x00, 0x00, 0x24, 0x88, 0x2488_6832, 0x0000_2488);
    assert Xor(0x2488_6832, 0x0000_2488) == 0x2488_4cba;
  }

  lemma MurmurFmix()
    ensures Fmix(0x9788_c381) == 0x2488_4cba
  {
    hide XorShifted32;
    Fmix1();
    Fmix2();
    Fmix3();
  }

  lemma MurmurTail()
    ensures TailWord([33]) == 33 && Scramble(33) == 0xac5e_5123
    ensures Xor(0x3bd6_92af, 0xac5e_5123) == 0x9788_c38c && Xor(0x9788_c38c, 13) == 0x9788_c381
  {
    hide Xor, Scramble;
    assert [33][1..] == [];
    ScrambleIs(33, 0x6063_d771, 0xebb8_b031, 0xac5e_5123);
    XorWords(0x3b, 0xd6, 0x92, 0xaf, 0xac, 0x5e, 0x51, 0x23, 0x3bd6_92af, 0xac5e_5123);
    assert Xor(0x3bd6_92af, 0xac5e_5123) == 0x9788_c38c;
    XorWords(0x97, 0x88, 0xc3, 0x8c, 0x00, 0x00, 0x00, 0x0d, 0x9788_c38c, 13);
    assert Xor(0x9788_c38c, 13) == 0x9788_c381;
  }

  lemma FourBlocks(t: Four, u: Four, v: Four, w: seq<Byte>)
    requires |w| < 4
    ensures Fours(t + u + v + w) == [t, u, v] && Tail4(t + u + v + w) == w
  {
    var x := t + u + v + w;
    assert x == t + (u + (v + w)) && x[12..] == w;
    FirstFour(t, u + (v + w));
    FirstFour(u, v + w);
    FirstFour(v, w);
  }

  lemma FirstFour(t: Four, x: seq<Byte>)
    ensures Fours(t + x) == [t] + Fours(x)
  {
    assert (t + x)[..4] == t && (t + x)[4..] == x;
  }

  lemma ThreeElements<S, E>(step: (S, E) -> S, s: S, t: E, u: E, v: E)
    ensures Fold(step, s, [t, u, v]) == step(step(step(s, t), u), v)
  {
    assert [t, u, v][1..] == [u, v] && [u, v][1..] == [v];
    assert Fold(step, s, [t, u, v]) == Fold(step, step(s, t), [u, v]);
    OneElement(step, step(step(s, t), u), v);
  }

  /** The published value of "Hello, world!" with seed 0x9747b28c. */
  lemma MurmurOfHello()
    ensures Murmur([72, 101, 108, 108, 111, 44, 32, 119, 111, 114, 108, 100, 33], 0x9747_b28c) == 0x2488_4cba
  {
    hide MurmurStep, Fmix, Xor, LittleEndian, Scramble, Fours, Tail4;
    var t: Four, u: Four, v: Four := [72, 101, 108, 108], [111, 44, 32, 119], [111, 114, 108, 100];
    FourBlocks(t, u, v, [33]);
    assert t + u + v + [33] == [72, 101, 108, 108, 111, 44, 32, 119, 111, 114, 108, 100, 33];
    ThreeElements(MurmurStep, 0x9747_b28c, t, u, v);
    MurmurBlock1();
    MurmurBlock2();
    MurmurBlock3();
    MurmurTail();
    MurmurFmix();
  }

  // ---- fasthash64 --------------------------------------------------------------------------------------

  lemma FirstMix()
    ensures Mix(0x7720_2c6f_6c6c_6548) == 0x3357_80e5_54dc_6d5f
  {
    hide Xor, Shr;
    ShiftPowers();
    ShrIs(0x7720_2c6f_6c6c_6548, 23);
    Xor8(0x77, 0x20, 0x2c, 0x6f, 0x6c, 0x6c, 0x65, 0x48,
         0x00, 0x00, 0x00, 0xee, 0x40, 0x58, 0xde, 0xd8, 0x7720_2c6f_6c6c_6548, 0x00ee_4058_ded8);
    assert Xor(0x7720_2c6f_6c6c_6548, 0x00ee_4058_ded8) == 0x7720_2c81_2c34_bb90;
    assert Mul64(0x7720_2c81_2c34_bb90, MIX) == 0x3357_80e5_54dc_0bf0;
    hide Mul64;
    ShrIs(0x3357_80e5_54dc_0bf0, 47);
    Xor8(0x33, 0x57, 0x80, 0xe5, 0x54, 0xdc, 0x0b, 0xf0,
         0x00, 0x00, 0x00, 0x00, 0x00, 0x00, 0x66, 0xaf, 0x3357_80e5_54dc_0bf0, 0x66af);
    assert Xor(0x3357_80e5_54dc_0bf0, 0x66af) == 0x3357_80e5_54dc_6d5f;
  }

  lemma TailMix()
    ensures Mix(0x0021_646c_726f) == 0x3525_46e1_2158_1dab
  {
    hide Xor, Shr;
    ShiftPowers();
    ShrIs(0x0021_646c_726f, 23);
    Xor8(0x00, 0x00, 0x00, 0x21, 0x64, 0x6c, 0x72, 0x6f,
         0x00, 0x00, 0x00, 0x00, 0x00, 0x00, 0x42, 0xc8, 0x0021_646c_726f, 0x42c8);
    assert Xor(0x0021_646c_726f, 0x42c8) == 0x0021_646c_30a7;
    assert Mul64(0x0021_646c_30a7, MIX) == 0x3525_46e1_2158_77e1;
    hide Mul64;
    ShrIs(0x3525_46e1_2158_77e1, 47);
    Xor8(0x35, 0x25, 0x46, 0xe1, 0x21, 0x58, 0x77, 0xe1,
         0x00, 0x00, 0x00, 0x00, 0x00, 0x00, 0x6a, 0x4a, 0x3525_46e1_2158_77e1, 0x6a4a);
    assert Xor(0x3525_46e1_2158_77e1, 0x6a4a) == 0x3525_46e1_2158_1dab;
  }

  lemma LastMix()
    ensures Mix(0x8a15_be8f_07f2_3a70) == 0x7b03_50fd_30ac_8d4f
  {
    hide Xor, Shr;
    ShiftPowers();
    ShrIs(0x8a15_be8f_07f2_3a70, 23);
    Xor8(0x8a, 0x15, 0xbe, 0x8f, 0x07, 0xf2, 0x3a, 0x70,
         0x00, 0x00, 0x01, 0x14, 0x2b, 0x7d, 0x1e, 0x0f, 0x8a15_be8f_07f2_3a70, 0x0114_2b7d_1e0f);
    assert Xor(0x8a15_be8f_07f2_3a70, 0x0114_2b7d_1e0f) == 0x8a15_bf9b_2c8f_247f;
    assert Mul64(0x8a15_bf9b_2c8f_247f, MIX) == 0x7b03_50fd_30ac_7b49;
    hide Mul64;
    ShrIs(0x7b03_50fd_30ac_7b49, 47);
    Xor8(0x7b, 0x03, 0x50, 0xfd, 0x30, 0xac, 0x7b, 0x49,
         0x00, 0x00, 0x00, 0x00, 0x00, 0x00, 0xf6, 0x06, 0x7b03_50fd_30ac_7b49, 0xf606);
    assert Xor(0x7b03_50fd_30ac_7b49, 0xf606) == 0x7b03_50fd_30ac_8d4f;
  }

  lemma FastFirst()
    ensures FastStart(13, 1) == 0xe82b_5d4b_8b8a_4a20
    ensures FastMix(0xe82b_5d4b_8b8a_4a20, 0x7720_2c6f_6c6c_6548) == 0x5496_3b2b_39eb_fc1b
  {
    hide Xor, Mix;
    FirstMix();
    Xor8(0x00, 0x00, 0x00, 0x00, 0x00, 0x00, 0x00, 0x01,
         0xe8, 0x2b, 0x5d, 0x4b, 0x8b, 0x8a, 0x4a, 0x21, 0x0001, 0xe82b_5d4b_8b8a_4a21);
    assert Xor(0x0001, 0xe82b_5d4b_8b8a_4a21) == 0xe82b_5d4b_8b8a_4a20;
    Xor8(0xe8, 0x2b, 0x5d, 0x4b, 0x8b, 0x8a, 0x4a, 0x20,
         0x33, 0x57, 0x80, 0xe5, 0x54, 0xdc, 0x6d, 0x5f, 0xe82b_5d4b_8b8a_4a20, 0x3357_80e5_54dc_6d5f);
    assert Xor(0xe82b_5d4b_8b8a_4a20, 0x3357_80e5_54dc_6d5f) == 0xdb7c_ddae_df56_277f;
  }

  lemma FastTail()
    ensures FastMix(0x5496_3b2b_39eb_fc1b, 0x0021_646c_726f) == 0x8a15_be8f_07f2_3a70
  {
    hide Xor, Mix;
    TailMix();
    Xor8(0x54, 0x96, 0x3b, 0x2b, 0x39, 0xeb, 0xfc, 0x1b,
         0x35, 0x25, 0x46, 0xe1, 0x21, 0x58, 0x1d, 0xab, 0x5496_3b2b_39eb_fc1b, 0x3525_46e1_2158_1dab);
    assert Xor(0x5496_3b2b_39eb_fc1b, 0x3525_46e1_2158_1dab) == 0x61b3_7dca_18b3_e1b0;
  }

  lemma FastWords()
    ensures Load64([72, 101, 108, 108, 111, 44, 32, 119]) == 0x7720_2c6f_6c6c_6548
    ensures TailWord8([111, 114, 108, 100, 33]) == 0x0021_646c_726f
  {
    hide LittleEndian;
    NoBytes();
    LittleEndianIs(72, 101, 108, 108, [111, 44, 32, 119]);
    LittleEndianIs(111, 44, 32, 119, []);
    LittleEndianIs(111, 114, 108, 100, [33]);
    assert [72, 101, 108, 108, 111, 44, 32, 119] == [72, 101, 108, 108] + [111, 44, 32, 119];
    assert [111, 44, 32, 119] == [111, 44, 32, 119] + [] && [111, 114, 108, 100, 33] == [111, 114, 108, 100] + [33];
    assert LittleEndian([33]) == 33 by { LastByte(); }
  }

  lemma LastByte()
    ensures LittleEndian([33]) == 33
  {
    assert [33][1..] == [];
  }

  /** The value of "Hello, world!" with seed 1. */
  lemma FastOfHello()
    ensures FastHash64([72, 101, 108, 108, 111, 44, 32, 119, 111, 114, 108, 100, 33], 1) == 0x7b03_50fd_30ac_8d4f
  {
    hide Mix, FastMix, Xor, LittleEndian, FastStart;
    var x: seq<Byte> := [72, 101, 108, 108, 111, 44, 32, 119, 111, 114, 108, 100, 33];
    var t: Eight := [72, 101, 108, 108, 111, 44, 32, 119];
    assert x[..8] == t && x[8..] == [111, 114, 108, 100, 33];
    assert Eights(x) == [t];
    OneElement(FastStep, FastStart(13, 1), t);
    FastWords();
    FastFirst();
    FastTail();
    LastMix();
  }
}
