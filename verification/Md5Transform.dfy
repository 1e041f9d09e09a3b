/** The MD5 transformation: the definition of section 3.4 of RFC 1321 and the unrolled code that computes it (cphash.cc). */
module Md5Transform {

  datatype Chain = Chain(a: bv32, b: bv32, c: bv32, d: bv32)

  // ---- section 3.4 of RFC 1321 -------------------------------------------------------------------

  function RfcF(x: bv32, y: bv32, z: bv32): bv32 { (x & y) | (!x & z) }

  function RfcG(x: bv32, y: bv32, z: bv32): bv32 { (x & z) | (y & !z) }

  function RfcH(x: bv32, y: bv32, z: bv32): bv32 { x ^ y ^ z }

  function RfcI(x: bv32, y: bv32, z: bv32): bv32 { y ^ (x | !z) }

  /** The auxiliary function, word index, shift and table entry of operation i, from 0 to 15, of round r, from 0 to 3. */
  function Auxiliary(r: nat, x: bv32, y: bv32, z: bv32): bv32 {
    match r case 0 => RfcF(x, y, z) case 1 => RfcG(x, y, z) case 2 => RfcH(x, y, z) case _ => RfcI(x, y, z)
  }

  function WordIndex(r: nat, i: nat): (k: nat)
    ensures k < 16
  {
    (match r case 0 => i case 1 => 5 * i + 1 case 2 => 3 * i + 5 case _ => 7 * i) % 16
  }

  function Shift(r: nat, i: nat): (s: nat)
    ensures s <= 32
  {
    var j := i % 4;
    match r
    case 0 => if j == 0 then 7 else if j == 1 then 12 else if j == 2 then 17 else 22
    case 1 => if j == 0 then 5 else if j == 1 then 9 else if j == 2 then 14 else 20
    case 2 => if j == 0 then 4 else if j == 1 then 11 else if j == 2 then 16 else 23
    case _ => if j == 0 then 6 else if j == 1 then 10 else if j == 2 then 15 else 21
  }

  /** The table of 2^32 * |sin(n)|, n being 16 * r + i + 1 in radians. */
  function Table(r: nat, i: nat): bv32 {
    match r case 0 => Table1(i) case 1 => Table2(i) case 2 => Table3(i) case _ => Table4(i)
  }

  function Table1(i: nat): bv32 {
    match i
    case 0 => 0xd76aa478 case 1 => 0xe8c7b756 case 2 => 0x242070db case 3 => 0xc1bdceee
    case 4 => 0xf57c0faf case 5 => 0x4787c62a case 6 => 0xa8304613 case 7 => 0xfd469501
    case 8 => 0x698098d8 case 9 => 0x8b44f7af case 10 => 0xffff5bb1 case 11 => 0x895cd7be
    case 12 => 0x6b901122 case 13 => 0xfd987193 case 14 => 0xa679438e case _ => 0x49b40821
  }

  function Table2(i: nat): bv32 {
    match i
    case 0 => 0xf61e2562 case 1 => 0xc040b340 case 2 => 0x265e5a51 case 3 => 0xe9b6c7aa
    case 4 => 0xd62f105d case 5 => 0x02441453 case 6 => 0xd8a1e681 case 7 => 0xe7d3fbc8
    case 8 => 0x21e1cde6 case 9 => 0xc33707d6 case 10 => 0xf4d50d87 case 11 => 0x455a14ed
    case 12 => 0xa9e3e905 case 13 => 0xfcefa3f8 case 14 => 0x676f02d9 case _ => 0x8d2a4c8a
  }

  function Table3(i: nat): bv32 {
    match i
    case 0 => 0xfffa3942 case 1 => 0x8771f681 case 2 => 0x6d9d6122 case 3 => 0xfde5380c
    case 4 => 0xa4beea44 case 5 => 0x4bdecfa9 case 6 => 0xf6bb4b60 case 7 => 0xbebfbc70
    case 8 => 0x289b7ec6 case 9 => 0xeaa127fa case 10 => 0xd4ef3085 case 11 => 0x04881d05
    case 12 => 0xd9d4d039 case 13 => 0xe6db99e5 case 14 => 0x1fa27cf8 case _ => 0xc4ac5665
  }

  function Table4(i: nat): bv32 {
    match i
    case 0 => 0xf4292244 case 1 => 0x432aff97 case 2 => 0xab9423a7 case 3 => 0xfc93a039
    case 4 => 0x655b59c3 case 5 => 0x8f0ccc92 case 6 => 0xffeff47d case 7 => 0x85845dd1
    case 8 => 0x6fa87e4f case 9 => 0xfe2ce6e0 case 10 => 0xa3014314 case 11 => 0x4e0811a1
    case 12 => 0xf7537e82 case 13 => 0xbd3af235 case 14 => 0x2ad7d2bb case _ => 0xeb86d391
  }

  /** x <<< s. */
  function Circular(x: bv32, s: nat): bv32
    requires s <= 32
  {
    x.RotateLeft(s)
  }

  function Addends(a: bv32, f: bv32, x: bv32, t: bv32): bv32 {
    a + f + x + t
  }

  function Plus(x: bv32, y: bv32): bv32 {
    x + y
  }

  /** a = b + ((a + f + x + t) <<< s). */
  function Operation(f: bv32, a: bv32, b: bv32, x: bv32, t: bv32, s: nat): bv32
    requires s <= 32
  {
    Plus(Circular(Addends(a, f, x, t), s), b)
  }

  /** One operation on the four words in the order [abcd], [dabc], [cdab], [bcda]: the words change roles at each. */
  function RfcStep(h: Chain, x: seq<bv32>, r: nat, i: nat): Chain
    requires |x| == 16
  {
    Chain(h.d, Operation(Auxiliary(r, h.b, h.c, h.d), h.a, h.b, x[WordIndex(r, i)], Table(r, i), Shift(r, i)), h.b, h.c)
  }

  /** The first n operations of round r. */
  function RfcSteps(h: Chain, x: seq<bv32>, r: nat, n: nat): Chain
    requires |x| == 16
  {
    if n == 0 then h else RfcStep(RfcSteps(h, x, r, n - 1), x, r, n - 1)
  }

  /** A word has its low-order byte first (section 2 of the RFC). */
  function Word(p: seq<bv8>, k: nat): bv32
    requires 4 * k + 4 <= |p|
  {
    p[4 * k] as bv32 + 0x100 * p[4 * k + 1] as bv32 + 0x1_0000 * p[4 * k + 2] as bv32 + 0x100_0000 * p[4 * k + 3] as bv32
  }

  function Words(p: seq<bv8>): (x: seq<bv32>)
    requires |p| == 64
    ensures |x| == 16
  {
    seq(16, k requires 0 <= k < 16 => Word(p, k))
  }

  function Rounds(h: Chain, x: seq<bv32>): Chain
    requires |x| == 16
  {
    RfcSteps(RfcSteps(RfcSteps(RfcSteps(h, x, 0, |x|), x, 1, |x|), x, 2, |x|), x, 3, |x|)
  }

  function Sum(r: Chain, h: Chain): Chain {
    Chain(r.a + h.a, r.b + h.b, r.c + h.c, r.d + h.d)
  }

  /** The compression function: four rounds of one operation for each word, then the old words added to the new. */
  function Compress(h: Chain, block: seq<bv8>): Chain
    requires |block| == 64
  {
    Sum(Rounds(h, Words(block)), h)
  }

  // ---- the code ------------------------------------------------------------------------------------

  function F(x: bv32, y: bv32, z: bv32): bv32 { z ^ (x & (y ^ z)) }

  function G(x: bv32, y: bv32, z: bv32): bv32 { y ^ (z & (x ^ y)) }

  function H(x: bv32, y: bv32, z: bv32): bv32 { (x ^ y) ^ z }

  function H2(x: bv32, y: bv32, z: bv32): bv32 { x ^ (y ^ z) }

  function I(x: bv32, y: bv32, z: bv32): bv32 { y ^ (x | !z) }

  function Step(f: bv32, a: bv32, b: bv32, x: bv32, t: bv32, s: nat): bv32
    requires s <= 32
  {
    Plus(Rotate(Added(a, f, x, t), s), b)
  }

  function Added(a: bv32, f: bv32, x: bv32, t: bv32): bv32 {
    a + (f + x + t)
  }

  function Rotate(a: bv32, s: nat): bv32
    requires s <= 32
  {
    (a << s) | ((a & 0xffff_ffff) >> (32 - s))
  }

  function Set(ptr: seq<bv8>, n: nat): bv32
    requires 4 * n + 4 <= |ptr|
  {
    (ptr[4 * n] as bv32) | ((ptr[4 * n + 1] as bv32) << 8) | ((ptr[4 * n + 2] as bv32) << 16)
    | ((ptr[4 * n + 3] as bv32) << 24)
  }

  /** The shortcuts of the code are the functions of the RFC. */
  lemma FAgrees(x: bv32, y: bv32, z: bv32)
    ensures F(x, y, z) == RfcF(x, y, z)
  {
    Select(x, y, z);
  }

  lemma GAgrees(x: bv32, y: bv32, z: bv32)
    ensures G(x, y, z) == RfcG(x, y, z)
  {
    Select(z, x, y);
  }

  lemma Select(x: bv32, y: bv32, z: bv32)
    ensures z ^ (x & (y ^ z)) == (x & y) | (!x & z)
    ensures z ^ (x & (y ^ z)) == (y & x) | (z & !x)
  {
  }

  lemma HAgrees(x: bv32, y: bv32, z: bv32)
    ensures H(x, y, z) == RfcH(x, y, z) && H2(x, y, z) == RfcH(x, y, z)
  {
  }

  lemma IAgrees(x: bv32, y: bv32, z: bv32)
    ensures I(x, y, z) == RfcI(x, y, z)
  {
  }

  lemma StepAgrees(f: bv32, a: bv32, b: bv32, x: bv32, t: bv32, r: nat, i: nat)
    ensures Step(f, a, b, x, t, Shift(r, i)) == Operation(f, a, b, x, t, Shift(r, i))
  {
    hide Rotate, Circular, Shift, Addends, Added, Plus;
    AddedAgrees(a, f, x, t);
    RotateAgrees(Added(a, f, x, t), r, i);
  }

  lemma AddedAgrees(a: bv32, f: bv32, x: bv32, t: bv32)
    ensures Added(a, f, x, t) == Addends(a, f, x, t)
  {
  }

  /** The shifts and the or of the code are the circular shift, for the amounts in use. */
  lemma RotateAgrees(w: bv32, r: nat, i: nat)
    ensures Rotate(w, Shift(r, i)) == Circular(w, Shift(r, i))
  {
    hide Rotate, Circular;
    match r
    case 0 => Rotate1(w);
    case 1 => Rotate2(w);
    case 2 => Rotate3(w);
    case _ => Rotate4(w);
  }

  lemma Rotate1(w: bv32)
    ensures Rotate(w, 7) == Circular(w, 7) && Rotate(w, 12) == Circular(w, 12)
    ensures Rotate(w, 17) == Circular(w, 17) && Rotate(w, 22) == Circular(w, 22)
  {
  }

  lemma Rotate2(w: bv32)
    ensures Rotate(w, 5) == Circular(w, 5) && Rotate(w, 9) == Circular(w, 9)
    ensures Rotate(w, 14) == Circular(w, 14) && Rotate(w, 20) == Circular(w, 20)
  {
  }

  lemma Rotate3(w: bv32)
    ensures Rotate(w, 4) == Circular(w, 4) && Rotate(w, 11) == Circular(w, 11)
    ensures Rotate(w, 16) == Circular(w, 16) && Rotate(w, 23) == Circular(w, 23)
  {
  }

  lemma Rotate4(w: bv32)
    ensures Rotate(w, 6) == Circular(w, 6) && Rotate(w, 10) == Circular(w, 10)
    ensures Rotate(w, 15) == Circular(w, 15) && Rotate(w, 21) == Circular(w, 21)
  {
  }

  lemma SetAgrees(ptr: seq<bv8>, n: nat)
    requires 4 * n + 4 <= |ptr|
    ensures Set(ptr, n) == Word(ptr, n)
  {
  }

  /** The macro argument f of the even and of the odd steps of round r. */
  function Even(r: nat, x: bv32, y: bv32, z: bv32): bv32 {
    match r case 0 => F(x, y, z) case 1 => G(x, y, z) case 2 => H(x, y, z) case _ => I(x, y, z)
  }

  function Odd(r: nat, x: bv32, y: bv32, z: bv32): bv32 {
    match r case 0 => F(x, y, z) case 1 => G(x, y, z) case 2 => H2(x, y, z) case _ => I(x, y, z)
  }

  lemma AuxiliaryAgrees(r: nat, x: bv32, y: bv32, z: bv32)
    ensures Even(r, x, y, z) == Odd(r, x, y, z) == Auxiliary(r, x, y, z)
  {
    hide F, G, H, H2, I, RfcF, RfcG, RfcH, RfcI;
    FAgrees(x, y, z); GAgrees(x, y, z); HAgrees(x, y, z); IAgrees(x, y, z);
  }

  /** Operation i of round r takes word k and shift s. */
  predicate Uses(r: nat, i: nat, k: nat, s: nat) {
    k == WordIndex(r, i) && s == Shift(r, i)
  }

  /** One code step is one operation of the RFC. */
  lemma NextStep(h0: Chain, x: seq<bv32>, r: nat, i: nat, h: Chain, k: nat, t: bv32, s: nat)
    requires |x| == 16 && h == RfcSteps(h0, x, r, i) && Uses(r, i, k, s) && t == Table(r, i)
    ensures k < 16 && s <= 32
    ensures RfcSteps(h0, x, r, i + 1) == Chain(h.d, Step(Even(r, h.b, h.c, h.d), h.a, h.b, x[k], t, s), h.b, h.c)
    ensures Even(r, h.b, h.c, h.d) == Odd(r, h.b, h.c, h.d)
  {
    hide F, G, H, H2, I, RfcF, RfcG, RfcH, RfcI, Step, Operation, Even, Odd, Auxiliary, Table, WordIndex, Shift;
    AuxiliaryAgrees(r, h.b, h.c, h.d);
    StepAgrees(Even(r, h.b, h.c, h.d), h.a, h.b, x[k], t, r, i);
  }

  /** Four consecutive STEPs of round r, each word updated in its turn. */
  method FourSteps(r: nat, q: nat, ghost h0: Chain, h: Chain, x: seq<bv32>, k0: nat, t0: bv32, s0: nat,
                   k1: nat, t1: bv32, s1: nat, k2: nat, t2: bv32, s2: nat, k3: nat, t3: bv32, s3: nat)
    returns (h': Chain)
    requires |x| == 16 && h == RfcSteps(h0, x, r, 4 * q)
    requires Uses(r, 4 * q, k0, s0) && t0 == Table(r, 4 * q)
    requires Uses(r, 4 * q + 1, k1, s1) && t1 == Table(r, 4 * q + 1)
    requires Uses(r, 4 * q + 2, k2, s2) && t2 == Table(r, 4 * q + 2)
    requires Uses(r, 4 * q + 3, k3, s3) && t3 == Table(r, 4 * q + 3)
    ensures h' == RfcSteps(h0, x, r, 4 * q + 4)
  {
    hide Step, Even, Odd, Table, Uses, RfcStep, RfcSteps;
    var a, b, c, d := h.a, h.b, h.c, h.d;
    NextStep(h0, x, r, 4 * q, Chain(a, b, c, d), k0, t0, s0);
    a := Step(Even(r, b, c, d), a, b, x[k0], t0, s0);
    NextStep(h0, x, r, 4 * q + 1, Chain(d, a, b, c), k1, t1, s1);
    d := Step(Odd(r, a, b, c), d, a, x[k1], t1, s1);
    NextStep(h0, x, r, 4 * q + 2, Chain(c, d, a, b), k2, t2, s2);
    c := Step(Even(r, d, a, b), c, d, x[k2], t2, s2);
    NextStep(h0, x, r, 4 * q + 3, Chain(b, c, d, a), k3, t3, s3);
    b := Step(Odd(r, c, d, a), b, c, x[k3], t3, s3);
    return Chain(a, b, c, d);
  }

  lemma Uses1()
    ensures Uses(0, 0, 0, 7) && Uses(0, 1, 1, 12) && Uses(0, 2, 2, 17) && Uses(0, 3, 3, 22)
    ensures Uses(0, 4, 4, 7) && Uses(0, 5, 5, 12) && Uses(0, 6, 6, 17) && Uses(0, 7, 7, 22)
    ensures Uses(0, 8, 8, 7) && Uses(0, 9, 9, 12) && Uses(0, 10, 10, 17) && Uses(0, 11, 11, 22)
    ensures Uses(0, 12, 12, 7) && Uses(0, 13, 13, 12) && Uses(0, 14, 14, 17) && Uses(0, 15, 15, 22)
  {
  }

  lemma Column1()
    ensures Table1(0) == 0xd76aa478 && Table1(1) == 0xe8c7b756 && Table1(2) == 0x242070db && Table1(3) == 0xc1bdceee
    ensures Table1(4) == 0xf57c0faf && Table1(5) == 0x4787c62a && Table1(6) == 0xa8304613 && Table1(7) == 0xfd469501
    ensures Table1(8) == 0x698098d8 && Table1(9) == 0x8b44f7af && Table1(10) == 0xffff5bb1 && Table1(11) == 0x895cd7be
    ensures Table1(12) == 0x6b901122 && Table1(13) == 0xfd987193 && Table1(14) == 0xa679438e && Table1(15) == 0x49b40821
  {
  }

  lemma Entries1()
    ensures Table(0, 0) == 0xd76aa478 && Table(0, 1) == 0xe8c7b756 && Table(0, 2) == 0x242070db && Table(0, 3) == 0xc1bdceee
    ensures Table(0, 4) == 0xf57c0faf && Table(0, 5) == 0x4787c62a && Table(0, 6) == 0xa8304613 && Table(0, 7) == 0xfd469501
    ensures Table(0, 8) == 0x698098d8 && Table(0, 9) == 0x8b44f7af && Table(0, 10) == 0xffff5bb1 && Table(0, 11) == 0x895cd7be
    ensures Table(0, 12) == 0x6b901122 && Table(0, 13) == 0xfd987193 && Table(0, 14) == 0xa679438e && Table(0, 15) == 0x49b40821
  {
    hide Table1, Table2, Table3, Table4;
    Column1();
  }

  method Round1(h: Chain, x: seq<bv32>) returns (h': Chain)
    requires |x| == 16
    ensures h' == RfcSteps(h, x, 0, |x|)
  {
    NoSteps(h, x, 0);
    Uses1();
    Entries1();
    hide RfcSteps, Uses, Table;
    h' := FourSteps(0, 0, h, h, x,
                    0, 0xd76aa478, 7, 1, 0xe8c7b756, 12, 2, 0x242070db, 17, 3, 0xc1bdceee, 22);
    h' := FourSteps(0, 1, h, h', x,
                    4, 0xf57c0faf, 7, 5, 0x4787c62a, 12, 6, 0xa8304613, 17, 7, 0xfd469501, 22);
    h' := FourSteps(0, 2, h, h', x,
                    8, 0x698098d8, 7, 9, 0x8b44f7af, 12, 10, 0xffff5bb1, 17, 11, 0x895cd7be, 22);
    h' := FourSteps(0, 3, h, h', x,
                    12, 0x6b901122, 7, 13, 0xfd987193, 12, 14, 0xa679438e, 17, 15, 0x49b40821, 22);
  }

  lemma Uses2()
    ensures Uses(1, 0, 1, 5) && Uses(1, 1, 6, 9) && Uses(1, 2, 11, 14) && Uses(1, 3, 0, 20)
    ensures Uses(1, 4, 5, 5) && Uses(1, 5, 10, 9) && Uses(1, 6, 15, 14) && Uses(1, 7, 4, 20)
    ensures Uses(1, 8, 9, 5) && Uses(1, 9, 14, 9) && Uses(1, 10, 3, 14) && Uses(1, 11, 8, 20)
    ensures Uses(1, 12, 13, 5) && Uses(1, 13, 2, 9) && Uses(1, 14, 7, 14) && Uses(1, 15, 12, 20)
  {
  }

  lemma Column2()
    ensures Table2(0) == 0xf61e2562 && Table2(1) == 0xc040b340 && Table2(2) == 0x265e5a51 && Table2(3) == 0xe9b6c7aa
    ensures Table2(4) == 0xd62f105d && Table2(5) == 0x02441453 && Table2(6) == 0xd8a1e681 && Table2(7) == 0xe7d3fbc8
    ensures Table2(8) == 0x21e1cde6 && Table2(9) == 0xc33707d6 && Table2(10) == 0xf4d50d87 && Table2(11) == 0x455a14ed
    ensures Table2(12) == 0xa9e3e905 && Table2(13) == 0xfcefa3f8 && Table2(14) == 0x676f02d9 && Table2(15) == 0x8d2a4c8a
  {
  }

  lemma Entries2()
    ensures Table(1, 0) == 0xf61e2562 && Table(1, 1) == 0xc040b340 && Table(1, 2) == 0x265e5a51 && Table(1, 3) == 0xe9b6c7aa
    ensures Table(1, 4) == 0xd62f105d && Table(1, 5) == 0x02441453 && Table(1, 6) == 0xd8a1e681 && Table(1, 7) == 0xe7d3fbc8
    ensures Table(1, 8) == 0x21e1cde6 && Table(1, 9) == 0xc33707d6 && Table(1, 10) == 0xf4d50d87 && Table(1, 11) == 0x455a14ed
    ensures Table(1, 12) == 0xa9e3e905 && Table(1, 13) == 0xfcefa3f8 && Table(1, 14) == 0x676f02d9 && Table(1, 15) == 0x8d2a4c8a
  {
    hide Table1, Table2, Table3, Table4;
    Column2();
  }

  method Round2(h: Chain, x: seq<bv32>) returns (h': Chain)
    requires |x| == 16
    ensures h' == RfcSteps(h, x, 1, |x|)
  {
    NoSteps(h, x, 1);
    Uses2();
    Entries2();
    hide RfcSteps, Uses, Table;
    h' := FourSteps(1, 0, h, h, x,
                    1, 0xf61e2562, 5, 6, 0xc040b340, 9, 11, 0x265e5a51, 14, 0, 0xe9b6c7aa, 20);
    h' := FourSteps(1, 1, h, h', x,
                    5, 0xd62f105d, 5, 10, 0x02441453, 9, 15, 0xd8a1e681, 14, 4, 0xe7d3fbc8, 20);
    h' := FourSteps(1, 2, h, h', x,
                    9, 0x21e1cde6, 5, 14, 0xc33707d6, 9, 3, 0xf4d50d87, 14, 8, 0x455a14ed, 20);
    h' := FourSteps(1, 3, h, h', x,
                    13, 0xa9e3e905, 5, 2, 0xfcefa3f8, 9, 7, 0x676f02d9, 14, 12, 0x8d2a4c8a, 20);
  }

  lemma Uses3()
    ensures Uses(2, 0, 5, 4) && Uses(2, 1, 8, 11) && Uses(2, 2, 11, 16) && Uses(2, 3, 14, 23)
    ensures Uses(2, 4, 1, 4) && Uses(2, 5, 4, 11) && Uses(2, 6, 7, 16) && Uses(2, 7, 10, 23)
    ensures Uses(2, 8, 13, 4) && Uses(2, 9, 0, 11) && Uses(2, 10, 3, 16) && Uses(2, 11, 6, 23)
    ensures Uses(2, 12, 9, 4) && Uses(2, 13, 12, 11) && Uses(2, 14, 15, 16) && Uses(2, 15, 2, 23)
  {
  }

  lemma Column3()
    ensures Table3(0) == 0xfffa3942 && Table3(1) == 0x8771f681 && Table3(2) == 0x6d9d6122 && Table3(3) == 0xfde5380c
    ensures Table3(4) == 0xa4beea44 && Table3(5) == 0x4bdecfa9 && Table3(6) == 0xf6bb4b60 && Table3(7) == 0xbebfbc70
    ensures Table3(8) == 0x289b7ec6 && Table3(9) == 0xeaa127fa && Table3(10) == 0xd4ef3085 && Table3(11) == 0x04881d05
    ensures Table3(12) == 0xd9d4d039 && Table3(13) == 0xe6db99e5 && Table3(14) == 0x1fa27cf8 && Table3(15) == 0xc4ac5665
  {
  }

  lemma Entries3()
    ensures Table(2, 0) == 0xfffa3942 && Table(2, 1) == 0x8771f681 && Table(2, 2) == 0x6d9d6122 && Table(2, 3) == 0xfde5380c
    ensures Table(2, 4) == 0xa4beea44 && Table(2, 5) == 0x4bdecfa9 && Table(2, 6) == 0xf6bb4b60 && Table(2, 7) == 0xbebfbc70
    ensures Table(2, 8) == 0x289b7ec6 && Table(2, 9) == 0xeaa127fa && Table(2, 10) == 0xd4ef3085 && Table(2, 11) == 0x04881d05
    ensures Table(2, 12) == 0xd9d4d039 && Table(2, 13) == 0xe6db99e5 && Table(2, 14) == 0x1fa27cf8 && Table(2, 15) == 0xc4ac5665
  {
    hide Table1, Table2, Table3, Table4;
    Column3();
  }

  method Round3(h: Chain, x: seq<bv32>) returns (h': Chain)
    requires |x| == 16
    ensures h' == RfcSteps(h, x, 2, |x|)
  {
    NoSteps(h, x, 2);
    Uses3();
    Entries3();
    hide RfcSteps, Uses, Table;
    h' := FourSteps(2, 0, h, h, x,
                    5, 0xfffa3942, 4, 8, 0x8771f681, 11, 11, 0x6d9d6122, 16, 14, 0xfde5380c, 23);
    h' := FourSteps(2, 1, h, h', x,
                    1, 0xa4beea44, 4, 4, 0x4bdecfa9, 11, 7, 0xf6bb4b60, 16, 10, 0xbebfbc70, 23);
    h' := FourSteps(2, 2, h, h', x,
                    13, 0x289b7ec6, 4, 0, 0xeaa127fa, 11, 3, 0xd4ef3085, 16, 6, 0x04881d05, 23);
    h' := FourSteps(2, 3, h, h', x,
                    9, 0xd9d4d039, 4, 12, 0xe6db99e5, 11, 15, 0x1fa27cf8, 16, 2, 0xc4ac5665, 23);
  }

  lemma Uses4()
    ensures Uses(3, 0, 0, 6) && Uses(3, 1, 7, 10) && Uses(3, 2, 14, 15) && Uses(3, 3, 5, 21)
    ensures Uses(3, 4, 12, 6) && Uses(3, 5, 3, 10) && Uses(3, 6, 10, 15) && Uses(3, 7, 1, 21)
    ensures Uses(3, 8, 8, 6) && Uses(3, 9, 15, 10) && Uses(3, 10, 6, 15) && Uses(3, 11, 13, 21)
    ensures Uses(3, 12, 4, 6) && Uses(3, 13, 11, 10) && Uses(3, 14, 2, 15) && Uses(3, 15, 9, 21)
  {
  }

  lemma Column4()
    ensures Table4(0) == 0xf4292244 && Table4(1) == 0x432aff97 && Table4(2) == 0xab9423a7 && Table4(3) == 0xfc93a039
    ensures Table4(4) == 0x655b59c3 && Table4(5) == 0x8f0ccc92 && Table4(6) == 0xffeff47d && Table4(7) == 0x85845dd1
    ensures Table4(8) == 0x6fa87e4f && Table4(9) == 0xfe2ce6e0 && Table4(10) == 0xa3014314 && Table4(11) == 0x4e0811a1
    ensures Table4(12) == 0xf7537e82 && Table4(13) == 0xbd3af235 && Table4(14) == 0x2ad7d2bb && Table4(15) == 0xeb86d391
  {
  }

  lemma Entries4()
    ensures Table(3, 0) == 0xf4292244 && Table(3, 1) == 0x432aff97 && Table(3, 2) == 0xab9423a7 && Table(3, 3) == 0xfc93a039
    ensures Table(3, 4) == 0x655b59c3 && Table(3, 5) == 0x8f0ccc92 && Table(3, 6) == 0xffeff47d && Table(3, 7) == 0x85845dd1
    ensures Table(3, 8) == 0x6fa87e4f && Table(3, 9) == 0xfe2ce6e0 && Table(3, 10) == 0xa3014314 && Table(3, 11) == 0x4e0811a1
    ensures Table(3, 12) == 0xf7537e82 && Table(3, 13) == 0xbd3af235 && Table(3, 14) == 0x2ad7d2bb && Table(3, 15) == 0xeb86d391
  {
    hide Table1, Table2, Table3, Table4;
    Column4();
  }

  method Round4(h: Chain, x: seq<bv32>) returns (h': Chain)
    requires |x| == 16
    ensures h' == RfcSteps(h, x, 3, |x|)
  {
    NoSteps(h, x, 3);
    Uses4();
    Entries4();
    hide RfcSteps, Uses, Table;
    h' := FourSteps(3, 0, h, h, x,
                    0, 0xf4292244, 6, 7, 0x432aff97, 10, 14, 0xab9423a7, 15, 5, 0xfc93a039, 21);
    h' := FourSteps(3, 1, h, h', x,
                    12, 0x655b59c3, 6, 3, 0x8f0ccc92, 10, 10, 0xffeff47d, 15, 1, 0x85845dd1, 21);
    h' := FourSteps(3, 2, h, h', x,
                    8, 0x6fa87e4f, 6, 15, 0xfe2ce6e0, 10, 6, 0xa3014314, 15, 13, 0x4e0811a1, 21);
    h' := FourSteps(3, 3, h, h', x,
                    4, 0xf7537e82, 6, 11, 0xbd3af235, 10, 2, 0x2ad7d2bb, 15, 9, 0xeb86d391, 21);
  }

  /** The sixteen SETs of the first round. */
  function SetWords(ptr: seq<bv8>): (x: seq<bv32>)
    requires |ptr| == 64
    ensures |x| == 16 && x == Words(ptr)
  {
    hide Set, Word;
    var x := seq(16, n requires 0 <= n < 16 => Set(ptr, n));
    assert x == Words(ptr) by {
      forall n | 0 <= n < 16 ensures x[n] == Words(ptr)[n] { SetAgrees(ptr, n); }
    }
    x
  }

  lemma NoSteps(h: Chain, x: seq<bv32>, r: nat)
    requires |x| == 16
    ensures RfcSteps(h, x, r, 0) == h
  {
  }

  lemma RoundsMeaning(h: Chain, x: seq<bv32>, h1: Chain, h2: Chain, h3: Chain, h4: Chain)
    requires |x| == 16
    requires h1 == RfcSteps(h, x, 0, |x|) && h2 == RfcSteps(h1, x, 1, |x|)
    requires h3 == RfcSteps(h2, x, 2, |x|) && h4 == RfcSteps(h3, x, 3, |x|)
    ensures h4 == Rounds(h, x)
  {
    hide RfcSteps;
  }

  /** One turn of body's loop is the compression function of the RFC. */
  method Transform(h: Chain, block: seq<bv8>) returns (h': Chain)
    requires |block| == 64
    ensures h' == Compress(h, block)
  {
    hide RfcSteps, Words, Rounds, Sum;
    var x := SetWords(block);
    var h1 := Round1(h, x);
    var h2 := Round2(h1, x);
    var h3 := Round3(h2, x);
    var h4 := Round4(h3, x);
    RoundsMeaning(h, x, h1, h2, h3, h4);
    return Sum(h4, h);
  }
}
