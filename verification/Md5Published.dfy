/** One of the digests that section A.5 of RFC 1321 publishes, that of the letters and digits, as a theorem about Md5: two
    blocks, all 64 operations in each, and every word of the first block different. */
module Md5Published {
  import opened Md5Transform
  import opened Md5Stream
  import opened NumberTheory

  const UPPER: seq<bv8> := [
    65, 66, 67, 68, 69, 70, 71, 72, 73, 74, 75, 76, 77, 78, 79, 80, 81, 82, 83, 84, 85, 86, 87, 88, 89, 90
  ]
  const LOWER: seq<bv8> := [
    97, 98, 99, 100, 101, 102, 103, 104, 105, 106, 107, 108, 109, 110, 111, 112, 113, 114, 115, 116, 117, 118, 119, 120, 121, 122
  ]
  const DIGITS: seq<bv8> := [48, 49, 50, 51, 52, 53, 54, 55, 56, 57]

  /** One operation in numbers. */
  lemma Performs(h0: Chain, x: seq<bv32>, r: nat, i: nat, h: Chain,
                 k: nat, v: bv32, t: bv32, s: nat, n: bv32)
    requires |x| == 16 && h == RfcSteps(h0, x, r, i) && Uses(r, i, k, s) && t == Table(r, i)
    requires k < 16 && v == x[k] && s <= 32
    requires n == Operation(Auxiliary(r, h.b, h.c, h.d), h.a, h.b, v, t, s)
    ensures RfcSteps(h0, x, r, i + 1) == Chain(h.d, n, h.b, h.c)
  {
    hide Operation, Auxiliary, WordIndex, Table, Shift;
  }

  lemma Begins(h0: Chain, x: seq<bv32>, r: nat)
    requires |x| == 16
    ensures RfcSteps(h0, x, r, 0) == h0
  {
  }

  predicate FirstWords(x: seq<bv32>) {
    && |x| == 16
    && x[0] == 0x44434241 && x[1] == 0x48474645 && x[2] == 0x4c4b4a49 && x[3] == 0x504f4e4d
    && x[4] == 0x54535251 && x[5] == 0x58575655 && x[6] == 0x62615a59 && x[7] == 0x66656463
    && x[8] == 0x6a696867 && x[9] == 0x6e6d6c6b && x[10] == 0x7271706f && x[11] == 0x76757473
    && x[12] == 0x7a797877 && x[13] == 0x33323130 && x[14] == 0x37363534 && x[15] == 0x00803938
  }

  lemma FirstRound1(x: seq<bv32>)
    requires FirstWords(x)
    ensures RfcSteps(Chain(0x67452301, 0xefcdab89, 0x98badcfe, 0x10325476), x, 0, 16)
         == Chain(0x3cbdcd45, 0x5d38e690, 0xfa148c8a, 0xb8dec763)
  {
    Uses1();
    Entries1();
    hide RfcSteps, Uses, Table;
    var h := Chain(0x67452301, 0xefcdab89, 0x98badcfe, 0x10325476);
    Begins(h, x, 0);
    Performs(h, x, 0, 0, Chain(0x67452301, 0xefcdab89, 0x98badcfe, 0x10325476), 0, 0x44434241, 0xd76aa478, 7, 0xc6c10796);
    Performs(h, x, 0, 1, Chain(0x10325476, 0xc6c10796, 0xefcdab89, 0x98badcfe), 1, 0x48474645, 0xe8c7b756, 12, 0x99a09999);
    Performs(h, x, 0, 2, Chain(0x98badcfe, 0x99a09999, 0xc6c10796, 0xefcdab89), 2, 0x4c4b4a49, 0x242070db, 17, 0x11067980);
    Performs(h, x, 0, 3, Chain(0xefcdab89, 0x11067980, 0x99a09999, 0xc6c10796), 3, 0x504f4e4d, 0xc1bdceee, 22, 0x27bce07a);
    Performs(h, x, 0, 4, Chain(0xc6c10796, 0x27bce07a, 0x11067980, 0x99a09999), 4, 0x54535251, 0xf57c0faf, 7, 0xf22e6c4e);
    Performs(h, x, 0, 5, Chain(0x99a09999, 0xf22e6c4e, 0x27bce07a, 0x11067980), 5, 0x58575655, 0x4787c62a, 12, 0xb4ac9218);
    Performs(h, x, 0, 6, Chain(0x11067980, 0xb4ac9218, 0xf22e6c4e, 0x27bce07a), 6, 0x62615a59, 0xa8304613, 17, 0xa95a2fc0);
    Performs(h, x, 0, 7, Chain(0x27bce07a, 0xa95a2fc0, 0xb4ac9218, 0xf22e6c4e), 7, 0x66656463, 0xfd469501, 22, 0xa4799506);
    Performs(h, x, 0, 8, Chain(0xf22e6c4e, 0xa4799506, 0xa95a2fc0, 0xb4ac9218), 8, 0x6a696867, 0x698098d8, 7, 0x1eb3e7c1);
    Performs(h, x, 0, 9, Chain(0xb4ac9218, 0x1eb3e7c1, 0xa4799506, 0xa95a2fc0), 9, 0x6e6d6c6b, 0x8b44f7af, 12, 0xa6e70cfe);
    Performs(h, x, 0, 10, Chain(0xa95a2fc0, 0xa6e70cfe, 0x1eb3e7c1, 0xa4799506), 10, 0x7271706f, 0xffff5bb1, 17, 0xca27520b);
    Performs(h, x, 0, 11, Chain(0xa4799506, 0xca27520b, 0xa6e70cfe, 0x1eb3e7c1), 11, 0x76757473, 0x895cd7be, 22, 0x8a7612ec);
    Performs(h, x, 0, 12, Chain(0x1eb3e7c1, 0x8a7612ec, 0xca27520b, 0xa6e70cfe), 12, 0x7a797877, 0x6b901122, 7, 0x3cbdcd45);
    Performs(h, x, 0, 13, Chain(0xa6e70cfe, 0x3cbdcd45, 0x8a7612ec, 0xca27520b), 13, 0x33323130, 0xfd987193, 12, 0xb8dec763);
    Performs(h, x, 0, 14, Chain(0xca27520b, 0xb8dec763, 0x3cbdcd45, 0x8a7612ec), 14, 0x37363534, 0xa679438e, 17, 0xfa148c8a);
    Performs(h, x, 0, 15, Chain(0x8a7612ec, 0xfa148c8a, 0xb8dec763, 0x3cbdcd45), 15, 0x00803938, 0x49b40821, 22, 0x5d38e690);
  }

  lemma FirstRound2(x: seq<bv32>)
    requires FirstWords(x)
    ensures RfcSteps(Chain(0x3cbdcd45, 0x5d38e690, 0xfa148c8a, 0xb8dec763), x, 1, 16)
         == Chain(0x9b085fa9, 0xdd789ecc, 0x5993248f, 0x4400a9bd)
  {
    Uses2();
    Entries2();
    hide RfcSteps, Uses, Table;
    var h := Chain(0x3cbdcd45, 0x5d38e690, 0xfa148c8a, 0xb8dec763);
    Begins(h, x, 1);
    Performs(h, x, 1, 0, Chain(0x3cbdcd45, 0x5d38e690, 0xfa148c8a, 0xb8dec763), 1, 0x48474645, 0xf61e2562, 5, 0x04b9d52a);
    Performs(h, x, 1, 1, Chain(0xb8dec763, 0x04b9d52a, 0x5d38e690, 0xfa148c8a), 6, 0x62615a59, 0xc040b340, 9, 0x783002eb);
    Performs(h, x, 1, 2, Chain(0xfa148c8a, 0x783002eb, 0x04b9d52a, 0x5d38e690), 11, 0x76757473, 0x265e5a51, 14, 0xd3ee3ed1);
    Performs(h, x, 1, 3, Chain(0x5d38e690, 0xd3ee3ed1, 0x783002eb, 0x04b9d52a), 0, 0x44434241, 0xe9b6c7aa, 20, 0x47ae7c81);
    Performs(h, x, 1, 4, Chain(0x04b9d52a, 0x47ae7c81, 0xd3ee3ed1, 0x783002eb), 5, 0x58575655, 0xd62f105d, 5, 0x2d7d8a3f);
    Performs(h, x, 1, 5, Chain(0x783002eb, 0x2d7d8a3f, 0x47ae7c81, 0xd3ee3ed1), 10, 0x7271706f, 0x02441453, 9, 0xd1210823);
    Performs(h, x, 1, 6, Chain(0xd3ee3ed1, 0xd1210823, 0x2d7d8a3f, 0x47ae7c81), 15, 0x00803938, 0xd8a1e681, 14, 0x4b534dc3);
    Performs(h, x, 1, 7, Chain(0x47ae7c81, 0x4b534dc3, 0xd1210823, 0x2d7d8a3f), 4, 0x54535251, 0xe7d3fbc8, 20, 0x75292030);
    Performs(h, x, 1, 8, Chain(0x2d7d8a3f, 0x75292030, 0x4b534dc3, 0xd1210823), 9, 0x6e6d6c6b, 0x21e1cde6, 5, 0x9d2a6e33);
    Performs(h, x, 1, 9, Chain(0xd1210823, 0x9d2a6e33, 0x75292030, 0x4b534dc3), 14, 0x37363534, 0xc33707d6, 9, 0x0e8d2e44);
    Performs(h, x, 1, 10, Chain(0x4b534dc3, 0x0e8d2e44, 0x9d2a6e33, 0x75292030), 3, 0x504f4e4d, 0xf4d50d87, 14, 0xd473b564);
    Performs(h, x, 1, 11, Chain(0x75292030, 0xd473b564, 0x0e8d2e44, 0x9d2a6e33), 8, 0x6a696867, 0x455a14ed, 20, 0xf2ff6ea0);
    Performs(h, x, 1, 12, Chain(0x9d2a6e33, 0xf2ff6ea0, 0xd473b564, 0x0e8d2e44), 13, 0x33323130, 0xa9e3e905, 5, 0x9b085fa9);
    Performs(h, x, 1, 13, Chain(0x0e8d2e44, 0x9b085fa9, 0xf2ff6ea0, 0xd473b564), 2, 0x4c4b4a49, 0xfcefa3f8, 9, 0x4400a9bd);
    Performs(h, x, 1, 14, Chain(0xd473b564, 0x4400a9bd, 0x9b085fa9, 0xf2ff6ea0), 7, 0x66656463, 0x676f02d9, 14, 0x5993248f);
    Performs(h, x, 1, 15, Chain(0xf2ff6ea0, 0x5993248f, 0x4400a9bd, 0x9b085fa9), 12, 0x7a797877, 0x8d2a4c8a, 20, 0xdd789ecc);
  }

  lemma FirstRound3(x: seq<bv32>)
    requires FirstWords(x)
    ensures RfcSteps(Chain(0x9b085fa9, 0xdd789ecc, 0x5993248f, 0x4400a9bd), x, 2, 16)
         == Chain(0x2dbee21d, 0xf166f514, 0xee46e961, 0xe95c3a43)
  {
    Uses3();
    Entries3();
    hide RfcSteps, Uses, Table;
    var h := Chain(0x9b085fa9, 0xdd789ecc, 0x5993248f, 0x4400a9bd);
    Begins(h, x, 2);
    Performs(h, x, 2, 0, Chain(0x9b085fa9, 0xdd789ecc, 0x5993248f, 0x4400a9bd), 5, 0x58575655, 0xfffa3942, 4, 0x21c8d2b7);
    Performs(h, x, 2, 1, Chain(0x4400a9bd, 0x21c8d2b7, 0xdd789ecc, 0x5993248f), 8, 0x6a696867, 0x8771f681, 11, 0x1d55a18e);
    Performs(h, x, 2, 2, Chain(0x5993248f, 0x1d55a18e, 0x21c8d2b7, 0xdd789ecc), 11, 0x76757473, 0x6d9d6122, 16, 0x056ec119);
    Performs(h, x, 2, 3, Chain(0xdd789ecc, 0x056ec119, 0x1d55a18e, 0x21c8d2b7), 14, 0x37363534, 0xfde5380c, 23, 0x1b9504f8);
    Performs(h, x, 2, 4, Chain(0x21c8d2b7, 0x1b9504f8, 0x056ec119, 0x1d55a18e), 1, 0x48474645, 0xa4beea44, 4, 0x436b7fe9);
    Performs(h, x, 2, 5, Chain(0x1d55a18e, 0x436b7fe9, 0x1b9504f8, 0x056ec119), 4, 0x54535251, 0x4bdecfa9, 11, 0x075800c1);
    Performs(h, x, 2, 6, Chain(0x056ec119, 0x075800c1, 0x436b7fe9, 0x1b9504f8), 7, 0x66656463, 0xf6bb4b60, 16, 0xf404c2f6);
    Performs(h, x, 2, 7, Chain(0x1b9504f8, 0xf404c2f6, 0x075800c1, 0x436b7fe9), 10, 0x7271706f, 0xbebfbc70, 23, 0xcf0341ed);
    Performs(h, x, 2, 8, Chain(0x436b7fe9, 0xcf0341ed, 0xf404c2f6, 0x075800c1), 13, 0x33323130, 0x289b7ec6, 4, 0x888e7d8a);
    Performs(h, x, 2, 9, Chain(0x075800c1, 0x888e7d8a, 0xcf0341ed, 0xf404c2f6), 0, 0x44434241, 0xeaa127fa, 11, 0xbbdaecd8);
    Performs(h, x, 2, 10, Chain(0xf404c2f6, 0xbbdaecd8, 0x888e7d8a, 0xcf0341ed), 3, 0x504f4e4d, 0xd4ef3085, 16, 0xce620273);
    Performs(h, x, 2, 11, Chain(0xcf0341ed, 0xce620273, 0xbbdaecd8, 0x888e7d8a), 6, 0x62615a59, 0x04881d05, 23, 0x047b9419);
    Performs(h, x, 2, 12, Chain(0x888e7d8a, 0x047b9419, 0xce620273, 0xbbdaecd8), 9, 0x6e6d6c6b, 0xd9d4d039, 4, 0x2dbee21d);
    Performs(h, x, 2, 13, Chain(0xbbdaecd8, 0x2dbee21d, 0x047b9419, 0xce620273), 12, 0x7a797877, 0xe6db99e5, 11, 0xe95c3a43);
    Performs(h, x, 2, 14, Chain(0xce620273, 0xe95c3a43, 0x2dbee21d, 0x047b9419), 15, 0x00803938, 0x1fa27cf8, 16, 0xee46e961);
    Performs(h, x, 2, 15, Chain(0x047b9419, 0xee46e961, 0xe95c3a43, 0x2dbee21d), 2, 0x4c4b4a49, 0xc4ac5665, 23, 0xf166f514);
  }

  lemma FirstRound4(x: seq<bv32>)
    requires FirstWords(x)
    ensures RfcSteps(Chain(0x2dbee21d, 0xf166f514, 0xee46e961, 0xe95c3a43), x, 3, 16)
         == Chain(0x1cb80f0a, 0xef2e3a46, 0x10f68731, 0xea3d3eb4)
  {
    Uses4();
    Entries4();
    hide RfcSteps, Uses, Table;
    var h := Chain(0x2dbee21d, 0xf166f514, 0xee46e961, 0xe95c3a43);
    Begins(h, x, 3);
    Performs(h, x, 3, 0, Chain(0x2dbee21d, 0xf166f514, 0xee46e961, 0xe95c3a43), 0, 0x44434241, 0xf4292244, 6, 0xe47fd4f3);
    Performs(h, x, 3, 1, Chain(0xe95c3a43, 0xe47fd4f3, 0xf166f514, 0xee46e961), 7, 0x66656463, 0x432aff97, 10, 0xfb887751);
    Performs(h, x, 3, 2, Chain(0xee46e961, 0xfb887751, 0xe47fd4f3, 0xf166f514), 14, 0x37363534, 0xab9423a7, 15, 0xf22aedcc);
    Performs(h, x, 3, 3, Chain(0xf166f514, 0xf22aedcc, 0xfb887751, 0xe47fd4f3), 5, 0x58575655, 0xfc93a039, 21, 0x7a13bc5c);
    Performs(h, x, 3, 4, Chain(0xe47fd4f3, 0x7a13bc5c, 0xf22aedcc, 0xfb887751), 12, 0x7a797877, 0x655b59c3, 6, 0xa691d430);
    Performs(h, x, 3, 5, Chain(0xfb887751, 0xa691d430, 0x7a13bc5c, 0xf22aedcc), 3, 0x504f4e4d, 0x8f0ccc92, 10, 0x528452f2);
    Performs(h, x, 3, 6, Chain(0xf22aedcc, 0x528452f2, 0xa691d430, 0x7a13bc5c), 10, 0x7271706f, 0xffeff47d, 15, 0x3fc23df6);
    Performs(h, x, 3, 7, Chain(0x7a13bc5c, 0x3fc23df6, 0x528452f2, 0xa691d430), 1, 0x48474645, 0x85845dd1, 21, 0xefb0e72f);
    Performs(h, x, 3, 8, Chain(0xa691d430, 0xefb0e72f, 0x3fc23df6, 0x528452f2), 8, 0x6a696867, 0x6fa87e4f, 6, 0x27145703);
    Performs(h, x, 3, 9, Chain(0x528452f2, 0x27145703, 0xefb0e72f, 0x3fc23df6), 15, 0x00803938, 0xfe2ce6e0, 10, 0x21a11069);
    Performs(h, x, 3, 10, Chain(0x3fc23df6, 0x21a11069, 0x27145703, 0xefb0e72f), 6, 0x62615a59, 0xa3014314, 15, 0x374fbe79);
    Performs(h, x, 3, 11, Chain(0xefb0e72f, 0x374fbe79, 0x21a11069, 0x27145703), 13, 0x33323130, 0x4e0811a1, 21, 0x49d9a5b4);
    Performs(h, x, 3, 12, Chain(0x27145703, 0x49d9a5b4, 0x374fbe79, 0x21a11069), 4, 0x54535251, 0xf7537e82, 6, 0x1cb80f0a);
    Performs(h, x, 3, 13, Chain(0x21a11069, 0x1cb80f0a, 0x49d9a5b4, 0x374fbe79), 11, 0x76757473, 0xbd3af235, 10, 0xea3d3eb4);
    Performs(h, x, 3, 14, Chain(0x374fbe79, 0xea3d3eb4, 0x1cb80f0a, 0x49d9a5b4), 2, 0x4c4b4a49, 0x2ad7d2bb, 15, 0x10f68731);
    Performs(h, x, 3, 15, Chain(0x49d9a5b4, 0x10f68731, 0xea3d3eb4, 0x1cb80f0a), 9, 0x6e6d6c6b, 0xeb86d391, 21, 0xef2e3a46);
  }

  lemma FirstRounds(x: seq<bv32>)
    requires FirstWords(x)
    ensures Sum(Rounds(Chain(0x67452301, 0xefcdab89, 0x98badcfe, 0x10325476), x), Chain(0x67452301, 0xefcdab89, 0x98badcfe, 0x10325476))
         == Chain(0x83fd320b, 0xdefbe5cf, 0xa9b1642f, 0xfa6f932a)
  {
    hide RfcSteps;
    FirstRound1(x);
    FirstRound2(x);
    FirstRound3(x);
    FirstRound4(x);
  }

  predicate SecondWords(x: seq<bv32>) {
    && |x| == 16
    && x[14] == 0x1f0 && forall k :: 0 <= k < 16 && k != 14 ==> x[k] == 0
  }

  lemma SecondRound1(x: seq<bv32>)
    requires SecondWords(x)
    ensures RfcSteps(Chain(0x83fd320b, 0xdefbe5cf, 0xa9b1642f, 0xfa6f932a), x, 0, 16)
         == Chain(0xa70737da, 0xa36f556f, 0x96f6586e, 0x5473f8a7)
  {
    Uses1();
    Entries1();
    hide RfcSteps, Uses, Table;
    var h := Chain(0x83fd320b, 0xdefbe5cf, 0xa9b1642f, 0xfa6f932a);
    Begins(h, x, 0);
    Performs(h, x, 0, 0, Chain(0x83fd320b, 0xdefbe5cf, 0xa9b1642f, 0xfa6f932a), 0, 0, 0xd76aa478, 7, 0xeda23ed1);
    Performs(h, x, 0, 1, Chain(0xfa6f932a, 0xeda23ed1, 0xdefbe5cf, 0xa9b1642f), 1, 0, 0xe8c7b756, 12, 0x989939cf);
    Performs(h, x, 0, 2, Chain(0xa9b1642f, 0x989939cf, 0xeda23ed1, 0xdefbe5cf), 2, 0, 0x242070db, 17, 0x3c307338);
    Performs(h, x, 0, 3, Chain(0xdefbe5cf, 0x3c307338, 0x989939cf, 0xeda23ed1), 3, 0, 0xc1bdceee, 22, 0xddcf0634);
    Performs(h, x, 0, 4, Chain(0xeda23ed1, 0xddcf0634, 0x3c307338, 0x989939cf), 4, 0, 0xf57c0faf, 7, 0x75144433);
    Performs(h, x, 0, 5, Chain(0x989939cf, 0x75144433, 0xddcf0634, 0x3c307338), 5, 0, 0x4787c62a, 12, 0xc8875807);
    Performs(h, x, 0, 6, Chain(0x3c307338, 0xc8875807, 0x75144433, 0xddcf0634), 6, 0, 0xa8304613, 17, 0xc783cb60);
    Performs(h, x, 0, 7, Chain(0xddcf0634, 0xc783cb60, 0xc8875807, 0x75144433), 7, 0, 0xfd469501, 22, 0x99b6b699);
    Performs(h, x, 0, 8, Chain(0x75144433, 0x99b6b699, 0xc783cb60, 0xc8875807), 8, 0, 0x698098d8, 7, 0xa60a3f69);
    Performs(h, x, 0, 9, Chain(0xc8875807, 0xa60a3f69, 0x99b6b699, 0xc783cb60), 9, 0, 0x8b44f7af, 12, 0xaa6630be);
    Performs(h, x, 0, 10, Chain(0xc783cb60, 0xaa6630be, 0xa60a3f69, 0x99b6b699), 10, 0, 0xffff5bb1, 17, 0x64db26e9);
    Performs(h, x, 0, 11, Chain(0x99b6b699, 0x64db26e9, 0xaa6630be, 0xa60a3f69), 11, 0, 0x895cd7be, 22, 0x64cc7c5a);
    Performs(h, x, 0, 12, Chain(0xa60a3f69, 0x64cc7c5a, 0x64db26e9, 0xaa6630be), 12, 0, 0x6b901122, 7, 0xa70737da);
    Performs(h, x, 0, 13, Chain(0xaa6630be, 0xa70737da, 0x64cc7c5a, 0x64db26e9), 13, 0, 0xfd987193, 12, 0x5473f8a7);
    Performs(h, x, 0, 14, Chain(0x64db26e9, 0x5473f8a7, 0xa70737da, 0x64cc7c5a), 14, 0x000001f0, 0xa679438e, 17, 0x96f6586e);
    Performs(h, x, 0, 15, Chain(0x64cc7c5a, 0x96f6586e, 0x5473f8a7, 0xa70737da), 15, 0, 0x49b40821, 22, 0xa36f556f);
  }

  lemma SecondRound2(x: seq<bv32>)
    requires SecondWords(x)
    ensures RfcSteps(Chain(0xa70737da, 0xa36f556f, 0x96f6586e, 0x5473f8a7), x, 1, 16)
         == Chain(0x24eba695, 0x9c03e2e8, 0x10c42a2f, 0x4bd0378b)
  {
    Uses2();
    Entries2();
    hide RfcSteps, Uses, Table;
    var h := Chain(0xa70737da, 0xa36f556f, 0x96f6586e, 0x5473f8a7);
    Begins(h, x, 1);
    Performs(h, x, 1, 0, Chain(0xa70737da, 0xa36f556f, 0x96f6586e, 0x5473f8a7), 1, 0, 0xf61e2562, 5, 0xa5050ad3);
    Performs(h, x, 1, 1, Chain(0x5473f8a7, 0xa5050ad3, 0xa36f556f, 0x96f6586e), 6, 0, 0xc040b340, 9, 0x28776046);
    Performs(h, x, 1, 2, Chain(0x96f6586e, 0x28776046, 0xa5050ad3, 0xa36f556f), 11, 0, 0x265e5a51, 14, 0x27dcd8b4);
    Performs(h, x, 1, 3, Chain(0xa36f556f, 0x27dcd8b4, 0x28776046, 0xa5050ad3), 0, 0, 0xe9b6c7aa, 20, 0x82b8827c);
    Performs(h, x, 1, 4, Chain(0xa5050ad3, 0x82b8827c, 0x27dcd8b4, 0x28776046), 5, 0, 0xd62f105d, 5, 0xe04f070c);
    Performs(h, x, 1, 5, Chain(0x28776046, 0xe04f070c, 0x82b8827c, 0x27dcd8b4), 10, 0, 0x02441453, 9, 0x2f3cd2a2);
    Performs(h, x, 1, 6, Chain(0x27dcd8b4, 0x2f3cd2a2, 0xe04f070c, 0x82b8827c), 15, 0, 0xd8a1e681, 14, 0xc0d22b61);
    Performs(h, x, 1, 7, Chain(0x82b8827c, 0xc0d22b61, 0x2f3cd2a2, 0xe04f070c), 4, 0, 0xe7d3fbc8, 20, 0xdf35cb56);
    Performs(h, x, 1, 8, Chain(0xe04f070c, 0xdf35cb56, 0xc0d22b61, 0x2f3cd2a2), 9, 0, 0x21e1cde6, 5, 0x242dd210);
    Performs(h, x, 1, 9, Chain(0x2f3cd2a2, 0x242dd210, 0xdf35cb56, 0xc0d22b61), 14, 0x000001f0, 0xc33707d6, 9, 0x576ace33);
    Performs(h, x, 1, 10, Chain(0xc0d22b61, 0x576ace33, 0x242dd210, 0xdf35cb56), 3, 0, 0xf4d50d87, 14, 0x5c295967);
    Performs(h, x, 1, 11, Chain(0xdf35cb56, 0x5c295967, 0x576ace33, 0x242dd210), 8, 0, 0x455a14ed, 20, 0x2291191a);
    Performs(h, x, 1, 12, Chain(0x242dd210, 0x2291191a, 0x5c295967, 0x576ace33), 13, 0, 0xa9e3e905, 5, 0x24eba695);
    Performs(h, x, 1, 13, Chain(0x576ace33, 0x24eba695, 0x2291191a, 0x5c295967), 2, 0, 0xfcefa3f8, 9, 0x4bd0378b);
    Performs(h, x, 1, 14, Chain(0x5c295967, 0x4bd0378b, 0x24eba695, 0x2291191a), 7, 0, 0x676f02d9, 14, 0x10c42a2f);
    Performs(h, x, 1, 15, Chain(0x2291191a, 0x10c42a2f, 0x4bd0378b, 0x24eba695), 12, 0, 0x8d2a4c8a, 20, 0x9c03e2e8);
  }

  lemma SecondRound3(x: seq<bv32>)
    requires SecondWords(x)
    ensures RfcSteps(Chain(0x24eba695, 0x9c03e2e8, 0x10c42a2f, 0x4bd0378b), x, 2, 16)
         == Chain(0x54c9eb3a, 0x79c0710a, 0x2ec86f72, 0xd4d9c6ac)
  {
    Uses3();
    Entries3();
    hide RfcSteps, Uses, Table;
    var h := Chain(0x24eba695, 0x9c03e2e8, 0x10c42a2f, 0x4bd0378b);
    Begins(h, x, 2);
    Performs(h, x, 2, 0, Chain(0x24eba695, 0x9c03e2e8, 0x10c42a2f, 0x4bd0378b), 5, 0, 0xfffa3942, 4, 0x5be1d526);
    Performs(h, x, 2, 1, Chain(0x4bd0378b, 0x5be1d526, 0x9c03e2e8, 0x10c42a2f), 8, 0, 0x8771f681, 11, 0x9e414279);
    Performs(h, x, 2, 2, Chain(0x10c42a2f, 0x9e414279, 0x5be1d526, 0x9c03e2e8), 11, 0, 0x6d9d6122, 16, 0x9f4a1a7e);
    Performs(h, x, 2, 3, Chain(0x9c03e2e8, 0x9f4a1a7e, 0x9e414279, 0x5be1d526), 14, 0x000001f0, 0xfde5380c, 23, 0xa2448453);
    Performs(h, x, 2, 4, Chain(0x5be1d526, 0xa2448453, 0x9f4a1a7e, 0x9e414279), 1, 0, 0xa4beea44, 4, 0xe14e403d);
    Performs(h, x, 2, 5, Chain(0x9e414279, 0xe14e403d, 0xa2448453, 0x9f4a1a7e), 4, 0, 0x4bdecfa9, 11, 0xe8cfd670);
    Performs(h, x, 2, 6, Chain(0x9f4a1a7e, 0xe8cfd670, 0xe14e403d, 0xa2448453), 7, 0, 0xf6bb4b60, 16, 0x60cc183a);
    Performs(h, x, 2, 7, Chain(0xa2448453, 0x60cc183a, 0xe8cfd670, 0xe14e403d), 10, 0, 0xbebfbc70, 23, 0xfe314121);
    Performs(h, x, 2, 8, Chain(0xe14e403d, 0xfe314121, 0x60cc183a, 0xe8cfd670), 13, 0, 0x289b7ec6, 4, 0xfff62809);
    Performs(h, x, 2, 9, Chain(0xe8cfd670, 0xfff62809, 0xfe314121, 0x60cc183a), 0, 0, 0xeaa127fa, 11, 0xe37209ac);
    Performs(h, x, 2, 10, Chain(0x60cc183a, 0xe37209ac, 0xfff62809, 0xfe314121), 3, 0, 0xd4ef3085, 16, 0x8cb5221c);
    Performs(h, x, 2, 11, Chain(0xfe314121, 0x8cb5221c, 0xe37209ac, 0xfff62809), 6, 0, 0x04881d05, 23, 0x7c7e974c);
    Performs(h, x, 2, 12, Chain(0xfff62809, 0x7c7e974c, 0x8cb5221c, 0xe37209ac), 9, 0, 0xd9d4d039, 4, 0x54c9eb3a);
    Performs(h, x, 2, 13, Chain(0xe37209ac, 0x54c9eb3a, 0x7c7e974c, 0x8cb5221c), 12, 0, 0xe6db99e5, 11, 0xd4d9c6ac);
    Performs(h, x, 2, 14, Chain(0x8cb5221c, 0xd4d9c6ac, 0x54c9eb3a, 0x7c7e974c), 15, 0, 0x1fa27cf8, 16, 0x2ec86f72);
    Performs(h, x, 2, 15, Chain(0x7c7e974c, 0x2ec86f72, 0xd4d9c6ac, 0x54c9eb3a), 2, 0, 0xc4ac5665, 23, 0x79c0710a);
  }

  lemma SecondRound4(x: seq<bv32>)
    requires SecondWords(x)
    ensures RfcSteps(Chain(0x54c9eb3a, 0x79c0710a, 0x2ec86f72, 0xd4d9c6ac), x, 3, 16)
         == Chain(0x14ae42c6, 0x16dd9203, 0x826afd76, 0xa52dae75)
  {
    Uses4();
    Entries4();
    hide RfcSteps, Uses, Table;
    var h := Chain(0x54c9eb3a, 0x79c0710a, 0x2ec86f72, 0xd4d9c6ac);
    Begins(h, x, 3);
    Performs(h, x, 3, 0, Chain(0x54c9eb3a, 0x79c0710a, 0x2ec86f72, 0xd4d9c6ac), 0, 0, 0xf4292244, 6, 0x02095af1);
    Performs(h, x, 3, 1, Chain(0xd4d9c6ac, 0x02095af1, 0x79c0710a, 0x2ec86f72), 7, 0, 0x432aff97, 10, 0x13d245fd);
    Performs(h, x, 3, 2, Chain(0x2ec86f72, 0x13d245fd, 0x02095af1, 0x79c0710a), 14, 0x000001f0, 0xab9423a7, 15, 0xa8dcfe26);
    Performs(h, x, 3, 3, Chain(0x79c0710a, 0xa8dcfe26, 0x13d245fd, 0x02095af1), 5, 0, 0xfc93a039, 21, 0x2ba98e3f);
    Performs(h, x, 3, 4, Chain(0x02095af1, 0x2ba98e3f, 0xa8dcfe26, 0x13d245fd), 12, 0, 0x655b59c3, 6, 0xe126c1aa);
    Performs(h, x, 3, 5, Chain(0x13d245fd, 0xe126c1aa, 0x2ba98e3f, 0xa8dcfe26), 3, 0, 0x8f0ccc92, 10, 0x96b00fa7);
    Performs(h, x, 3, 6, Chain(0xa8dcfe26, 0x96b00fa7, 0xe126c1aa, 0x2ba98e3f), 10, 0, 0xffeff47d, 15, 0x6f287ff5);
    Performs(h, x, 3, 7, Chain(0x2ba98e3f, 0x6f287ff5, 0x96b00fa7, 0xe126c1aa), 1, 0, 0x85845dd1, 21, 0xfb7bcee0);
    Performs(h, x, 3, 8, Chain(0xe126c1aa, 0xfb7bcee0, 0x6f287ff5, 0x96b00fa7), 8, 0, 0x6fa87e4f, 6, 0x452c1099);
    Performs(h, x, 3, 9, Chain(0x96b00fa7, 0x452c1099, 0xfb7bcee0, 0x6f287ff5), 15, 0, 0xfe2ce6e0, 10, 0xca801ba6);
    Performs(h, x, 3, 10, Chain(0x6f287ff5, 0xca801ba6, 0x452c1099, 0xfb7bcee0), 6, 0, 0xa3014314, 15, 0xc197ea8e);
    Performs(h, x, 3, 11, Chain(0xfb7bcee0, 0xc197ea8e, 0xca801ba6, 0x452c1099), 13, 0, 0x4e0811a1, 21, 0x5ac74608);
    Performs(h, x, 3, 12, Chain(0x452c1099, 0x5ac74608, 0xc197ea8e, 0xca801ba6), 4, 0, 0xf7537e82, 6, 0x14ae42c6);
    Performs(h, x, 3, 13, Chain(0xca801ba6, 0x14ae42c6, 0x5ac74608, 0xc197ea8e), 11, 0, 0xbd3af235, 10, 0xa52dae75);
    Performs(h, x, 3, 14, Chain(0xc197ea8e, 0xa52dae75, 0x14ae42c6, 0x5ac74608), 2, 0, 0x2ad7d2bb, 15, 0x826afd76);
    Performs(h, x, 3, 15, Chain(0x5ac74608, 0x826afd76, 0xa52dae75, 0x14ae42c6), 9, 0, 0xeb86d391, 21, 0x16dd9203);
  }

  lemma SecondRounds(x: seq<bv32>)
    requires SecondWords(x)
    ensures Sum(Rounds(Chain(0x83fd320b, 0xdefbe5cf, 0xa9b1642f, 0xfa6f932a), x), Chain(0x83fd320b, 0xdefbe5cf, 0xa9b1642f, 0xfa6f932a))
         == Chain(0x98ab74d1, 0xf5d977d2, 0x2c1c61a5, 0x9f9d419f)
  {
    hide RfcSteps;
    SecondRound1(x);
    SecondRound2(x);
    SecondRound3(x);
    SecondRound4(x);
  }

  lemma FirstBlock(p: seq<bv8>)
    requires p == UPPER + LOWER + DIGITS + [0x80, 0]
    ensures Compress(IV, p) == Chain(0x83fd320b, 0xdefbe5cf, 0xa9b1642f, 0xfa6f932a)
  {
    FirstBlockWords(p);
    FirstRounds(Words(p));
  }

  lemma FirstBlockWords1(p: seq<bv8>)
    requires p == UPPER + LOWER + DIGITS + [0x80, 0]
    ensures Word(p, 0) == 0x44434241 && Word(p, 1) == 0x48474645 && Word(p, 2) == 0x4c4b4a49 && Word(p, 3) == 0x504f4e4d
  {
  }

  lemma FirstBlockWords2(p: seq<bv8>)
    requires p == UPPER + LOWER + DIGITS + [0x80, 0]
    ensures Word(p, 4) == 0x54535251 && Word(p, 5) == 0x58575655 && Word(p, 6) == 0x62615a59 && Word(p, 7) == 0x66656463
  {
  }

  lemma FirstBlockWords3(p: seq<bv8>)
    requires p == UPPER + LOWER + DIGITS + [0x80, 0]
    ensures Word(p, 8) == 0x6a696867 && Word(p, 9) == 0x6e6d6c6b && Word(p, 10) == 0x7271706f && Word(p, 11) == 0x76757473
  {
  }

  lemma FirstBlockWords4(p: seq<bv8>)
    requires p == UPPER + LOWER + DIGITS + [0x80, 0]
    ensures Word(p, 12) == 0x7a797877 && Word(p, 13) == 0x33323130 && Word(p, 14) == 0x37363534 && Word(p, 15) == 0x00803938
  {
  }

  lemma FirstBlockWords(p: seq<bv8>)
    requires p == UPPER + LOWER + DIGITS + [0x80, 0]
    ensures FirstWords(Words(p))
  {
    hide Word;
    FirstBlockWords1(p);
    FirstBlockWords2(p);
    FirstBlockWords3(p);
    FirstBlockWords4(p);
  }

  lemma SecondBlock(p: seq<bv8>)
    requires p == Zeros(56) + LengthBytes(62)
    ensures Compress(Chain(0x83fd320b, 0xdefbe5cf, 0xa9b1642f, 0xfa6f932a), p)
         == Chain(0x98ab74d1, 0xf5d977d2, 0x2c1c61a5, 0x9f9d419f)
  {
    SecondBlockWords(p);
    SecondRounds(Words(p));
  }

  lemma SecondBlockWords(p: seq<bv8>)
    requires p == Zeros(56) + LengthBytes(62)
    ensures SecondWords(Words(p))
  {
    SixtyTwo();
    hide LengthBytes;
  }

  lemma SixtyTwo()
    ensures LengthBytes(62) == [0xf0, 0x01, 0, 0, 0, 0, 0, 0]
  {
    SixtyTwoWords();
    LowBytes();
    hide WordOf, Bytes;
  }

  lemma SixtyTwoWords()
    ensures WordOf(8 * 62) == 0x1f0 && WordOf(8 * 62 / TWO_32) == 0
  {
  }

  lemma LowBytes()
    ensures Bytes(0x1f0) == [0xf0, 0x01, 0, 0] && Bytes(0) == [0, 0, 0, 0]
  {
  }

  /** MD5 of the letters and digits is d174ab98d277d9f5a5611c2c9f419d9f. */
  lemma DigestOfLettersAndDigits()
    ensures Md5(UPPER + LOWER + DIGITS) == [
      0xd1, 0x74, 0xab, 0x98, 0xd2, 0x77, 0xd9, 0xf5, 0xa5, 0x61, 0x1c, 0x2c, 0x9f, 0x41, 0x9d, 0x9f
    ]
  {
    hide Compress, Fold, Digest, Padding, LengthBytes;
    var m := UPPER + LOWER + DIGITS;
    var first, second := m + [0x80, 0], Zeros(56) + LengthBytes(62);
    FirstBlock(first);
    SecondBlock(second);
    InBlocks(m);
    FoldConcat(IV, first, second, 1);
    OneBlock(IV, first);
    OneBlock(Compress(IV, first), second);
    InBytes();
  }

  lemma InBlocks(m: seq<bv8>)
    requires |m| == 62
    ensures m + Padding(62) == m + [0x80, 0] + (Zeros(56) + LengthBytes(62))
  {
    hide LengthBytes;
  }

  lemma OneBlock(h: Chain, p: seq<bv8>)
    requires |p| == 64
    ensures Fold(h, p) == Compress(h, p)
  {
    hide Compress;
    assert p[..64] == p && p[64..] == [];
  }

  lemma InBytes()
    ensures Digest(Chain(0x98ab74d1, 0xf5d977d2, 0x2c1c61a5, 0x9f9d419f)) == [
      0xd1, 0x74, 0xab, 0x98, 0xd2, 0x77, 0xd9, 0xf5, 0xa5, 0x61, 0x1c, 0x2c, 0x9f, 0x41, 0x9d, 0x9f
    ]
  {
  }
}
