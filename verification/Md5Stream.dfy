/** Streaming MD5 with a 64-byte carry buffer and a split length counter (cphash.cc), against the one-shot
    definition of sections 3.1 to 3.5 of RFC 1321. */
module Md5Stream {
  import opened Md5Transform
  import opened NumberTheory

  const TWO_29: nat := 0x2000_0000

  // ---- the one-shot definition ---------------------------------------------------------------------

  const IV: Chain := Chain(0x67452301, 0xefcdab89, 0x98badcfe, 0x10325476)

  /** The compression function folded over the whole blocks of m; what is left over, short of a block, is not looked at. */
  function Fold(h: Chain, m: seq<bv8>): Chain
    decreases |m|
  {
    if |m| < 64 then h else Fold(Compress(h, m[..64]), m[64..])
  }

  /** A word, low-order byte first. */
  function Bytes(w: bv32): (s: seq<bv8>)
    ensures |s| == 4
  {
    [(w % 0x100) as bv8, (w / 0x100 % 0x100) as bv8, (w / 0x1_0000 % 0x100) as bv8, (w / 0x100_0000) as bv8]
  }

  function WordOf(n: nat): bv32 {
    (n % TWO_32) as bv32
  }

  /** The length in bits modulo 2^64, low-order word first. */
  function LengthBytes(n: nat): (s: seq<bv8>)
    ensures |s| == 8
  {
    Bytes(WordOf(8 * n)) + Bytes(WordOf(8 * n / TWO_32))
  }

  function Zeros(n: nat): (s: seq<bv8>)
    ensures |s| == n
  {
    seq(n, _ => 0)
  }

  /** How many zeros bring n bytes and the 0x80 to 56 modulo 64. */
  function ZeroCount(n: nat): nat {
    (119 - n % 64) % 64
  }

  /** Sections 3.1 and 3.2: what is appended to a message of n bytes. */
  function Padding(n: nat): seq<bv8> {
    [0x80] + Zeros(ZeroCount(n)) + LengthBytes(n)
  }

  lemma PaddedIsWhole(n: nat)
    ensures (n + |Padding(n)|) % 64 == 0
  {
    var k, r := n / 64, n % 64;
    var blocks := if r < 56 then k + 1 else k + 2;
    assert n + |Padding(n)| == 64 * blocks;
    MulMod(64, blocks);
  }

  function Digest(h: Chain): seq<bv8> {
    Bytes(h.a) + Bytes(h.b) + Bytes(h.c) + Bytes(h.d)
  }

  function Md5(m: seq<bv8>): seq<bv8> {
    Digest(Fold(IV, m + Padding(|m|)))
  }

  lemma {:induction false} FoldConcat(h: Chain, x: seq<bv8>, y: seq<bv8>, n: nat)
    requires |x| == 64 * n
    ensures Fold(h, x + y) == Fold(Fold(h, x), y)
    decreases n
  {
    hide Compress;
    if n == 0 {
      assert x + y == y;
    } else {
      assert (x + y)[..64] == x[..64] && (x + y)[64..] == x[64..] + y;
      FoldConcat(Compress(h, x[..64]), x[64..], y, n - 1);
    }
  }

  // ---- what the context holds after a message ----------------------------------------------------------

  /** The bytes of m that do not fill a block. */
  function Rest(m: seq<bv8>): (r: seq<bv8>)
    ensures |r| == |m| % 64
  {
    m[|m| / 64 * 64..]
  }

  ghost predicate Holds(h: Chain, buf: seq<bv8>, m: seq<bv8>) {
    |buf| == 64 && h == Fold(IV, m) && buf[..|Rest(m)|] == Rest(m)
  }

  /** Appending x to m appends it to the rest of m, as far as folding is concerned. */
  lemma FoldAppend(m: seq<bv8>, x: seq<bv8>)
    ensures Fold(IV, m + x) == Fold(Fold(IV, m), Rest(m) + x)
  {
    hide Compress;
    var n := |m| / 64;
    var p, r := m[..64 * n], Rest(m);
    assert m == p + r && m + x == p + (r + x);
    FoldConcat(IV, p, r, n);
    FoldConcat(IV, p, r + x, n);
  }

  lemma RestAppend(m: seq<bv8>, x: seq<bv8>)
    ensures Rest(m + x) == Rest(Rest(m) + x)
  {
    var n, r := |m| / 64, Rest(m);
    assert |m + x| / 64 == n + |r + x| / 64;
    assert m + x == m[..64 * n] + (r + x);
  }

  lemma ShortRest(x: seq<bv8>)
    ensures |x| < 64 ==> Rest(x) == x && forall h :: Fold(h, x) == h
    ensures |x| % 64 == 0 ==> Rest(x) == []
  {
    hide Compress;
  }

  /** Fewer bytes than the buffer has room for. */
  lemma HoldsPartial(h: Chain, buf: seq<bv8>, m: seq<bv8>, x: seq<bv8>, buf': seq<bv8>)
    requires Holds(h, buf, m) && |Rest(m) + x| < 64
    requires |buf'| == 64 && buf'[..|Rest(m) + x|] == Rest(m) + x
    ensures Holds(h, buf', m + x)
  {
    hide Fold, Rest;
    FoldAppend(m, x);
    RestAppend(m, x);
    ShortRest(Rest(m) + x);
  }

  /** Whole blocks, the first of them begun in the buffer. */
  lemma HoldsBlocks(h: Chain, buf: seq<bv8>, m: seq<bv8>, x: seq<bv8>, h': Chain)
    requires Holds(h, buf, m) && |Rest(m) + x| % 64 == 0 && h' == Fold(h, Rest(m) + x)
    ensures Holds(h', buf, m + x) && Rest(m + x) == []
  {
    hide Fold, Rest;
    FoldAppend(m, x);
    RestAppend(m, x);
    ShortRest(Rest(m) + x);
  }

  /** Whole blocks taken straight from the caller, then fewer bytes than a block stored in the buffer. */
  lemma HoldsDirect(h: Chain, m: seq<bv8>, x: seq<bv8>, tail: seq<bv8>, buf: seq<bv8>)
    requires h == Fold(IV, m) && Rest(m) == [] && |x| % 64 == 0
    requires |tail| < 64 == |buf| && buf[..|tail|] == tail
    ensures Holds(Fold(h, x), buf, m + x + tail)
  {
    hide Fold, Rest;
    assert Rest(m) + x == x;
    FoldAppend(m, x);
    RestAppend(m, x);
    ShortRest(x);
    var p := m + x;
    assert Rest(p) + tail == tail;
    FoldAppend(p, tail);
    RestAppend(p, tail);
    ShortRest(tail);
  }

  /** The padding fits behind the rest of the message, in one block. */
  lemma PadOne(h: Chain, m: seq<bv8>, block: seq<bv8>)
    requires h == Fold(IV, m) && |Rest(m)| < 56
    requires block == Rest(m) + [0x80] + Zeros(55 - |Rest(m)|) + LengthBytes(|m|)
    ensures Fold(h, block) == Fold(IV, m + Padding(|m|))
  {
    hide Fold, LengthBytes;
    FoldAppend(m, Padding(|m|));
    assert Rest(m) + Padding(|m|) == block;
  }

  /** The padding needs a second block, of zeros and the length. */
  lemma PadTwo(h: Chain, m: seq<bv8>, first: seq<bv8>, second: seq<bv8>)
    requires h == Fold(IV, m) && |Rest(m)| >= 56
    requires first == Rest(m) + [0x80] + Zeros(63 - |Rest(m)|) && second == Zeros(56) + LengthBytes(|m|)
    ensures Fold(Fold(h, first), second) == Fold(IV, m + Padding(|m|))
  {
    hide Fold, LengthBytes;
    FoldAppend(m, Padding(|m|));
    assert Rest(m) + Padding(|m|) == first + second;
    FoldConcat(h, first, second, 1);
  }

  /** OUT, which casts to unsigned char. */
  function Out(src: bv32): (dst: seq<bv8>)
    ensures dst == Bytes(src)
  {
    [(src & 0xff) as bv8, ((src >> 8) & 0xff) as bv8, ((src >> 16) & 0xff) as bv8, ((src >> 24) & 0xff) as bv8]
  }

  // ---- the context ---------------------------------------------------------------------------------

  class Context {
    var lo: nat
    var hi: nat
    var a: bv32
    var b: bv32
    var c: bv32
    var d: bv32
    const buffer: array<bv8>
    ghost var fed: seq<bv8>

    ghost function State(): Chain
      reads this
    {
      Chain(a, b, c, d)
    }

    /** The split counter holds the number of bytes fed, modulo 2^61; the chaining words cover the whole blocks fed so
        far, the buffer the bytes after them. */
    ghost predicate Valid()
      reads this, buffer
    {
      && buffer.Length == 64
      && lo == |fed| % TWO_29 && hi == |fed| / TWO_29 % TWO_32
      && Holds(State(), buffer[..], fed)
    }

    constructor MD5Init()
      ensures Valid() && fed == [] && fresh(buffer)
    {
      a := 0x67452301;
      b := 0xefcdab89;
      c := 0x98badcfe;
      d := 0x10325476;
      lo := 0;
      hi := 0;
      buffer := new bv8[64];
      fed := [];
    }

    /** Called on a non-zero multiple of 64 bytes only. */
    method Body(data: seq<bv8>)
      requires |data| > 0 && |data| % 64 == 0
      modifies this`a, this`b, this`c, this`d
      ensures State() == Fold(old(State()), data)
    {
      hide Compress;
      var ptr, size := 0, |data|;
      while true
        invariant 0 <= ptr < |data| && ptr + size == |data| && size % 64 == 0
        invariant Fold(State(), data[ptr..]) == Fold(old(State()), data)
        decreases size
      {
        var h := Transform(Chain(a, b, c, d), data[ptr..ptr + 64]);
        assert data[ptr..][..64] == data[ptr..ptr + 64] && data[ptr..][64..] == data[ptr + 64..];
        a, b, c, d := h.a, h.b, h.c, h.d;
        ptr := ptr + 64;
        size := size - 64;
        if size == 0 {
          break;
        }
      }
      assert data[ptr..] == [];
    }
  
    /** Copies x into the buffer behind its first used bytes. */
    method Copy(used: nat, x: seq<bv8>)
      requires buffer.Length == 64 && used + |x| <= 64
      modifies buffer
      ensures buffer[..used] == old(buffer[..used]) && buffer[used..used + |x|] == x
      ensures buffer[used + |x|..] == old(buffer[used + |x|..])
    {
      forall k | 0 <= k < |x| {
        buffer[used + k] := x[k];
      }
    }

    method CountBytes(size: nat)
      requires size < TWO_64 && lo == |fed| % TWO_29 && hi == |fed| / TWO_29 % TWO_32
      modifies this`lo, this`hi
      ensures lo == (|fed| + size) % TWO_29 && hi == (|fed| + size) / TWO_29 % TWO_32
    {
      var savedLo := lo;
      lo := (savedLo + size) % TWO_64 % TWO_29;
      if lo < savedLo {
        hi := (hi + 1) % TWO_32;
      }
      hi := (hi + size / TWO_29) % TWO_32;
      CountLemma(|fed|, size, savedLo, old(hi), lo);
    }

    method MD5Update(data: seq<bv8>)
      requires Valid() && |data| < TWO_64
      modifies this, buffer
      ensures Valid() && fed == old(fed) + data
    {
      hide Fold, Rest;
      var used := lo % 64;
      UsedLemma(|fed|);
      assert used == |Rest(fed)|;
      CountBytes(|data|);
      ghost var m := fed;
      fed := fed + data;
      var rest := data;
      if used != 0 {
        var available := 64 - used;
        if |rest| < available {
          ghost var before := buffer[..];
          Copy(used, rest);
          assert buffer[..used + |rest|] == buffer[..used] + buffer[used..used + |rest|];
          HoldsPartial(State(), before, m, data, buffer[..]);
          return;
        }
        Copy(used, rest[..available]);
        assert buffer[..] == buffer[..used] + buffer[used..64];
        Body(buffer[..]);
        HoldsBlocks(old(State()), old(buffer[..]), m, data[..available], State());
        m := m + data[..available];
        rest := rest[available..];
      }
      assert Rest(m) == [] && m + rest == fed && State() == Fold(IV, m);
      Whole(rest, m, fed);
    }

    method Whole(rest: seq<bv8>, ghost m: seq<bv8>, ghost all: seq<bv8>)
      requires buffer.Length == 64 && Rest(m) == [] && m + rest == all && State() == Fold(IV, m)
      modifies this`a, this`b, this`c, this`d, buffer
      ensures Holds(State(), buffer[..], all)
    {
      hide Fold, Rest;
      var size := |rest|;
      var whole := size - size % 64;
      ghost var h := State();
      if size >= 64 {
        Body(rest[..whole]);
      }
      Copy(0, rest[whole..]);
      NothingToFold(h);
      HoldsDirect(h, m, rest[..whole], rest[whole..], buffer[..]);
      assert m + rest[..whole] + rest[whole..] == all;
    }

    method Fill(from: nat, to: nat)
      requires buffer.Length == 64 && from <= to <= 64
      modifies buffer
      ensures buffer[..from] == old(buffer[..from]) && buffer[from..to] == Zeros(to - from)
      ensures buffer[to..] == old(buffer[to..])
    {
      forall k | from <= k < to {
        buffer[k] := 0;
      }
    }

    /** The message is padded in the buffer, its length appended, and the context wiped. */
    method MD5Final() returns (result: seq<bv8>)
      requires Valid()
      modifies this, buffer
      ensures result == Md5(old(fed))
      ensures lo == hi == 0 && State() == Chain(0, 0, 0, 0) && buffer[..] == Zeros(64)
    {
      hide Fold, Rest, Bytes, Out;
      var used := lo % 64;
      UsedLemma(|fed|);
      ghost var r := Rest(fed);
      assert used == |r|;
      buffer[used] := 0x80;
      used := used + 1;
      assert buffer[..used] == r + [0x80];
      var available := 64 - used;
      if available < 8 {
        Fill(used, 64);
        ghost var first := buffer[..];
        assert first == r + [0x80] + Zeros(63 - |r|);
        Body(buffer[..]);
        used := 0;
        available := 64;
        Finish(0, first, r);
      } else {
        Finish(used, [], r);
      }
      result := Out(a) + Out(b) + Out(c) + Out(d);
      lo, hi, a, b, c, d := 0, 0, 0, 0, 0, 0;
      Fill(0, 64);
    }

    method Finish(used: nat, ghost first: seq<bv8>, ghost r: seq<bv8>)
      requires buffer.Length == 64 && used <= 56 && r == Rest(fed)
      requires lo == |fed| % TWO_29 && hi == |fed| / TWO_29 % TWO_32
      requires if used > 0 then buffer[..used] == r + [0x80] && State() == Fold(IV, fed)
               else |r| >= 56 && first == r + [0x80] + Zeros(63 - |r|) && State() == Fold(Fold(IV, fed), first)
      modifies this`lo, this`a, this`b, this`c, this`d, buffer
      ensures State() == Fold(IV, fed + Padding(|fed|))
    {
      hide Fold, Rest, Bytes, Out;
      Fill(used, 56);
      lo := lo * 8 % TWO_32;
      LengthLemma(|fed|);
      Copy(56, Out(WordOf(lo)) + Out(WordOf(hi)));
      assert buffer[..] == buffer[..used] + buffer[used..56] + buffer[56..64];
      assert buffer[..] == buffer[..used] + Zeros(56 - used) + LengthBytes(|fed|);
      Body(buffer[..]);
      if used > 0 {
        PadOne(Fold(IV, fed), fed, buffer[..]);
      } else {
        PadTwo(Fold(IV, fed), fed, first, buffer[..]);
      }
    }
  }

  /** The low word shifted by three and the high word are the two words of the length in bits. */
  lemma LengthLemma(n: nat)
    ensures n % TWO_29 * 8 % TWO_32 == 8 * n % TWO_32
    ensures WordOf(n % TWO_29 * 8 % TWO_32) == WordOf(8 * n)
    ensures WordOf(n / TWO_29 % TWO_32) == WordOf(8 * n / TWO_32)
  {
    var q, l := n / TWO_29, n % TWO_29;
    assert 8 * n == TWO_32 * q + 8 * l;
    DivModUnique(TWO_32, q, 8 * l);
  }

  lemma NothingToFold(h: Chain)
    ensures Fold(h, []) == h
  {
  }

  /** The 29-bit carry and the high word add up. */
  lemma CountLemma(n: nat, size: nat, lo: nat, hi: nat, lo': nat)
    requires lo == n % TWO_29 && hi == n / TWO_29 % TWO_32 && lo' == (lo + size) % TWO_64 % TWO_29
    ensures lo' == (n + size) % TWO_29
    ensures lo' < lo ==> ((hi + 1) % TWO_32 + size / TWO_29) % TWO_32 == (n + size) / TWO_29 % TWO_32
    ensures lo' >= lo ==> (hi + size / TWO_29) % TWO_32 == (n + size) / TWO_29 % TWO_32
  {
    var q, p, s := n / TWO_29, size / TWO_29, size % TWO_29;
    var c := if lo + s >= TWO_29 then 1 else 0;
    var low := lo + s - c * TWO_29;
    DivModUnique(TWO_29, q + p + c, low);
    var e := (lo + size) / TWO_64;
    assert (lo + size) % TWO_64 == TWO_29 * (p + c - e * 0x8_0000_0000) + low;
    DivModUnique(TWO_29, p + c - e * 0x8_0000_0000, low);
    ModAdd(q, c, p);
  }

  lemma ModAdd(q: nat, c: nat, p: nat)
    requires c <= 1
    ensures ((q % TWO_32 + c) % TWO_32 + p) % TWO_32 == (q + p + c) % TWO_32
    ensures c == 0 ==> (q % TWO_32 + p) % TWO_32 == (q + p) % TWO_32
  {
    var k := (q % TWO_32 + c) / TWO_32;
    assert q + p + c == (q % TWO_32 + c) % TWO_32 + p + TWO_32 * (q / TWO_32 + k);
  }

  lemma UsedLemma(n: nat)
    ensures n % TWO_29 % 64 == n % 64
  {
  }

  // ---- any way of cutting up the message -------------------------------------------------------------

  function Joined(chunks: seq<seq<bv8>>): seq<bv8> {
    if chunks == [] then [] else chunks[0] + Joined(chunks[1..])
  }

  lemma {:induction false} JoinedSnoc(chunks: seq<seq<bv8>>, x: seq<bv8>)
    ensures Joined(chunks + [x]) == Joined(chunks) + x
  {
    if chunks == [] {
      assert Joined([x]) == x + Joined([x][1..]) == x;
    } else {
      assert (chunks + [x])[1..] == chunks[1..] + [x];
      JoinedSnoc(chunks[1..], x);
      assert chunks[0] + (Joined(chunks[1..]) + x) == chunks[0] + Joined(chunks[1..]) + x;
    }
  }

  /** However a message is cut into updates, the stream ends in the digest of the whole. */
  method Stream(chunks: seq<seq<bv8>>) returns (result: seq<bv8>)
    requires forall k :: 0 <= k < |chunks| ==> |chunks[k]| < TWO_64
    ensures result == Md5(Joined(chunks))
  {
    hide Md5, Fold, Holds, Context.Valid;
    var ctx := new Context.MD5Init();
    for k := 0 to |chunks|
      invariant ctx.Valid() && fresh(ctx) && fresh(ctx.buffer) && ctx.fed == Joined(chunks[..k])
    {
      ctx.MD5Update(chunks[k]);
      assert chunks[..k + 1] == chunks[..k] + [chunks[k]];
      JoinedSnoc(chunks[..k], chunks[k]);
    }
    assert chunks[..|chunks|] == chunks;
    result := ctx.MD5Final();
  }
}
