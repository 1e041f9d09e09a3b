/** Unsigned 32- and 64-bit words, and why each operation the hashes mix with loses nothing. */
module MachineWords {
  import opened NumberTheory

  type Byte = x: nat | x < 256
  type U32 = x: nat | x < TWO_32
  type U64 = x: nat | x < TWO_64

  // ---- exclusive or and shifts -----------------------------------------------------------------------

  function Xor(a: nat, b: nat): nat
    decreases a + b
  {
    if a == 0 && b == 0 then 0 else (if a % 2 == b % 2 then 0 else 1) + 2 * Xor(a / 2, b / 2)
  }

  function Shr(x: nat, s: nat): nat {
    if s == 0 then x else Shr(x / 2, s - 1)
  }

  lemma {:induction false} XorBound(a: nat, b: nat, k: nat)
    requires a < Pow(2, k) && b < Pow(2, k)
    ensures Xor(a, b) < Pow(2, k)
    decreases k
  {
    if k > 0 {
      XorBound(a / 2, b / 2, k - 1);
    }
  }

  lemma {:induction false} ShrBound(x: nat, s: nat)
    ensures Shr(x, s) <= x && (s > 0 && x > 0 ==> Shr(x, s) < x)
  {
    if s > 0 {
      ShrBound(x / 2, s - 1);
    }
  }

  lemma {:induction false} XorSymmetric(a: nat, b: nat)
    ensures Xor(a, b) == Xor(b, a)
    decreases a + b
  {
    if a > 0 || b > 0 {
      XorSymmetric(a / 2, b / 2);
    }
  }

  lemma {:induction false} XorCancel(a: nat, b: nat, c: nat)
    requires Xor(a, c) == Xor(b, c)
    ensures a == b
    decreases a + b + c
  {
    if a > 0 || b > 0 {
      XorStep(a, c);
      XorStep(b, c);
      XorCancel(a / 2, b / 2, c / 2);
    }
  }

  lemma XorStep(a: nat, c: nat)
    ensures Xor(a, c) / 2 == Xor(a / 2, c / 2)
    ensures Xor(a, c) % 2 == if a % 2 == c % 2 then 0 else 1
  {
  }

  lemma {:induction false} XorShr(a: nat, b: nat, s: nat)
    ensures Shr(Xor(a, b), s) == Xor(Shr(a, s), Shr(b, s))
    decreases s
  {
    if s > 0 {
      XorStep(a, b);
      XorShr(a / 2, b / 2, s - 1);
    }
  }

  /** x ^= x >> s can be undone, from the top bits down. */
  lemma {:induction false} XorShiftInjective(x: nat, y: nat, s: nat)
    requires s > 0 && Xor(x, Shr(x, s)) == Xor(y, Shr(y, s))
    ensures x == y
    decreases x + y
  {
    if x > 0 || y > 0 {
      ShrBound(x, s);
      ShrBound(y, s);
      XorShr(x, Shr(x, s), s);
      XorShr(y, Shr(y, s), s);
      XorShiftInjective(Shr(x, s), Shr(y, s), s);
      XorCancel(x, y, Shr(x, s));
    }
  }

  lemma {:induction false} XorTwice(a: nat, b: nat)
    ensures Xor(Xor(a, b), b) == a
    decreases a + b
  {
    if a > 0 || b > 0 {
      XorStep(a, b);
      XorStep(Xor(a, b), b);
      XorTwice(a / 2, b / 2);
    }
  }

  /** The x for which x ^ (x >> s) is y: shift, undo what is left, and take it out. */
  function Unshift(y: nat, s: nat): nat
    requires s > 0
    decreases y
  {
    if y == 0 then 0 else ShrBound(y, s); Xor(y, Unshift(Shr(y, s), s))
  }

  lemma {:induction false} UnshiftUndoes(x: nat, s: nat)
    requires s > 0
    ensures Unshift(Xor(x, Shr(x, s)), s) == x
    decreases x
  {
    if x == 0 {
      ShrBound(0, s);
    } else {
      var y, z := Xor(x, Shr(x, s)), Shr(x, s);
      ShrBound(x, s);
      XorShr(x, z, s);
      UnshiftUndoes(z, s);
      XorTwice(x, z);
      if y == 0 {
        assert Xor(z, z) == y by { XorSame(z); }
        XorCancel(x, z, z);
      }
    }
  }

  lemma {:induction false} XorSame(a: nat)
    ensures Xor(a, a) == 0
  {
    if a > 0 { XorSame(a / 2); }
  }

  // ---- multiplication --------------------------------------------------------------------------------

  /** Multiplication by a number with an inverse modulo m can be undone. */
  lemma MulInjective(m: nat, p: nat, q: nat, x: nat, y: nat)
    requires m > 1 && (p * q) % m == 1 && x < m && y < m && (x * p) % m == (y * p) % m
    ensures x == y
  {
    Undo(m, p, q, x);
    Undo(m, p, q, y);
    ModMul(m, x * p, q, y * p, q);
  }

  lemma Undo(m: nat, p: nat, q: nat, x: nat)
    requires m > 1 && (p * q) % m == 1 && x < m
    ensures ((x * p) * q) % m == x
  {
    ModMul(m, x, p * q, x, 1);
    assert (x * p) * q == x * (p * q);
  }

  // ---- rotation --------------------------------------------------------------------------------------

  /** (x << r) | (x >> (32 - r)); the two halves share no bits, so the or is a sum. */
  function Rotate15(x: U32): U32 {
    x % 0x2_0000 * 0x8000 + x / 0x2_0000
  }

  function Rotate13(x: U32): U32 {
    x % 0x8_0000 * 0x2000 + x / 0x8_0000
  }

  lemma RotateParts(x: U32)
    ensures Rotate15(x) / 0x8000 == x % 0x2_0000 && Rotate15(x) % 0x8000 == x / 0x2_0000
    ensures Rotate13(x) / 0x2000 == x % 0x8_0000 && Rotate13(x) % 0x2000 == x / 0x8_0000
  {
    DivModUnique(0x8000, x % 0x2_0000, x / 0x2_0000);
    DivModUnique(0x2000, x % 0x8_0000, x / 0x8_0000);
  }

  /** Rotations the other way. */
  function Unrotate15(x: U32): U32 {
    x % 0x8000 * 0x2_0000 + x / 0x8000
  }

  function Unrotate13(x: U32): U32 {
    x % 0x2000 * 0x8_0000 + x / 0x2000
  }

  lemma UnrotateUndoes(x: U32)
    ensures Unrotate15(Rotate15(x)) == x && Unrotate13(Rotate13(x)) == x
  {
    hide Rotate15, Rotate13;
    RotateParts(x);
  }

  lemma RotateInjective(x: U32, y: U32)
    ensures Rotate15(x) == Rotate15(y) ==> x == y
    ensures Rotate13(x) == Rotate13(y) ==> x == y
  {
    hide Rotate15, Rotate13;
    RotateParts(x);
    RotateParts(y);
  }

  // ---- the same, on words ------------------------------------------------------------------------------

  lemma Powers()
    ensures Pow(2, 32) == TWO_32 && Pow(2, 64) == TWO_64
  {
    assert Pow(2, 8) == 256;
    PowAdd(2, 8, 8);
    PowAdd(2, 16, 16);
    PowAdd(2, 32, 32);
  }

  function Xor32(a: U32, b: U32): U32 {
    Powers(); XorBound(a, b, 32);
    Xor(a, b)
  }

  function Xor64(a: U64, b: U64): U64 {
    Powers(); XorBound(a, b, 64);
    Xor(a, b)
  }

  function Mul32(a: U32, b: U32): U32 {
    a * b % TWO_32
  }

  function Mul64(a: U64, b: U64): U64 {
    a * b % TWO_64
  }

  function Add32(a: U32, b: U32): U32 {
    (a + b) % TWO_32
  }

  function Add64(a: nat, b: nat): U64 {
    (a + b) % TWO_64
  }

  function Sub32(a: U32, b: U32): U32 {
    (a + TWO_32 - b) % TWO_32
  }

  lemma SubUndoes(a: U32, b: U32)
    ensures Sub32(Add32(a, b), b) == a && Sub32(Add32(b, a), b) == a
  {
  }

  lemma XorUndoes(a: nat, b: nat)
    ensures Xor(Xor(a, b), a) == b && Xor(Xor(a, b), b) == a
  {
    XorTwice(a, b);
    XorSymmetric(a, b);
    XorTwice(b, a);
  }

  lemma XorCancel32(x: U32, y: U32, z: U32)
    ensures Xor32(x, z) == Xor32(y, z) ==> x == y
    ensures Xor32(z, x) == Xor32(z, y) ==> x == y
  {
    XorSymmetric(x, z);
    XorSymmetric(y, z);
    if Xor(x, z) == Xor(y, z) { XorCancel(x, y, z); }
  }

  lemma XorCancel64(x: U64, y: U64, z: U64)
    ensures Xor64(x, z) == Xor64(y, z) ==> x == y
    ensures Xor64(z, x) == Xor64(z, y) ==> x == y
  {
    XorSymmetric(x, z);
    XorSymmetric(y, z);
    if Xor(x, z) == Xor(y, z) { XorCancel(x, y, z); }
  }

  /** Multiplication by a word with an inverse loses nothing. */
  lemma MulOne32(x: U32, y: U32, p: U32, q: nat)
    requires (p * q) % TWO_32 == 1
    ensures Mul32(x, p) == Mul32(y, p) ==> x == y
  {
    if Mul32(x, p) == Mul32(y, p) {
      MulInjective(TWO_32, p, q, x, y);
    }
  }

  lemma MulUndone32(w: U32, p: U32, q: U32)
    requires (p * q) % TWO_32 == 1
    ensures Mul32(Mul32(w, p), q) == w
  {
    Undo(TWO_32, p, q, w);
    ModOfMod(TWO_32, w * p);
    ModMul(TWO_32, w * p % TWO_32, q, w * p, q);
  }

  lemma MulUndone64(w: U64, p: U64, q: U64)
    requires (p * q) % TWO_64 == 1
    ensures Mul64(Mul64(w, p), q) == w
  {
    Undo(TWO_64, p, q, w);
    ModOfMod(TWO_64, w * p);
    ModMul(TWO_64, w * p % TWO_64, q, w * p, q);
  }

  lemma MulOne64(x: U64, y: U64, p: U64, q: nat)
    requires (p * q) % TWO_64 == 1
    ensures Mul64(x, p) == Mul64(y, p) ==> x == y
  {
    if Mul64(x, p) == Mul64(y, p) {
      MulInjective(TWO_64, p, q, x, y);
    }
  }
}
