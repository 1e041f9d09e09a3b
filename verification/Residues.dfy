/** What the sign of a multiplication modulo an odd prime means: it is negative exactly for the numbers that no square is
    congruent to. The proof pairs each x of the lower half with the y for which x * y is a or -a, and counts signs. */
module Residues {
  import opened NumberTheory
  import opened Reciprocity

  // ---- pairings ------------------------------------------------------------------------------------------------------

  ghost predicate Pairs(k: nat -> nat, s: set<nat>) {
    forall x :: x in s ==> k(x) in s && k(k(x)) == x
  }

  function Fixed(k: nat -> nat, s: set<nat>): set<nat> {
    set x | x in s && k(x) == x
  }

  /** What is not paired with itself comes in twos. */
  lemma {:induction false} PairsCount(k: nat -> nat, s: set<nat>)
    requires Pairs(k, s)
    ensures |s| % 2 == |Fixed(k, s)| % 2
    decreases s
  {
    if x :| x in s && k(x) != x {
      var t := s - {x, k(x)};
      PairsCount(k, t);
      assert s == t + {x, k(x)} && |s| == |t| + 2;
      assert Fixed(k, t) == Fixed(k, s);
    } else {
      assert Fixed(k, s) == s;
    }
  }

  lemma AtMostOne(s: set<nat>)
    requires forall x, y :: x in s && y in s ==> x == y
    ensures |s| % 2 == 1 <==> s != {}
  {
    if x :| x in s { assert s == {x}; }
  }

  // ---- inverses up to the sign -----------------------------------------------------------------------------------------

  ghost predicate OddPrime(p: nat) {
    IsPrime(p) && Odd(p)
  }

  lemma PrimeCoprime(p: nat, x: nat)
    requires IsPrime(p) && !Divides(p, x)
    ensures Coprime(p, x)
  {
    GcdOfIsGreatest(p, x);
    GcdPositive(p, x);
    var d := GcdOf(p, x);
    DivisorSmall(d, p);
  }

  lemma SmallCoprime(p: nat, x: nat)
    requires IsPrime(p) && 1 <= x <= p / 2
    ensures Coprime(p, x)
  {
    SmallNotDivisible(p, x);
    PrimeCoprime(p, x);
  }

  /** x * y is a, or with minus -a, modulo p. */
  predicate Meets(p: nat, x: int, y: int, a: int, minus: bool) {
    Divides(p, if minus then x * y + a else x * y - a)
  }

  ghost predicate Inverts(p: nat, x: nat, y: nat) {
    1 <= y <= p / 2 && (Meets(p, x, y, 1, false) || Meets(p, x, y, 1, true))
  }

  ghost predicate InHalf(p: nat, x: nat) {
    OddPrime(p) && 1 <= x <= p / 2
  }

  lemma Inverse(p: nat, x: nat)
    requires InHalf(p, x)
    ensures exists y: nat :: Inverts(p, x, y)
  {
    SmallCoprime(p, x);
    var u, v := Bezout(p, x);
    hide Coprime, Divides;
    var q, r := v / p, v % p;
    InverseIs(p, x, u, v, q, r);
    if r == 0 {
      assert x * r == 0;
      TooSmall(p, -1);
    }
    assert Inverts(p, x, if r <= p / 2 then r else p - r);
  }

  lemma InverseIs(p: nat, x: nat, u: int, v: int, q: int, r: int)
    requires p > 0 && u * p + v * x == 1 && v == p * q + r
    ensures Divides(p, x * r - 1) && Divides(p, x * (p - r) + 1)
  {
    assert v * x == (p * q) * x + r * x;
    Associate(p, q, x);
    assert x * r - 1 == p * (0 - u - q * x);
    MulMod(p, 0 - u - q * x);
    assert x * (p - r) + 1 == p * (x + u + q * x);
    MulMod(p, x + u + q * x);
  }

  /** The y of the lower half for which x * y is 1 or -1. */
  ghost function Inv(p: nat, x: nat): (y: nat)
    ensures InHalf(p, x) ==> Inverts(p, x, y)
  {
    if InHalf(p, x) then
      Inverse(p, x);
      var y: nat :| Inverts(p, x, y); y
    else 0
  }

  // ---- the partner of x ------------------------------------------------------------------------------------------------

  /** The y of the lower half for which x * y is a or -a. */
  ghost function Mate(a: nat, p: nat, x: nat): nat
    requires p > 0
  {
    if InHalf(p, x) then Lower(a, p, Inv(p, x)) else x
  }

  /** It is -a. */
  ghost predicate Against(a: nat, p: nat, x: nat)
    requires p > 0
  {
    InHalf(p, x) && Meets(p, x, Mate(a, p, x), a, true)
  }

  lemma MateIs(a: nat, p: nat, x: nat)
    requires InHalf(p, x) && Coprime(p, a)
    ensures InHalf(p, Mate(a, p, x)) && Meets(p, x, Mate(a, p, x), a, Against(a, p, x))
    ensures Against(a, p, x) <==> Meets(p, x, Inv(p, x), 1, true) != High(a, p, Inv(p, x))
  {
    hide Coprime, Divides, High, Lower, Inv, IsPrime;
    var i := Inv(p, x);
    var m := Meets(p, x, i, 1, true);
    assert Inverts(p, x, i);
    LowerRange(a, p, i);
    LowerIs(a, p, i);
    Composed(a, p, x, i, Lower(a, p, i), m, High(a, p, i));
    if Against(a, p, x) { MateUnique(a, p, x, Mate(a, p, x), Mate(a, p, x), true, m != High(a, p, i)); }
  }

  lemma Composed(a: nat, p: nat, x: nat, i: nat, l: nat, m: bool, high: bool)
    requires p > 0 && Meets(p, x, i, 1, m) && Divides(p, if high then a * i + l else a * i - l)
    ensures Meets(p, x, l, a, m != high)
  {
    hide Divides;
    var u, w := if high then a * i + l else a * i - l, if m then x * i + 1 else x * i - 1;
    TimesDivides(p, x, u);
    TimesDivides(p, a, w);
    DividesBoth(p, x * u, a * w);
    DividesBoth(p, a * w, x * u);
    Associate(x, a, i);
    Associate(a, x, i);
    if high { Spread(x, a * i, l); } else { Spread(x, a * i, 0 - l); }
    if m { Spread(a, x * i, 1); } else { Spread(a, x * i, -1); }
  }

  lemma Spread(a: int, x: int, y: int)
    ensures a * (x + y) == a * x + a * y && a * -y == -(a * y)
  {
  }

  lemma MateUnique(a: nat, p: nat, x: nat, y: nat, z: nat, m: bool, n: bool)
    requires InHalf(p, x) && InHalf(p, y) && InHalf(p, z) && Meets(p, x, y, a, m) && Meets(p, x, z, a, n)
    ensures y == z && m == n
  {
    SmallCoprime(p, x);
    hide Divides, Coprime, IsPrime;
    DividesBoth(p, if m then x * y + a else x * y - a, if n then x * z + a else x * z - a);
    assert x * (y + z) == x * y + x * z && x * (y - z) == x * y - x * z;
    if m != n {
      NonZero(x, p, y + z);
    } else if y != z {
      NonZero(x, p, y - z);
    }
  }

  lemma MatesPair(a: nat, p: nat, x: nat)
    requires InHalf(p, x) && Coprime(p, a)
    ensures Mate(a, p, Mate(a, p, x)) == x && (Against(a, p, Mate(a, p, x)) <==> Against(a, p, x))
  {
    var y := Mate(a, p, x);
    MateIs(a, p, x);
    MateIs(a, p, y);
    hide Mate, Against, InHalf, Divides, Coprime;
    MateUnique(a, p, y, x, Mate(a, p, y), Against(a, p, x), Against(a, p, y));
  }

  // ---- counting the signs ----------------------------------------------------------------------------------------------

  ghost function Mates(a: nat, p: nat): nat -> nat
    requires p > 0
  {
    (x: nat) => Mate(a, p, x)
  }

  ghost function Againsts(a: nat, p: nat): nat -> bool
    requires p > 0
  {
    (x: nat) => Against(a, p, x)
  }

  /** -a is the square of something, modulo p. */
  ghost predicate Opposed(a: nat, p: nat) {
    exists x: nat :: Meets(p, x, x, a, true)
  }

  lemma OpposedInHalf(a: nat, p: nat, x: nat) returns (y: nat)
    requires OddPrime(p) && Coprime(p, a) && Meets(p, x, x, a, true)
    ensures InHalf(p, y) && Meets(p, y, y, a, true)
  {
    NotMultiple(a, p, x);
    PrimeCoprime(p, x);
    hide Divides, Coprime, IsPrime, High, Lower;
    LowerRange(x, p, 1);
    LowerIs(x, p, 1);
    y := Lower(x, p, 1);
    SquaresAgree(p, x, y, High(x, p, 1));
    DividesBoth(p, x * x + a, x * x - y * y);
  }

  lemma SquaresAgree(p: nat, x: nat, y: nat, high: bool)
    requires p > 0 && Divides(p, if high then x * 1 + y else x * 1 - y)
    ensures Divides(p, x * x - y * y)
  {
    assert (x - y) * (x + y) == (x + y) * (x - y) == x * x - y * y;
    if high { TimesDivides(p, x - y, x + y); } else { TimesDivides(p, x + y, x - y); }
  }

  lemma NotMultiple(a: nat, p: nat, x: nat)
    requires IsPrime(p) && Coprime(p, a) && Meets(p, x, x, a, true)
    ensures !Divides(p, x)
  {
    hide Divides;
    if Divides(p, x) {
      TimesDivides(p, x, x);
      DividesBoth(p, x * x + a, x * x);
      assert x * x + a - x * x == a * 1;
      NonZero(a, p, 1);
    }
  }

  lemma RootsAgree(a: nat, p: nat, x: nat, y: nat)
    requires InHalf(p, x) && InHalf(p, y) && Meets(p, x, x, a, true) && Meets(p, y, y, a, true)
    ensures x == y
  {
    hide Divides;
    DividesBoth(p, x * x + a, y * y + a);
    assert (x + y) * (x - y) == x * x - y * y;
    SmallNotDivisible(p, x + y);
    EuclidOne(p, x + y, x - y);
    if x != y { TooSmall(p, x - y); }
  }

  lemma EuclidOne(p: nat, a: nat, k: int)
    requires IsPrime(p) && Divides(p, a * k) && !Divides(p, a)
    ensures Divides(p, k)
  {
    PrimeCoprime(p, a);
    CoprimeEuclid(p, a, k);
  }

  lemma CountAgainst(a: nat, p: nat)
    requires OddPrime(p) && Coprime(p, a)
    ensures Par(Againsts(a, p), p / 2) <==> Opposed(a, p)
  {
    hide Par, Coprime, IsPrime;
    var f, k, h := Againsts(a, p), Mates(a, p), p / 2;
    var s := Where(f, h);
    var t := Fixed(k, s);
    ParIsSize(f, h);
    AgainstPairs(a, p);
    PairsCount(k, s);
    FixedRoots(a, p);
    AtMostOne(t);
  }

  lemma AgainstPairs(a: nat, p: nat)
    requires OddPrime(p) && Coprime(p, a)
    ensures Pairs(Mates(a, p), Where(Againsts(a, p), p / 2))
  {
    hide IsPrime, Coprime, Mate, Against;
    forall x | x in Where(Againsts(a, p), p / 2)
      ensures Mate(a, p, x) in Where(Againsts(a, p), p / 2) && Mate(a, p, Mate(a, p, x)) == x
    {
      MateIs(a, p, x);
      MatesPair(a, p, x);
    }
  }

  lemma FixedRoots(a: nat, p: nat)
    requires OddPrime(p) && Coprime(p, a)
    ensures var t := Fixed(Mates(a, p), Where(Againsts(a, p), p / 2));
      && (forall x, y :: x in t && y in t ==> x == y)
      && (t != {} <==> Opposed(a, p))
  {
    hide IsPrime, Coprime, Divides;
    var t := Fixed(Mates(a, p), Where(Againsts(a, p), p / 2));
    forall x | x in t ensures InHalf(p, x) && Meets(p, x, x, a, true) {}
    forall x, y | x in t && y in t ensures x == y { RootsAgree(a, p, x, y); }
    if x :| x in t { assert Meets(p, x, x, a, true); }
    if Opposed(a, p) {
      var x: nat :| Meets(p, x, x, a, true);
      var y := OpposedInHalf(a, p, x);
      MateIs(a, p, y);
      MateUnique(a, p, y, y, Mate(a, p, y), true, Against(a, p, y));
      assert y in t;
    }
  }

  // ---- the sign -----------------------------------------------------------------------------------------------------------

  /** Multiplying by a changes the sign as often as the pairings for 1 and a differ. */
  lemma MinusIsOpposed(a: nat, p: nat)
    requires OddPrime(p) && Coprime(p, a)
    ensures Minus(a, p) <==> Opposed(a, p) != Opposed(1, p)
  {
    hide Par, Coprime, High, Divides, Against;
    var h, i := p / 2, Mates(1, p);
    SmallCoprime(p, 1);
    InverseRearranges(p);
    ParPermute(Highs(a, p), i, h);
    forall x | 1 <= x <= h ensures Againsts(a, p)(x) <==> Againsts(1, p)(x) != Along(Highs(a, p), i)(x) {
      MateIs(a, p, x);
      MateOfOne(p, x);
    }
    ParXor(Againsts(a, p), Againsts(1, p), Along(Highs(a, p), i), h);
    CountAgainst(a, p);
    CountAgainst(1, p);
  }

  lemma MateOfOne(p: nat, x: nat)
    requires InHalf(p, x)
    ensures Mate(1, p, x) == Inv(p, x) && (Against(1, p, x) <==> Meets(p, x, Inv(p, x), 1, true))
  {
    DivModUnique(p, 0, Inv(p, x));
  }

  lemma SelfInverse(k: nat -> nat, h: nat)
    requires Pairs(k, Where(_ => true, h))
    ensures Rearranges(k, h)
  {
    var s := Where(_ => true, h);
    forall x: nat | 1 <= x <= h ensures 1 <= k(x) <= h && k(k(x)) == x { assert x in s; }
  }

  lemma InverseRearranges(p: nat)
    requires OddPrime(p)
    ensures Rearranges(Mates(1, p), p / 2)
  {
    SmallCoprime(p, 1);
    hide Coprime, Mate, IsPrime, Against, Meets;
    forall x | x in Where(_ => true, p / 2)
      ensures Mate(1, p, x) in Where(_ => true, p / 2) && Mate(1, p, Mate(1, p, x)) == x
    {
      MateIs(1, p, x);
      MatesPair(1, p, x);
    }
    SelfInverse(Mates(1, p), p / 2);
  }

  /** The sign modulo an odd prime is negative exactly for the numbers that are no square. */
  lemma MinusMeansNoSquare(a: nat, p: nat)
    requires OddPrime(p) && Coprime(p, a)
    ensures Minus(a, p) <==> !exists w: nat :: Meets(p, w, w, a, false)
  {
    hide Minus, Coprime;
    var b := (p - 1) * a;
    SmallMinusOne(p);
    CoprimeProduct(p, p - 1, a);
    MinusMultiplies(p - 1, a, p);
    MinusIsOpposed(b, p);
    MinusIsOpposed(p - 1, p);
    OppositeSquares(1, p - 1, p);
    OppositeSquares(a, b, p);
    assert Meets(p, 1, 1, 1, false);
  }

  lemma SmallMinusOne(p: nat)
    requires OddPrime(p)
    ensures Coprime(p, p - 1)
  {
    SmallNotDivisible(p, p - 1);
    PrimeCoprime(p, p - 1);
  }

  lemma OppositeSquares(a: nat, b: nat, p: nat)
    requires p > 0 && b == (p - 1) * a
    ensures Opposed(b, p) <==> exists w: nat :: Meets(p, w, w, a, false)
  {
    hide Meets;
    forall w: nat ensures Meets(p, w, w, b, true) <==> Meets(p, w, w, a, false) { Opposite(a, b, p, w); }
  }

  lemma Opposite(a: nat, b: nat, p: nat, w: nat)
    requires p > 0 && b == (p - 1) * a
    ensures Meets(p, w, w, b, true) <==> Meets(p, w, w, a, false)
  {
    hide Divides;
    assert w * w + b == w * w - a + p * a;
    WitnessDivides(p, a);
    if Divides(p, w * w - a) { DividesBoth(p, w * w - a, p * a); }
    if Divides(p, w * w + b) { DividesBoth(p, w * w + b, p * a); }
  }
}
