/** The recurrence of 443.c: two greatest-common-divisor routines, the plain recursion, and the recursion with a memo
    of one entry. */
module MemoGcd {
  import opened NumberTheory
  import opened MachineWords

  // ---- greatest common divisors -----------------------------------------------------------------------------------

  function Min(x: nat, y: nat): nat {
    if x < y then x else y
  }

  method Gcd(x: U64, y: U64) returns (d: U64)
    ensures if x > 0 && y > 0 then IsGcd(d, x, y) else d == 1
  {
    hide Divides, IsGcd, NoneAbove;
    var i: nat := Min(x, y);
    if i > 0 { NoneAboveMin(x, y); }
    while i >= 1
      invariant i <= x && i <= y && (x > 0 && y > 0 ==> NoneAbove(i, x, y) && i > 0)
    {
      if x > 0 && y > 0 { Candidate(i, x, y); }
      if x % i == 0 && y % i == 0 {
        return i;
      }
      i := i - 1;
    }
    return 1;
  }

  ghost predicate NoneAbove(i: nat, x: nat, y: nat) {
    forall e: nat :: Divides(e, x) && Divides(e, y) ==> e <= i
  }

  lemma NoneAboveMin(x: nat, y: nat)
    requires x > 0 && y > 0
    ensures NoneAbove(Min(x, y), x, y)
  {
    forall e: nat | Divides(e, x) && Divides(e, y) ensures e <= Min(x, y) {
      DivisorSmall(e, x);
      DivisorSmall(e, y);
    }
  }

  /** The largest candidate not ruled out either divides both or is ruled out; 1 always divides both. */
  lemma Candidate(i: nat, x: nat, y: nat)
    requires i > 0 && x > 0 && y > 0 && NoneAbove(i, x, y)
    ensures if x % i == 0 && y % i == 0 then IsGcd(i, x, y) else i > 1 && NoneAbove(i - 1, x, y)
  {
  }

  method GcdFast(a: U64, b: U64) returns (d: U64)
    ensures d == GcdOf(a, b)
  {
    var x, y := a, b;
    while y != 0
      invariant GcdOf(x, y) == GcdOf(a, b)
      decreases y
    {
      var t := y;
      y := x % y;
      x := t;
    }
    return x;
  }

  /** The fast routine finds what the search finds, except with an argument zero, where the search gives up with 1. */
  method CompareGcds(x: U64, y: U64) returns (slow: U64, fast: U64)
    ensures slow == fast <==> (x > 0 && y > 0) || x + y == 1
  {
    hide GcdOf, IsGcd;
    slow := Gcd(x, y);
    fast := GcdFast(x, y);
    if x > 0 && y > 0 {
      GcdOfIsGreatest(x, y);
      GcdUnique(slow, fast, x, y);
    } else {
      GcdOfZero(x);
      GcdOfZero(y);
    }
  }

  // ---- the recurrence ---------------------------------------------------------------------------------------------

  /** g(4) = 13, g(n) = g(n - 1) + gcd(n, g(n - 1)), on 64-bit words. */
  function G(n: nat): (v: U64)
    requires n >= 4
  {
    if n == 4 then 13 else Add64(G(n - 1), GcdOf(n, G(n - 1)))
  }

  // ---- its increments are 1 or prime --------------------------------------------------------------------------------

  lemma FirstValues()
    ensures G(5) == 14 && G(6) == 16 && G(7) == 17 && G(8) == 18 && G(9) == 27
  {
    assert GcdOf(5, 13) == GcdOf(13, 5) == GcdOf(5, 3) == GcdOf(3, 2) == GcdOf(2, 1) == GcdOf(1, 0) == 1;
    assert GcdOf(6, 14) == GcdOf(14, 6) == GcdOf(6, 2) == GcdOf(2, 0) == 2;
    assert GcdOf(7, 16) == GcdOf(16, 7) == GcdOf(7, 2) == GcdOf(2, 1) == 1;
    assert GcdOf(8, 17) == GcdOf(17, 8) == GcdOf(8, 1) == GcdOf(1, 0) == 1;
    assert GcdOf(9, 18) == GcdOf(18, 9) == GcdOf(9, 0) == 9;
    hide GcdOf;
    assert G(5) == 14;
    assert G(6) == 16;
    assert G(7) == 17;
    assert G(8) == 18;
  }

  /** The last m up to n with g(m) = 3m: since then every increment has been 1, and no odd number up to 2(n - m) + 1 has a
      factor in common with 2m - 1. */
  ghost predicate Since(n: nat, m: nat) {
    && 9 <= m <= n && G(m) == 3 * m && G(n) == 2 * m + n
    && forall j: nat :: 1 <= j <= n - m ==> NoneCommon(2 * j + 1, 2 * m - 1)
  }

  ghost predicate NoneCommon(x: nat, y: nat) {
    forall e: nat :: Divides(e, x) && Divides(e, y) ==> e <= 1
  }

  /** The common divisors of n + 1 and g(n) are those of 2k + 1 and 2m - 1, k being n + 1 - m. */
  lemma CommonDivisors(m: nat, k: nat, e: nat)
    requires m > 0 && k > 0 && e > 0
    ensures Divides(e, m + k) && Divides(e, 3 * m + k - 1) <==> Divides(e, 2 * k + 1) && Divides(e, 2 * m - 1)
  {
    if Divides(e, m + k) && Divides(e, 3 * m + k - 1) {
      DividesLinear(e, 3 * m + k - 1, m + k, 1, -1);
      DividesLinear(e, m + k, 2 * m - 1, 2, -1);
    }
    if Divides(e, 2 * k + 1) && Divides(e, 2 * m - 1) {
      DividesLinear(e, 2 * k + 1, 2 * m - 1, 1, 1);
      OddHalf(e, m + k, 2 * m - 1);
      DividesLinear(e, m + k, 2 * m - 1, 1, 1);
    }
  }

  /** What divides twice x and an odd number divides x. */
  lemma OddHalf(e: nat, x: nat, y: nat)
    requires e > 0 && Divides(e, 2 * x) && Divides(e, y) && y % 2 == 1
    ensures Divides(e, x)
  {
    var q := y / 2;
    DividesLinear(e, y, 2 * x, x, 0 - q);
    Halved(x, y, q);
  }

  lemma Halved(x: nat, y: nat, q: nat)
    requires y == 2 * q + 1
    ensures x * y + (0 - q) * (2 * x) == x
  {
  }

  lemma OddDivisor(p: nat, y: nat)
    requires p > 0 && Divides(p, y) && y % 2 == 1
    ensures p % 2 == 1
  {
    if p % 2 == 0 {
      assert Divides(2, p);
      DividesTransitive(2, p, y);
    }
  }

  /** The first common factor to appear is a prime. */
  lemma FirstFactor(m: nat, k: nat, d: nat)
    requires m > 0 && k > 0 && d > 1 && Divides(d, 2 * k + 1) && Divides(d, 2 * m - 1)
    requires forall j: nat :: 1 <= j < k ==> NoneCommon(2 * j + 1, 2 * m - 1)
    ensures d == 2 * k + 1 && IsPrime(d)
  {
    var p := SmallPrimeDivisor(d);
    var j, x, y: nat := p / 2, 2 * k + 1, 2 * m - 1;
    assert p >= 2;
    hide IsPrime, Divides;
    DividesTransitive(p, d, x);
    DividesTransitive(p, d, y);
    OddDivisor(p, y);
    DivisorSmall(d, x);
    DivisorSmall(p, d);
    if j < k {
      assert NoneCommon(2 * j + 1, y);
      ItselfDivides(p);
    }
  }

  lemma ItselfDivides(p: nat)
    requires p > 0
    ensures Divides(p, p)
  {
  }

  lemma SameCommonDivisors(n: nat, m: nat)
    requires Since(n, m)
    ensures IsGcd(GcdOf(n + 1, G(n)), 2 * (n + 1 - m) + 1, 2 * m - 1)
  {
    hide GcdOf, G, Divides, NoneCommon;
    var k, d := n + 1 - m, GcdOf(n + 1, G(n));
    GcdOfIsGreatest(n + 1, G(n));
    var x, y: nat := 2 * k + 1, 2 * m - 1;
    forall e: nat | Divides(e, x) && Divides(e, y) ensures e <= d {
      PositiveDivisor(e, x);
      CommonDivisors(m, k, e);
    }
    PositiveDivisor(d, n + 1);
    CommonDivisors(m, k, d);
  }

  lemma PositiveDivisor(e: nat, x: nat)
    requires Divides(e, x)
    ensures e > 0
  {
  }

  /** The next increment is 1, or a prime that brings g back to three times its argument. */
  lemma NextIncrement(n: nat, m: nat)
    requires Since(n, m) && 3 * (n + 1) < TWO_64
    ensures var d := GcdOf(n + 1, G(n));
            G(n + 1) == G(n) + d && if d == 1 then Since(n + 1, m) else IsPrime(d) && Since(n + 1, n + 1)
  {
    var k, d := n + 1 - m, GcdOf(n + 1, G(n));
    SameCommonDivisors(n, m);
    NextValue(n);
    hide GcdOf, IsPrime, Divides, G;
    DivisorSmall(d, 2 * k + 1);
    PositiveDivisor(d, 2 * k + 1);
    if d > 1 {
      FirstFactor(m, k, d);
    } else {
      assert NoneCommon(2 * k + 1, 2 * m - 1);
      hide NoneCommon;
    }
  }

  lemma NextValue(n: nat)
    requires n >= 4
    ensures G(n + 1) == Add64(G(n), GcdOf(n + 1, G(n)))
  {
  }

  lemma {:induction false} SomeSince(n: nat) returns (m: nat)
    requires n >= 9 && 3 * n < TWO_64
    ensures Since(n, m)
  {
    if n == 9 {
      m := 9;
      FirstValues();
    } else {
      m := SomeSince(n - 1);
      NextIncrement(n - 1, m);
      if GcdOf(n, G(n - 1)) != 1 { m := n; }
    }
  }

  /** From g(9) = 27 on, as long as nothing wraps, the recurrence goes up by 1 or by a prime, and after a prime it is three
      times its argument. */
  lemma IncrementsArePrime(n: nat)
    requires n > 9 && 3 * n < TWO_64
    ensures G(n - 1) < G(n) <= 3 * n
    ensures G(n) == G(n - 1) + 1 || (IsPrime(G(n) - G(n - 1)) && G(n) == 3 * n)
  {
    hide G, GcdOf, IsPrime, NoneCommon;
    var m := SomeSince(n - 1);
    NextIncrement(n - 1, m);
  }

  /** Without a memo every level calls the one below twice. */
  method Plain(n: U64) returns (v: U64, ghost calls: nat)
    requires n >= 4
    ensures v == G(n) && calls + 1 == Pow(2, n - 3)
    decreases n
  {
    hide Add64, GcdOf;
    if n == 4 {
      assert Pow(2, 1) == 2;
      return 13, 1;
    }
    var a, na := Plain(n - 1);
    var b, nb := Plain(n - 1);
    var d := GcdFast(n, b);
    return Add64(a, d), 1 + na + nb;
  }

  class Memo {
    var gtabi: U64
    var gtab: U64

    constructor ()
      ensures Valid() && gtabi == 0
    {
      gtabi, gtab := 0, 0;
    }

    /** The entry is empty or right. */
    ghost predicate Valid()
      reads this
    {
      gtabi == 0 || (gtabi > 4 && gtab == G(gtabi))
    }

    /** How far down a call for n has to go. */
    ghost function Base(n: nat): nat
      reads this
    {
      if 4 < gtabi <= n then gtabi else 4
    }

    method GFast(n: U64) returns (v: U64, ghost calls: nat)
      requires n >= 4 && Valid()
      modifies this
      ensures Valid() && v == G(n)
      ensures calls == 2 * (n - old(Base(n))) + 1
      ensures gtabi == if n == 4 then old(gtabi) else n
      decreases n
    {
      hide Add64, GcdOf;
      if n == 4 {
        return 13, 1;
      }
      if gtabi == n {
        return gtab, 1;
      }
      var a, na := GFast(n - 1);
      var b, nb := GFast(n - 1);
      var d := GcdFast(n, b);
      v := Add64(a, d);
      gtabi := n;
      gtab := v;
      calls := 1 + na + nb;
    }

    /** The loop of main: three calls for each further value. */
    method Build(n: U64) returns (ghost calls: nat)
      requires n >= 4 && Valid() && gtabi == 0
      modifies this
      ensures Valid() && calls == 3 * (n - 4) + 1 && (n > 4 ==> gtabi == n && gtab == G(n))
    {
      calls := 0;
      for i := 4 to n + 1
        invariant Valid() && gtabi == if i <= 5 then 0 else i - 1
        invariant calls == if i == 4 then 0 else 3 * (i - 5) + 1
      {
        var v, k := GFast(i);
        calls := calls + k;
      }
    }
  }
}
