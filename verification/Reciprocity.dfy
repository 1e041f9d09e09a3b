/** Quadratic reciprocity for odd moduli, by counting: the sign that multiplication by a number leaves on the lower half
    of the residues, how it multiplies, and how it changes when number and modulus change places. */
module Reciprocity {
  import opened NumberTheory

  // ---- coprime numbers ------------------------------------------------------------------------------------------

  predicate Coprime(n: nat, a: nat) {
    GcdOf(n, a) == 1
  }

  lemma {:induction false} Bezout(x: nat, y: nat) returns (u: int, v: int)
    ensures u * x + v * y == GcdOf(x, y)
    decreases y
  {
    if y == 0 {
      u, v := 1, 0;
    } else {
      var s, t := Bezout(y, x % y);
      u, v := t, s - t * (x / y);
      BezoutStep(s, t, x, y);
    }
  }

  lemma BezoutStep(s: int, t: int, x: nat, y: nat)
    requires y > 0
    ensures t * x + (s - t * (x / y)) * y == s * y + t * (x % y)
  {
    var q, r := x / y, x % y;
    assert x == y * q + r;
    assert t * (y * q + r) == t * (y * q) + t * r;
    assert (s - t * q) * y == s * y - t * q * y;
    Associate(t, q, y);
  }

  lemma CoprimeEuclid(n: nat, a: nat, k: int)
    requires n > 0 && Coprime(n, a) && Divides(n, a * k)
    ensures Divides(n, k)
  {
    var u, v := Bezout(n, a);
    var m := a * k / n;
    assert a * k == n * m;
    Combine(n, a, u, v, k, m);
    WitnessDivides(n, u * k + v * m);
  }

  lemma Combine(n: int, a: int, u: int, v: int, k: int, m: int)
    requires u * n + v * a == 1 && a * k == n * m
    ensures k == n * (u * k + v * m)
  {
    assert (u * n + v * a) * k == u * n * k + v * a * k;
    Associate(v, a, k);
    Associate(v, n, m);
    assert n * (u * k + v * m) == u * n * k + v * n * m;
  }

  // ---- parities ------------------------------------------------------------------------------------------------------

  /** Whether f holds for an odd number of the numbers 1 to h. */
  function Par(f: nat -> bool, h: nat): bool {
    if h == 0 then false else Par(f, h - 1) != f(h)
  }

  lemma {:induction false} ParXor(e: nat -> bool, f: nat -> bool, g: nat -> bool, h: nat)
    requires forall k :: 1 <= k <= h ==> (e(k) <==> f(k) != g(k))
    ensures Par(e, h) == (Par(f, h) != Par(g, h))
  {
    if h > 0 { ParXor(e, f, g, h - 1); }
  }

  lemma {:induction false} ParSame(f: nat -> bool, g: nat -> bool, h: nat)
    requires forall k :: 1 <= k <= h ==> f(k) == g(k)
    ensures Par(f, h) == Par(g, h)
  {
    if h > 0 { ParSame(f, g, h - 1); }
  }

  function Where(f: nat -> bool, h: nat): set<nat> {
    set k: nat | 1 <= k <= h && f(k)
  }

  lemma {:induction false} ParIsSize(f: nat -> bool, h: nat)
    ensures Par(f, h) <==> |Where(f, h)| % 2 == 1
  {
    if h > 0 {
      ParIsSize(f, h - 1);
      if f(h) {
        assert Where(f, h) == Where(f, h - 1) + {h};
      } else {
        assert Where(f, h) == Where(f, h - 1);
      }
    } else {
      assert Where(f, h) == {};
    }
  }

  lemma {:induction false} IntoSize(s: nat -> nat, x: set<nat>, y: set<nat>)
    requires forall k :: k in x ==> s(k) in y
    requires forall j, k :: j in x && k in x && s(j) == s(k) ==> j == k
    ensures |x| <= |y|
    decreases x
  {
    if x != {} {
      var k :| k in x;
      IntoSize(s, x - {k}, y - {s(k)});
    }
  }

  lemma {:induction false} NumbersTo(h: nat)
    ensures |Where(_ => true, h)| == h
  {
    if h > 0 {
      NumbersTo(h - 1);
      assert Where(_ => true, h) == Where(_ => true, h - 1) + {h};
    } else {
      assert Where(_ => true, h) == {};
    }
  }

  function Along(f: nat -> bool, s: nat -> nat): nat -> bool {
    (k: nat) => f(s(k))
  }

  function Not(f: nat -> bool): nat -> bool {
    (k: nat) => !f(k)
  }

  lemma Halves(f: nat -> bool, h: nat)
    ensures |Where(f, h)| + |Where(Not(f), h)| == h
  {
    NumbersTo(h);
    assert Where(f, h) + Where(Not(f), h) == Where(_ => true, h);
  }

  ghost predicate Rearranges(s: nat -> nat, h: nat) {
    && (forall k: nat :: 1 <= k <= h ==> 1 <= s(k) <= h)
    && (forall j: nat, k: nat :: 1 <= j <= h && 1 <= k <= h && s(j) == s(k) ==> j == k)
  }

  /** Rearranging 1 to h does not change a parity. */
  lemma ParPermute(f: nat -> bool, s: nat -> nat, h: nat)
    requires Rearranges(s, h)
    ensures Par(Along(f, s), h) == Par(f, h)
  {
    hide Par, Rearranges, Where;
    var g := Along(f, s);
    ParIsSize(f, h);
    ParIsSize(g, h);
    AlongSize(f, s, h);
    AlongSize(Not(f), s, h);
    NotAlong(f, s, h);
    Halves(f, h);
    Halves(g, h);
  }

  lemma AlongSize(f: nat -> bool, s: nat -> nat, h: nat)
    requires Rearranges(s, h)
    ensures |Where(Along(f, s), h)| <= |Where(f, h)|
  {
    IntoSize(s, Where(Along(f, s), h), Where(f, h));
  }

  lemma NotAlong(f: nat -> bool, s: nat -> nat, h: nat)
    ensures Where(Not(Along(f, s)), h) == Where(Along(Not(f), s), h)
  {
  }

  // ---- the lower half of the residues ----------------------------------------------------------------------------------

  predicate Odd(n: nat) {
    n % 2 == 1
  }

  /** The remainder of a * k lies in the upper half. */
  predicate High(a: nat, n: nat, k: nat)
    requires n > 0
  {
    a * k % n > n / 2
  }

  /** That remainder, or its negative, whichever lies in the lower half. */
  function Lower(a: nat, n: nat, k: nat): nat
    requires n > 0
  {
    if High(a, n, k) then n - a * k % n else a * k % n
  }

  function Highs(a: nat, n: nat): nat -> bool
    requires n > 0
  {
    (k: nat) => High(a, n, k)
  }

  function Lowers(a: nat, n: nat): nat -> nat
    requires n > 0
  {
    (k: nat) => Lower(a, n, k)
  }

  /** Whether the sign is negative: an odd number of the products a, 2a, 3a, ... lie in the upper half. */
  predicate Minus(a: nat, n: nat)
    requires n > 0
  {
    Par(Highs(a, n), n / 2)
  }

  lemma NonZero(a: nat, n: nat, k: int)
    requires n > 0 && Coprime(n, a) && 0 - n < k < n && k != 0
    ensures !Divides(n, a * k)
  {
    if Divides(n, a * k) {
      CoprimeEuclid(n, a, k);
      TooSmall(n, k);
    }
  }

  lemma TooSmall(n: nat, k: int)
    requires n > 0 && 0 - n < k < n && Divides(n, k)
    ensures k == 0
  {
    var q := k / n;
    assert k == n * q;
    if q >= 1 { MulMonotone(n, 1, n, q); }
    if q <= -1 { MulMonotone(n, 1, n, -q); }
  }

  lemma LowerRange(a: nat, n: nat, k: nat)
    requires Odd(n) && Coprime(n, a) && 1 <= k <= n / 2
    ensures 1 <= Lower(a, n, k) <= n / 2
  {
    NonZero(a, n, k);
  }

  /** Lower is a * k or its negative, modulo n. */
  lemma LowerIs(a: nat, n: nat, k: nat)
    requires n > 0
    ensures Divides(n, if High(a, n, k) then a * k + Lower(a, n, k) else a * k - Lower(a, n, k))
  {
    var q, r := a * k / n, a * k % n;
    assert a * k == n * q + r;
    if High(a, n, k) {
      assert a * k + (n - r) == n * (q + 1);
      MulMod(n, q + 1);
    } else {
      MulMod(n, q);
    }
  }

  lemma LowerInjective(a: nat, n: nat, j: nat, k: nat)
    requires Odd(n) && Coprime(n, a) && 1 <= j <= n / 2 && 1 <= k <= n / 2 && Lower(a, n, j) == Lower(a, n, k)
    ensures j == k
  {
    LowerIs(a, n, j);
    LowerIs(a, n, k);
    hide Divides, High, Lower, Coprime;
    var x, y, f := a * j, a * k, Lower(a, n, j);
    if High(a, n, j) == High(a, n, k) {
      DividesBoth(n, if High(a, n, j) then x + f else x - f, if High(a, n, j) then y + f else y - f);
      assert a * (j - k) == x - y;
      if j != k { NonZero(a, n, j - k); }
    } else {
      DividesBoth(n, if High(a, n, j) then x + f else x - f, if High(a, n, j) then y - f else y + f);
      assert a * (j + k) == x + y;
      NonZero(a, n, j + k);
    }
  }

  lemma DividesBoth(n: int, x: int, y: int)
    requires n > 0 && Divides(n, x) && Divides(n, y)
    ensures Divides(n, x + y) && Divides(n, x - y)
  {
    var p, q := x / n, y / n;
    assert x == n * p && y == n * q;
    assert x + y == n * (p + q) && x - y == n * (p - q);
    MulMod(n, p + q);
    MulMod(n, p - q);
  }

  lemma LowersRearrange(a: nat, n: nat)
    requires Odd(n) && Coprime(n, a)
    ensures Rearranges(Lowers(a, n), n / 2)
  {
    hide Lower, Coprime;
    forall k: nat | 1 <= k <= n / 2 ensures 1 <= Lower(a, n, k) <= n / 2 { LowerRange(a, n, k); }
    forall j: nat, k: nat | 1 <= j <= n / 2 && 1 <= k <= n / 2 && Lower(a, n, j) == Lower(a, n, k) ensures j == k {
      LowerInjective(a, n, j, k);
    }
  }

  // ---- products ------------------------------------------------------------------------------------------------------------

  /** Multiplying by a and then by b crosses to the upper half as often as the two together. */
  lemma HighProduct(a: nat, b: nat, n: nat, k: nat)
    requires Odd(n) && Coprime(n, a) && Coprime(n, b) && 1 <= k <= n / 2
    ensures High(a * b, n, k) <==> High(a, n, k) != High(b, n, Lower(a, n, k))
  {
    hide Coprime, Lower, High, Divides;
    var x, f := a * k, Lower(a, n, k);
    LowerRange(a, n, k);
    LowerIs(a, n, k);
    NonZero(b, n, f);
    assert (a * b) * k == b * x by { Rearranged(a, b, k); }
    if High(a, n, k) {
      TimesDivides(n, b, x + f);
      assert b * (x + f) == b * x + b * f;
      Negated(n, b * x, b * f);
    } else {
      TimesDivides(n, b, x - f);
      assert b * (x - f) == b * x - b * f;
      CongruentIff(n, b * x, b * f);
    }
    HighIs(a * b, n, k, b * x % n);
    HighIs(b, n, f, b * f % n);
  }

  lemma HighIs(a: nat, n: nat, k: nat, r: nat)
    requires n > 0 && a * k % n == r
    ensures High(a, n, k) <==> r > n / 2
  {
  }

  lemma Rearranged(a: nat, b: nat, k: nat)
    ensures (a * b) * k == b * (a * k)
  {
    Associate(b, a, k);
  }

  lemma TimesDivides(n: int, b: int, x: int)
    requires n > 0 && Divides(n, x)
    ensures Divides(n, b * x)
  {
    var q := x / n;
    assert x == n * q;
    Associate(b, n, q);
    Associate(n, b, q);
    MulMod(n, b * q);
  }

  /** Opposite remainders lie in opposite halves. */
  lemma Negated(n: nat, x: nat, y: nat)
    requires Odd(n) && Divides(n, x + y) && !Divides(n, y)
    ensures x % n > n / 2 <==> y % n <= n / 2
  {
    var p, q, r := x / n, y / n, y % n;
    var m := (x + y) / n;
    assert x + y == n * m && y == n * q + r;
    assert x == n * (m - q - 1) + (n - r);
    DivModUnique(n, m - q - 1, n - r);
  }

  lemma MinusMultiplies(a: nat, b: nat, n: nat)
    requires Odd(n) && Coprime(n, a) && Coprime(n, b)
    ensures Minus(a * b, n) <==> Minus(a, n) != Minus(b, n)
  {
    hide Coprime, Lower, High, Par;
    var h := n / 2;
    LowersRearrange(a, n);
    ParPermute(Highs(b, n), Lowers(a, n), h);
    forall k | 1 <= k <= h
      ensures Highs(a * b, n)(k) <==> Highs(a, n)(k) != Along(Highs(b, n), Lowers(a, n))(k)
    {
      HighProduct(a, b, n, k);
    }
    ParXor(Highs(a * b, n), Highs(a, n), Along(Highs(b, n), Lowers(a, n)), h);
  }

  lemma MinusPeriodic(a: nat, n: nat)
    requires n > 0
    ensures Minus(a % n, n) <==> Minus(a, n)
  {
    hide Par;
    forall k | 1 <= k <= n / 2 ensures Highs(a % n, n)(k) == Highs(a, n)(k) {
      ModMul(n, a % n, k, a, k);
    }
    ParSame(Highs(a % n, n), Highs(a, n), n / 2);
  }

  // ---- two -----------------------------------------------------------------------------------------------------------------

  function Above(m: nat): nat -> bool {
    (k: nat) => k > m
  }

  lemma {:induction false} ParAbove(m: nat, j: nat)
    ensures Par(Above(m), j) <==> j > m && (j - m) % 2 == 1
  {
    if j > 0 { ParAbove(m, j - 1); }
  }

  lemma MinusTwo(n: nat)
    requires Odd(n)
    ensures Minus(2, n) <==> n % 8 == 3 || n % 8 == 5
  {
    hide Par, High;
    var h := n / 2;
    forall k | 1 <= k <= h ensures Highs(2, n)(k) == Above(h / 2)(k) { TwiceHigh(n, k); }
    HalfOfHalf(n);
    hide Odd;
    ParSame(Highs(2, n), Above(h / 2), h);
    ParAbove(h / 2, h);
  }

  lemma TwiceHigh(n: nat, k: nat)
    requires Odd(n) && 1 <= k <= n / 2
    ensures High(2, n, k) <==> k > n / 2 / 2
  {
    assert 2 * k < n;
    DivModUnique(n, 0, 2 * k);
  }

  lemma HalfOfHalf(n: nat)
    requires Odd(n)
    ensures var h := n / 2; (h > h / 2 && (h - h / 2) % 2 == 1) <==> n % 8 == 3 || n % 8 == 5
  {
    var q, r := n / 8, n % 8;
    DivModUnique(2, 4 * q + r / 2, r % 2);
    DivModUnique(2, 2 * q + r / 4, r / 2 % 2);
    DivModUnique(2, q, r / 2 - r / 4 - if r == 7 then 2 else 0);
    Quarters(q, r);
  }

  lemma Quarters(q: nat, r: nat)
    requires r < 8 && r % 2 == 1
    ensures var d := 4 * q + r / 2 - (2 * q + r / 4); d == 2 * q + (if r == 1 then 0 else if r == 7 then 2 else 1)
  {
  }

  // ---- counting below a line ---------------------------------------------------------------------------------------------

  function OddQuotients(a: nat, n: nat): nat -> bool
    requires n > 0
  {
    (k: nat) => Odd(a * k / n)
  }

  function Odds(): nat -> bool {
    (k: nat) => Odd(k)
  }

  lemma QuotientParity(a: nat, n: nat, k: nat)
    requires Odd(n) && Odd(a)
    ensures Odd(k) <==> (Odd(a * k / n) != (Odd(Lower(a, n, k)) != High(a, n, k)))
  {
    hide High;
    var q, r := a * k / n, a * k % n;
    assert a * k == n * q + r;
    OddTimes(a, k);
    OddTimes(n, q);
    ParityOfSum(n * q, r);
    if High(a, n, k) { ParityOfSum(r, n - r); }
  }

  lemma OddTimes(a: nat, k: nat)
    requires Odd(a)
    ensures Odd(a * k) <==> Odd(k)
  {
    ModMul(2, a, k, 1, k);
  }

  lemma ParityOfSum(x: nat, y: nat)
    ensures Odd(x + y) <==> Odd(x) != Odd(y)
  {
  }

  /** For odd a the sign is the parity of the sum of the quotients. */
  lemma MinusIsQuotients(a: nat, n: nat)
    requires Odd(n) && Odd(a) && Coprime(n, a)
    ensures Minus(a, n) <==> Par(OddQuotients(a, n), n / 2)
  {
    assert n > 0;
    hide Par, Coprime, Lower, High, Odd;
    var h := n / 2;
    LowersRearrange(a, n);
    ParPermute(Odds(), Lowers(a, n), h);
    var lows := Along(Odds(), Lowers(a, n));
    var rest := (k: nat) => lows(k) != High(a, n, k);
    ParXor(rest, lows, Highs(a, n), h);
    forall k | 1 <= k <= h ensures Odds()(k) <==> OddQuotients(a, n)(k) != rest(k) { QuotientParity(a, n, k); }
    ParXor(Odds(), OddQuotients(a, n), rest, h);
  }

  /** How many of the rows 1 to top lie below the line at column x. */
  function Under(a: nat, n: nat, x: nat, top: nat): nat {
    if top == 0 then 0 else Under(a, n, x, top - 1) + if n * top < a * x then 1 else 0
  }

  /** How many points of a grid of the given width and height lie below the line. */
  function Grid(a: nat, n: nat, width: nat, top: nat): nat {
    if width == 0 then 0 else Grid(a, n, width - 1, top) + Under(a, n, width, top)
  }

  ghost predicate OffTheLine(a: nat, n: nat, width: nat, top: nat) {
    forall x: nat, y: nat :: 1 <= x <= width && 1 <= y <= top ==> a * x != n * y
  }

  /** One more column: its points below the line, and those above, which the mirror image gains. */
  lemma {:induction false} GridColumn(a: nat, n: nat, x: nat, top: nat)
    requires x > 0 && forall y: nat :: 1 <= y <= top ==> a * x != n * y
    ensures Grid(n, a, top, x) + Under(a, n, x, top) == Grid(n, a, top, x - 1) + top
  {
    if top > 0 {
      GridColumn(a, n, x, top - 1);
      assert a * x != n * top;
    }
  }

  lemma {:induction false} NoRows(a: nat, n: nat, top: nat)
    ensures Grid(n, a, top, 0) == 0
  {
    if top > 0 { NoRows(a, n, top - 1); }
  }

  /** Every point of the grid lies on one side. */
  lemma {:induction false} GridSplit(a: nat, n: nat, width: nat, top: nat)
    requires OffTheLine(a, n, width, top)
    ensures Grid(a, n, width, top) + Grid(n, a, top, width) == width * top
  {
    if width == 0 {
      NoRows(a, n, top);
    } else {
      GridSplit(a, n, width - 1, top);
      GridColumn(a, n, width, top);
      assert width * top == (width - 1) * top + top;
    }
  }

  lemma {:induction false} UnderCounts(a: nat, n: nat, x: nat, top: nat, q: nat)
    requires forall y: nat :: 1 <= y <= top ==> (n * y < a * x <==> y <= q)
    ensures Under(a, n, x, top) == if q < top then q else top
  {
    if top > 0 {
      UnderCounts(a, n, x, top - 1, q);
      assert n * top < a * x <==> top <= q;
    }
  }

  lemma UnderIsQuotient(a: nat, n: nat, x: nat, top: nat)
    requires n > 0 && forall y: nat :: 1 <= y <= top ==> a * x != n * y
    ensures Under(a, n, x, top) == if a * x / n < top then a * x / n else top
  {
    hide Under;
    forall y: nat | 1 <= y <= top ensures n * y < a * x <==> y <= a * x / n { BelowQuotient(n, a * x, y); }
    UnderCounts(a, n, x, top, a * x / n);
  }

  lemma BelowQuotient(n: nat, z: nat, y: nat)
    requires n > 0
    ensures n * y <= z <==> y <= z / n
  {
    var q := z / n;
    assert z == n * q + z % n;
    if y <= q { MulMonotone(n, y, n, q); } else { MulMonotone(n, q + 1, n, y); assert n * (q + 1) == n * q + n; }
  }

  lemma QuotientSmall(a: nat, n: nat, x: nat)
    requires Odd(a) && Odd(n) && x <= n / 2
    ensures a * x / n <= a / 2
  {
    var h := a / 2;
    MulMonotone(a, x, a, n / 2);
    HalfProducts(a, n);
    BelowQuotient(n, a * x, h + 1);
  }

  lemma HalfProducts(a: nat, n: nat)
    requires Odd(a) && Odd(n)
    ensures a * (n / 2) < n * (a / 2 + 1)
  {
    var g, h := a / 2, n / 2;
    assert a == 2 * g + 1 && n == 2 * h + 1;
    assert (2 * g + 1) * h == 2 * (g * h) + h;
    assert (2 * h + 1) * (g + 1) == 2 * (g * h) + 2 * h + g + 1;
  }

  lemma {:induction false} QuotientsAreGrid(a: nat, n: nat, width: nat)
    requires Odd(a) && Odd(n) && width <= n / 2 && OffTheLine(a, n, width, a / 2)
    ensures Par(OddQuotients(a, n), width) <==> Odd(Grid(a, n, width, a / 2))
  {
    if width > 0 {
      QuotientsAreGrid(a, n, width - 1);
      UnderIsQuotient(a, n, width, a / 2);
      QuotientSmall(a, n, width);
      ParityOfSum(Grid(a, n, width - 1, a / 2), Under(a, n, width, a / 2));
    }
  }

  lemma CoprimeOffTheLine(a: nat, n: nat)
    requires n > 0 && Coprime(n, a)
    ensures OffTheLine(a, n, n / 2, a / 2)
  {
    hide Coprime;
    forall x: nat, y: nat | 1 <= x <= n / 2 && 1 <= y <= a / 2 ensures a * x != n * y {
      NonZero(a, n, x);
      MulMod(n, y);
    }
  }

  lemma CoprimeSymmetric(a: nat, n: nat)
    requires Coprime(n, a) && a > 0 && n > 0
    ensures Coprime(a, n)
  {
    GcdOfIsGreatest(n, a);
    GcdOfIsGreatest(a, n);
    GcdUnique(GcdOf(a, n), GcdOf(n, a), a, n);
  }

  /** The law of quadratic reciprocity, for any two odd numbers without a common factor. */
  lemma MinusReciprocal(a: nat, n: nat)
    requires Odd(a) && Odd(n) && Coprime(n, a)
    ensures (Minus(a, n) != Minus(n, a)) <==> a % 4 == 3 && n % 4 == 3
  {
    hide Par, Coprime, Grid;
    CoprimeSymmetric(a, n);
    MinusIsQuotients(a, n);
    MinusIsQuotients(n, a);
    CoprimeOffTheLine(a, n);
    CoprimeOffTheLine(n, a);
    QuotientsAreGrid(a, n, n / 2);
    QuotientsAreGrid(n, a, a / 2);
    GridSplit(a, n, n / 2, a / 2);
    ParityOfSum(Grid(a, n, n / 2, a / 2), Grid(n, a, a / 2, n / 2));
    OddHalves(a, n);
  }

  lemma OddHalves(a: nat, n: nat)
    requires Odd(a) && Odd(n)
    ensures Odd(n / 2 * (a / 2)) <==> a % 4 == 3 && n % 4 == 3
  {
    ProductParity(n / 2, a / 2);
    HalfParity(a);
    HalfParity(n);
  }

  lemma HalfParity(n: nat)
    requires Odd(n)
    ensures Odd(n / 2) <==> n % 4 == 3
  {
  }

  lemma ProductParity(x: nat, y: nat)
    ensures Odd(x * y) <==> Odd(x) && Odd(y)
  {
    ModMul(2, x, y, x % 2, y % 2);
  }

  lemma GcdPositive(n: nat, v: nat)
    requires n > 0
    ensures GcdOf(n, v) > 0
  {
    GcdOfIsGreatest(n, v);
  }

  /** A product has no factor in common with n exactly if its factors have none. */
  lemma CoprimeProduct(n: nat, a: nat, b: nat)
    requires n > 0
    ensures Coprime(n, a * b) <==> Coprime(n, a) && Coprime(n, b)
  {
    hide Divides, GcdOf;
    var d, e, f := GcdOf(n, a), GcdOf(n, b), GcdOf(n, a * b);
    GcdOfIsGreatest(n, a);
    GcdOfIsGreatest(n, b);
    GcdOfIsGreatest(n, a * b);
    GcdPositive(n, a);
    GcdPositive(n, b);
    GcdPositive(n, a * b);
    FactorDivides(d, a, b);
    FactorDivides(e, b, a);
    if Coprime(n, a) && Coprime(n, b) {
      DividesLeft(f, n, a, b);
    }
  }

  lemma FactorDivides(d: nat, a: nat, b: nat)
    requires d > 0 && Divides(d, a)
    ensures Divides(d, a * b) && Divides(d, b * a)
  {
    TimesDivides(d, b, a);
  }

  /** What divides n and a * b divides 1, if a and b are coprime to n. */
  lemma DividesLeft(f: nat, n: nat, a: nat, b: nat)
    requires f > 0 && Divides(f, n) && Divides(f, a * b) && Coprime(n, a) && Coprime(n, b)
    ensures f == 1
  {
    var u, v := Bezout(n, a);
    var s, t := Bezout(n, b);
    OneIs(n, a, b, u, v, s, t);
    TimesDivides(f, u * s * n + u * t * b + v * a * s, n);
    TimesDivides(f, v * t, a * b);
    DividesBoth(f, (u * s * n + u * t * b + v * a * s) * n, (v * t) * (a * b));
  }

  lemma OneIs(n: int, a: int, b: int, u: int, v: int, s: int, t: int)
    requires u * n + v * a == 1 && s * n + t * b == 1
    ensures (u * s * n + u * t * b + v * a * s) * n + (v * t) * (a * b) == 1
  {
    assert (u * n + v * a) * (s * n + t * b) == 1;
    assert (u * n) * (s * n + t * b) == (u * s * n + u * t * b) * n;
    assert (v * a) * (s * n + t * b) == (v * a * s) * n + (v * t) * (a * b);
  }

  /** Reducing a modulo n keeps its common factors with n. */
  lemma CoprimePeriodic(a: nat, n: nat)
    requires n > 0
    ensures GcdOf(n, a % n) == GcdOf(n, a)
  {
    GcdOfIsGreatest(a, n);
    GcdOfIsGreatest(n, a);
    GcdUnique(GcdOf(a, n), GcdOf(n, a), a, n);
  }
}
