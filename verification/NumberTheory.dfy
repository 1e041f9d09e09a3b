/** Elementary number theory: Euclid's lemma, greatest common divisors, Fermat's little
    theorem and the square roots of 1 modulo a prime. */
module NumberTheory {

  const TWO_32: nat := 0x1_0000_0000
  const TWO_63: nat := 0x8000_0000_0000_0000
  const TWO_64: nat := 0x1_0000_0000_0000_0000

  predicate Divides(d: int, n: int) {
    d != 0 && n % d == 0
  }

  ghost predicate IsPrime(n: int) {
    2 <= n && forall d :: 2 <= d < n ==> !Divides(d, n)
  }

  function Pow(b: int, e: nat): (r: int)
    ensures b >= 0 ==> r >= 0
  {
    if e == 0 then 1 else b * Pow(b, e - 1)
  }

  // ---- divisibility ------------------------------------------------------------------------

  lemma DividesWitness(d: int, n: int)
    requires d > 0 && Divides(d, n)
    ensures n == d * (n / d)
  {
  }

  lemma WitnessDivides(d: int, q: int)
    requires d > 0
    ensures Divides(d, d * q) && Divides(d, q * d) && (d * q) / d == q
  {
    MulMod(d, q);
  }

  /** The quotient and remainder of a division are unique. */
  lemma DivModUnique(d: int, q: int, r: int)
    requires 0 <= r < d
    ensures (d * q + r) / d == q && (d * q + r) % d == r
  {
    var n := d * q + r;
    var q', r' := n / d, n % d;
    assert n == d * q' + r';
    assert d * (q - q') == r' - r;
    assert q - q' >= 1 ==> d * (q - q') >= d;
    assert q - q' <= -1 ==> d * (q - q') <= -d;
  }

  lemma MulMod(d: int, q: int)
    requires d > 0
    ensures (d * q) % d == 0 && (d * q) / d == q
  {
    DivModUnique(d, q, 0);
  }

  lemma DividesLinear(d: int, a: int, b: int, s: int, t: int)
    requires d > 0 && Divides(d, a) && Divides(d, b)
    ensures Divides(d, s * a + t * b)
  {
    DividesWitness(d, a);
    DividesWitness(d, b);
    var p, q := a / d, b / d;
    assert s * (d * p) + t * (d * q) == d * (s * p + t * q);
    WitnessDivides(d, s * p + t * q);
  }

  lemma DividesTransitive(d: int, m: int, n: int)
    requires d > 0 && m > 0 && Divides(d, m) && Divides(m, n)
    ensures Divides(d, n)
  {
    DividesWitness(m, n);
    DividesLinear(d, m, m, n / m, 0);
    assert (n / m) * m + 0 * m == n;
  }

  /** Equal residues are the same thing as a difference the modulus divides. */
  lemma CongruentIff(m: int, a: int, b: int)
    requires m > 0
    ensures a % m == b % m <==> Divides(m, a - b)
  {
    var q := a / m - b / m;
    var r := a % m - b % m;
    assert a - b == m * q + r;
    if r >= 0 {
      DivModUnique(m, q, r);
    } else {
      assert m * q + r == m * (q - 1) + (r + m);
      DivModUnique(m, q - 1, r + m);
    }
  }

  lemma ModOfMod(m: int, a: int)
    requires m > 0
    ensures (a % m) % m == a % m
  {
  }

  lemma ReduceInside(m: int, t: int, p: int)
    requires m > 0
    ensures (t + p % m) % m == (t + p) % m
  {
    var q := p / m;
    assert p == m * q + p % m;
    CongruentIff(m, t + p, t + p % m);
    MulMod(m, q);
  }

  lemma ModMul(m: int, a: int, b: int, a': int, b': int)
    requires m > 0 && a % m == a' % m && b % m == b' % m
    ensures (a * b) % m == (a' * b') % m
  {
    CongruentIff(m, a, a');
    CongruentIff(m, b, b');
    DividesLinear(m, a - a', b - b', b, a');
    assert b * (a - a') + a' * (b - b') == a * b - a' * b';
    CongruentIff(m, a * b, a' * b');
  }

  // ---- powers ------------------------------------------------------------------------------

  lemma {:induction false} PowAdd(b: int, m: nat, n: nat)
    ensures Pow(b, m + n) == Pow(b, m) * Pow(b, n)
  {
    if m > 0 {
      PowAdd(b, m - 1, n);
      Associate(b, Pow(b, m - 1), Pow(b, n));
    }
  }

  lemma Associate(a: int, b: int, c: int)
    ensures a * (b * c) == (a * b) * c
  {
  }

  lemma {:induction false} PowSquare(b: int, k: nat)
    ensures Pow(b * b, k) == Pow(b, 2 * k)
  {
    if k > 0 {
      PowSquare(b, k - 1);
      Associate(b, b, Pow(b, 2 * (k - 1)));
    }
  }

  lemma {:induction false} PowCongruent(m: int, a: int, b: int, e: nat)
    requires m > 0 && a % m == b % m
    ensures Pow(a, e) % m == Pow(b, e) % m
  {
    if e > 0 {
      PowCongruent(m, a, b, e - 1);
      ModMul(m, a, Pow(a, e - 1), b, Pow(b, e - 1));
    }
  }

  // ---- primes ------------------------------------------------------------------------------

  lemma ProductBounds(d: int, e: int, n: int)
    requires 2 <= d < n && n == d * e
    ensures 2 <= e < n
  {
    assert e <= 1 ==> d * e <= d;
    assert e >= n ==> d * e >= 2 * n;
  }

  lemma MulMonotone(a: int, b: int, c: int, d: int)
    requires 0 <= a <= c && 0 <= b <= d
    ensures 0 <= a * b <= c * d
  {
    assert c * d - a * b == (c - a) * d + a * (d - b);
    assert (c - a) * d >= 0 && a * (d - b) >= 0 && a * b >= 0;
  }

  lemma SquareMonotone(a: int, b: int)
    requires 0 <= a <= b
    ensures a * a <= a * b <= b * b
  {
    MulMonotone(a, a, a, b);
    MulMonotone(a, b, b, b);
  }

  lemma CompositeFactor(n: int) returns (s: int)
    requires n >= 2 && !IsPrime(n)
    ensures 2 <= s < n && Divides(s, n) && s * s <= n
  {
    var d :| 2 <= d < n && Divides(d, n);
    var e := n / d;
    DividesWitness(d, n);
    ProductBounds(d, e, n);
    WitnessDivides(e, d);
    if d <= e {
      s := d;
      SquareMonotone(d, e);
    } else {
      s := e;
      SquareMonotone(e, d);
    }
  }

  /** Every number from 2 on has a prime divisor, and a composite one has a prime divisor not above its square root. */
  lemma {:induction false} SmallPrimeDivisor(n: int) returns (p: int)
    requires n >= 2
    ensures IsPrime(p) && Divides(p, n) && p <= n
    ensures !IsPrime(n) ==> p * p <= n
    decreases n
  {
    if IsPrime(n) {
      p := n;
    } else {
      var s := CompositeFactor(n);
      p := SmallPrimeDivisor(s);
      DividesTransitive(p, s, n);
      SquareMonotone(p, s);
    }
  }

  /** Adding multiples of p keeps divisibility by p. */
  lemma MulSub(p: int, a: int, b: int, s: int, t: int)
    requires p > 0 && Divides(p, a * b)
    ensures Divides(p, (s * a + t * p) * b)
  {
    WitnessDivides(p, b);
    DividesLinear(p, a * b, p * b, s, t);
    assert s * (a * b) + t * (p * b) == (s * a + t * p) * b;
  }

  /** Subtracting p from a factor, or replacing a factor by the remainder it leaves of p, keeps p a divisor of the product. */
  lemma EuclidSubtract(p: int, a: nat, b: int)
    requires p > 0 && Divides(p, a * b)
    ensures Divides(p, (a - p) * b)
    ensures Divides(p, a - p) ==> Divides(p, a)
  {
    MulSub(p, a, b, 1, -1);
    CongruentIff(p, a, a - p);
    assert Divides(p, p);
  }

  lemma EuclidRemainder(p: int, a: nat, b: int)
    requires p > 0 && 1 < a < p && Divides(p, a * b)
    ensures Divides(p, (p % a) * b)
  {
    MulSub(p, a, b, -(p / a), 1);
    assert p - (p / a) * a == p % a;
  }

  /** Euclid's lemma. */
  lemma {:induction false} Euclid(p: int, a: nat, b: int)
    requires IsPrime(p) && Divides(p, a * b)
    ensures Divides(p, a) || Divides(p, b)
    decreases a
  {
    if a >= p {
      EuclidSubtract(p, a, b);
      Euclid(p, a - p, b);
    } else if a > 1 {
      EuclidRemainder(p, a, b);
      assert !Divides(a, p);
      var s := p % a;
      assert 0 < s < a;
      Euclid(p, s, b);
      assert !Divides(p, s);
    }
  }

  lemma EuclidNot(p: int, a: nat, b: int)
    requires IsPrime(p) && !Divides(p, a) && !Divides(p, b)
    ensures !Divides(p, a * b)
  {
    if Divides(p, a * b) {
      Euclid(p, a, b);
    }
  }

  /** Modulo a prime, 1 has no square roots but 1 and -1. */
  lemma RootsOfOne(p: int, x: nat)
    requires IsPrime(p) && x < p && (x * x) % p == 1
    ensures x == 1 || x == p - 1
  {
    SquareLessOne(p, x);
    if 1 < x < p - 1 {
      Euclid(p, x - 1, x + 1);
    }
  }

  lemma SquareLessOne(p: int, x: nat)
    requires p > 1 && (x * x) % p == 1
    ensures Divides(p, (x - 1) * (x + 1)) && x != 0
  {
    assert (x - 1) * (x + 1) == x * x - 1;
    CongruentIff(p, x * x, 1);
  }

  // ---- Fermat's little theorem -------------------------------------------------------------

  ghost function Product(s: set<nat>): nat {
    if s == {} then 1 else var x :| x in s; x * Product(s - {x})
  }

  /** The order in which a product picks its factors does not matter. */
  lemma {:induction false} ProductRemove(s: set<nat>, x: nat)
    requires x in s
    ensures Product(s) == x * Product(s - {x})
    decreases |s|
  {
    var y :| y in s && Product(s) == y * Product(s - {y});
    if y != x {
      ProductRemove(s - {y}, x);
      ProductRemove(s - {x}, y);
      assert s - {y} - {x} == s - {x} - {y};
      Exchange(x, y, Product(s - {x} - {y}));
    }
  }

  lemma SmallNotDivisible(p: int, x: int)
    requires 0 < x < p
    ensures !Divides(p, x)
  {
  }

  lemma Exchange(x: int, y: int, r: int)
    ensures y * (x * r) == x * (y * r)
  {
  }

  lemma {:induction false} ProductNotDivisible(p: int, s: set<nat>)
    requires IsPrime(p) && forall x :: x in s ==> 0 < x < p
    ensures !Divides(p, Product(s))
    decreases |s|
  {
    if s == {} {
      SmallNotDivisible(p, 1);
    } else {
      var x :| x in s;
      ProductNotDivisible(p, s - {x});
      SmallNotDivisible(p, x);
      EuclidNot(p, x, Product(s - {x}));
      ProductRemove(s, x);
    }
  }

  ghost function Residues(p: nat): (s: set<nat>)
    ensures forall x :: x in s <==> 0 < x < p
    ensures |s| == if p == 0 then 0 else p - 1
  {
    if p <= 1 then {} else Residues(p - 1) + {p - 1}
  }

  ghost function Scaled(a: nat, p: int, s: set<nat>): set<nat>
    requires p > 0
  {
    set x | x in s :: (a * x) % p
  }

  lemma EqualResidueProducts(p: int, a: int, x: int, y: int)
    requires p > 0 && (a * x) % p == (a * y) % p
    ensures Divides(p, a * (y - x))
  {
    CongruentIff(p, a * y, a * x);
    assert a * y - a * x == a * (y - x);
  }

  /** Multiplication by a number prime to p is injective on the residues. */
  lemma ScaleInjective(p: int, a: nat, x: nat, y: nat)
    requires IsPrime(p) && !Divides(p, a) && x <= y < p && (a * x) % p == (a * y) % p
    ensures x == y
  {
    EqualResidueProducts(p, a, x, y);
    Euclid(p, a, y - x);
    if x < y { SmallNotDivisible(p, y - x); }
  }

  lemma ScaledInsert(p: int, a: nat, s: set<nat>, x: nat)
    requires IsPrime(p) && !Divides(p, a) && forall y :: y in s ==> y < p
    requires x < p && x !in s
    ensures (a * x) % p !in Scaled(a, p, s)
    ensures Scaled(a, p, s + {x}) == Scaled(a, p, s) + {(a * x) % p}
  {
    if z :| z in s && (a * z) % p == (a * x) % p {
      if x <= z { ScaleInjective(p, a, x, z); } else { ScaleInjective(p, a, z, x); }
    }
  }

  lemma {:induction false} ScaledProduct(p: int, a: nat, s: set<nat>)
    requires IsPrime(p) && !Divides(p, a) && forall x :: x in s ==> x < p
    ensures |Scaled(a, p, s)| == |s|
    ensures Product(Scaled(a, p, s)) % p == (Pow(a, |s|) * Product(s)) % p
    decreases |s|
  {
    if s == {} {
      assert Scaled(a, p, s) == {};
    } else {
      var x :| x in s;
      var s' := s - {x};
      assert s == s' + {x};
      ScaledProduct(p, a, s');
      ScaledInsert(p, a, s', x);
      ScaledProductStep(p, a, x, s', Scaled(a, p, s'));
    }
  }

  lemma ScaledProductStep(p: int, a: nat, x: nat, s: set<nat>, t: set<nat>)
    requires p > 0 && x !in s && (a * x) % p !in t
    requires Product(t) % p == (Pow(a, |s|) * Product(s)) % p
    ensures Product(t + {(a * x) % p}) % p == (Pow(a, |s + {x}|) * Product(s + {x})) % p
  {
    var y := (a * x) % p;
    ProductInsert(t, y);
    ProductInsert(s, x);
    ModProductStep(p, a, x, y, Product(t), Pow(a, |s|), Product(s));
  }

  lemma ProductInsert(s: set<nat>, x: nat)
    requires x !in s
    ensures Product(s + {x}) == x * Product(s)
  {
    assert s + {x} - {x} == s;
    ProductRemove(s + {x}, x);
  }

  lemma ModProductStep(p: int, a: int, x: int, y: int, t: int, e: int, w: int)
    requires p > 0 && y == (a * x) % p && t % p == (e * w) % p
    ensures (y * t) % p == ((a * e) * (x * w)) % p
  {
    ModMul(p, y, t, a * x, e * w);
    Regroup(a, x, e, w);
  }

  lemma Regroup(a: int, x: int, e: int, w: int)
    ensures (a * x) * (e * w) == (a * e) * (x * w)
  {
    assert (a * x) * (e * w) == a * (x * (e * w)) == a * (e * (x * w));
  }

  lemma {:induction false} SubsetOfSameSize(s: set<nat>, t: set<nat>)
    requires s <= t && |s| == |t|
    ensures s == t
  {
    if x :| x in t && x !in s {
      assert s <= t - {x};
      SubsetSize(s, t - {x});
    }
  }

  lemma {:induction false} SubsetSize(s: set<nat>, t: set<nat>)
    requires s <= t
    ensures |s| <= |t|
  {
    assert t == s + (t - s);
  }

  lemma ResidueScaled(p: int, a: nat, x: nat)
    requires IsPrime(p) && !Divides(p, a) && 0 < x < p
    ensures 0 < (a * x) % p < p
  {
    EuclidNot(p, a, x);
  }

  lemma ResiduesPermuted(p: int, a: nat)
    requires IsPrime(p) && !Divides(p, a)
    ensures Scaled(a, p, Residues(p)) == Residues(p)
  {
    var s := Residues(p);
    ScaledProduct(p, a, s);
    forall x | x in s ensures (a * x) % p in s {
      ResidueScaled(p, a, x);
    }
    SubsetOfSameSize(Scaled(a, p, s), s);
  }

  lemma ResidueProduct(p: int, a: nat)
    requires IsPrime(p) && !Divides(p, a)
    ensures Product(Residues(p)) % p == (Pow(a, p - 1) * Product(Residues(p))) % p
  {
    ScaledProduct(p, a, Residues(p));
    assert Product(Scaled(a, p, Residues(p))) == Product(Residues(p)) by {
      ResiduesPermuted(p, a);
    }
  }

  /** Fermat's little theorem: multiplying all the residues by a only permutes them. */
  lemma Fermat(p: int, a: nat)
    requires IsPrime(p) && !Divides(p, a)
    ensures Pow(a, p - 1) % p == 1
  {
    ResidueProduct(p, a);
    ProductNotDivisible(p, Residues(p));
    CancelFactor(p, Product(Residues(p)), Pow(a, p - 1));
  }

  lemma CancelFactor(p: int, w: nat, f: int)
    requires IsPrime(p) && !Divides(p, w) && w % p == (f * w) % p
    ensures f % p == 1
  {
    CongruentIff(p, f * w, w);
    assert f * w - w == w * (f - 1);
    Euclid(p, w, f - 1);
    CongruentIff(p, f, 1);
  }

  // ---- greatest common divisors --------------------------------------------------------------

  ghost predicate IsGcd(d: nat, x: nat, y: nat) {
    Divides(d, x) && Divides(d, y) && forall e: nat :: Divides(e, x) && Divides(e, y) ==> e <= d
  }

  function GcdOf(x: nat, y: nat): nat
    decreases y
  {
    if y == 0 then x else GcdOf(y, x % y)
  }

  lemma DivisorsOfRemainder(e: nat, x: nat, y: nat)
    requires y > 0 && e > 0
    ensures Divides(e, x) && Divides(e, y) <==> Divides(e, y) && Divides(e, x % y)
  {
    if Divides(e, y) {
      var q, k := x / y, y / e;
      assert x == y * q + x % y && y == e * k;
      Associate(e, k, q);
      assert x - x % y == e * (k * q);
      MulMod(e, k * q);
      CongruentIff(e, x, x % y);
    }
  }

  lemma {:induction false} GcdOfIsGreatest(x: nat, y: nat)
    requires x > 0 || y > 0
    ensures IsGcd(GcdOf(x, y), x, y)
    decreases y
  {
    if y == 0 {
      forall e: nat | Divides(e, x) ensures e <= x {
        DivisorSmall(e, x);
      }
    } else {
      var d := GcdOf(y, x % y);
      GcdOfIsGreatest(y, x % y);
      DivisorsOfRemainder(d, x, y);
      forall e: nat | Divides(e, x) && Divides(e, y) ensures e <= d {
        DivisorsOfRemainder(e, x, y);
      }
    }
  }

  lemma DivisorSmall(e: nat, x: nat)
    requires x > 0 && Divides(e, x)
    ensures e <= x
  {
  }

  lemma GcdUnique(d: nat, e: nat, x: nat, y: nat)
    requires IsGcd(d, x, y) && IsGcd(e, x, y)
    ensures d == e
  {
  }

  lemma GcdOfZero(x: nat)
    ensures GcdOf(x, 0) == x == GcdOf(0, x)
  {
  }
}
