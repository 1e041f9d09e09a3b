/** sqd of 211.c: the sum of the squares of all divisors, found in pairs up to the square root. */
module DivisorSquares {
  import opened NumberTheory
  import opened MachineWords

  /** The squares of the divisors d of n with a < d <= b, summed. */
  function Sum(n: nat, a: nat, b: nat): nat
    decreases b
  {
    if b <= a then 0 else Sum(n, a, b - 1) + if Divides(b, n) then b * b else 0
  }

  lemma {:induction false} SumSplit(n: nat, a: nat, c: nat, b: nat)
    requires a <= c <= b
    ensures Sum(n, a, b) == Sum(n, a, c) + Sum(n, c, b)
    decreases b
  {
    if c < b { SumSplit(n, a, c, b - 1); }
  }

  lemma {:induction false} SumEmpty(n: nat, a: nat, b: nat)
    requires forall d :: a < d <= b ==> !Divides(d, n)
    ensures Sum(n, a, b) == 0
    decreases b
  {
    if a < b { SumEmpty(n, a, b - 1); }
  }

  lemma QuotientBounds(n: nat, i: nat)
    requires i > 0
    ensures i * (n / i) <= n < i * (n / i + 1)
  {
    assert n == i * (n / i) + n % i;
    assert i * (n / i + 1) == i * (n / i) + i;
  }

  /** A divisor between n / (i + 1) and n / i is the cofactor of i. */
  lemma OnlyCofactor(n: nat, i: nat, d: nat)
    requires 0 < i && n / (i + 1) < d <= n / i && Divides(d, n)
    ensures n == d * i
  {
    var k := n / d;
    assert n == d * k;
    QuotientBounds(n, i);
    QuotientBounds(n, i + 1);
    assert d * (k + 1) == d * k + d;
    if k < i { MulMonotone(d, k + 1, n / i, i); }
    if k > i { MulMonotone(n / (i + 1) + 1, i + 1, d, k); }
  }

  function Max(a: nat, b: nat): nat {
    if a < b then b else a
  }

  /** What the loop has collected once it has been through 1 to i. */
  function Collected(n: nat, i: nat): nat {
    Sum(n, 0, i) + Sum(n, Max(i, n / (i + 1)), n)
  }

  function Share(n: nat, i: nat): nat
    requires i > 0
  {
    if n % i != 0 then 0 else i * i + if n / i != i then n / i * (n / i) else 0
  }

  lemma NextShare(n: nat, i: nat)
    requires 0 < i && i * i <= n
    ensures Collected(n, i) == Collected(n, i - 1) + Share(n, i)
  {
    hide Sum, Divides;
    var q, c := n / i, Max(i, n / (i + 1));
    QuotientBounds(n, i);
    QuotientBounds(n, i + 1);
    AtLeastSquare(n, i);
    Shrinks(n, i);
    LastTerm(n, i - 1, i);
    SumSplit(n, c, q, n);
    Between(n, i);
  }

  lemma LastTerm(n: nat, a: nat, b: nat)
    requires a < b
    ensures Sum(n, 0, b) == Sum(n, 0, b - 1) + if n % b == 0 then b * b else 0
  {
  }

  lemma AtLeastSquare(n: nat, i: nat)
    requires 0 < i && i * i <= n
    ensures i <= n / i <= n
  {
    QuotientBounds(n, i);
    if n / i < i { MulMonotone(i, n / i + 1, i, i); }
    if n / i > n { MulMonotone(1, n + 1, i, n / i); }
  }

  lemma Shrinks(n: nat, i: nat)
    requires i > 0
    ensures n / (i + 1) <= n / i
  {
    QuotientBounds(n, i);
    QuotientBounds(n, i + 1);
    if n / (i + 1) > n / i { MulMonotone(i, n / i + 1, i + 1, n / (i + 1)); }
  }

  lemma CofactorInside(n: nat, i: nat)
    requires 0 < i && i * i <= n && n % i == 0 && n / i != i
    ensures Max(i, n / (i + 1)) < n / i && Divides(n / i, n)
  {
    var q := n / i;
    AtLeastSquare(n, i);
    assert n == i * q;
    QuotientBounds(n, i + 1);
    if n / (i + 1) >= q { MulMonotone(i + 1, q, i + 1, n / (i + 1)); }
    MulMod(q, i);
  }

  lemma NoOther(n: nat, i: nat, c: nat, b: nat)
    requires 0 < i && c == Max(i, n / (i + 1)) && b <= n / i && (b < n / i || n % i != 0 || n / i == i)
    ensures Sum(n, c, b) == 0
  {
    forall d | c < d <= b ensures !Divides(d, n) {
      if Divides(d, n) {
        OnlyCofactor(n, i, d);
        DivModUnique(i, d, 0);
      }
    }
    SumEmpty(n, c, b);
  }

  lemma TopTerm(n: nat, c: nat, q: nat)
    requires c < q && Divides(q, n)
    ensures Sum(n, c, q) == Sum(n, c, q - 1) + q * q
  {
  }

  /** Between the old and the new upper part there is at most the cofactor of i. */
  lemma Between(n: nat, i: nat)
    requires 0 < i && i * i <= n
    ensures Sum(n, Max(i, n / (i + 1)), n / i) == if n % i == 0 && n / i != i then n / i * (n / i) else 0
  {
    hide Sum;
    var q, c := n / i, Max(i, n / (i + 1));
    AtLeastSquare(n, i);
    Shrinks(n, i);
    if n % i == 0 && q != i {
      CofactorInside(n, i);
      NoOther(n, i, c, q - 1);
      TopTerm(n, c, q);
    } else {
      NoOther(n, i, c, q);
    }
  }

  lemma NothingCollected(n: nat)
    ensures Collected(n, 0) == 0
  {
  }

  lemma AllCollected(n: nat, n0: nat)
    requires n0 * n0 <= n < (n0 + 1) * (n0 + 1)
    ensures Collected(n, n0) == Sum(n, 0, n)
  {
    hide Sum;
    QuotientBounds(n, n0 + 1);
    if n / (n0 + 1) > n0 { MulMonotone(n0 + 1, n0 + 1, n0 + 1, n / (n0 + 1)); }
    if n0 > 0 { MulMonotone(1, n0, n0, n0); }
    SumSplit(n, 0, n0, n);
  }

  lemma AddWord(c: nat, a: nat)
    ensures Add64(c % TWO_64, a) == (c + a) % TWO_64
  {
    ReduceInside(TWO_64, a, c);
  }

  /** With an exact root n0, the loop over half the divisors sums the squares of them all. */
  method SumOfSquares(n: nat, n0: nat) returns (s: U64)
    requires n < 0x8000_0000 && n0 * n0 <= n < (n0 + 1) * (n0 + 1)
    ensures s == Sum(n, 0, n) % TWO_64
  {
    hide Sum, Collected, Add64;
    s := 0;
    NothingCollected(n);
    for i := 1 to n0 + 1
      invariant s == Collected(n, i - 1) % TWO_64
    {
      SquareMonotone(i, n0);
      NextShare(n, i);
      ghost var c := Collected(n, i - 1);
      if n % i == 0 {
        s := Add64(s, i * i);
        AddWord(c, i * i);
        var p := n / i;
        if p != i {
          s := Add64(s, p * p);
          AddWord(c + i * i, p * p);
        }
      }
    }
    AllCollected(n, n0);
  }
}
