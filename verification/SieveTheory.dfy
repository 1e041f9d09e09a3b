/** What a sieve of Eratosthenes strikes and what survives it. */
module SieveTheory {
  import opened NumberTheory

  /** n is start, start + step, start + 2 * step, ... */
  predicate OnTrack(n: nat, start: nat, step: nat)
    requires step > 0
  {
    n >= start && (n - start) % step == 0
  }

  lemma NextOnTrack(j: nat, start: nat, step: nat)
    requires step > 0 && OnTrack(j, start, step)
    ensures OnTrack(j + step, start, step)
    ensures forall n: nat :: j < n < j + step ==> !OnTrack(n, start, step)
  {
    var k := (j - start) / step;
    forall n: nat | j < n <= j + step ensures OnTrack(n, start, step) <==> n == j + step {
      if n == j + step {
        assert n - start == step * (k + 1);
        MulMod(step, k + 1);
      } else {
        assert n - start == step * k + (n - j);
        DivModUnique(step, k, n - j);
      }
    }
  }

  /** No prime below i strikes n: those that divide n have their square beyond n. */
  ghost predicate Survives(n: nat, i: nat) {
    forall d: nat :: d < i && IsPrime(d) && Divides(d, n) ==> d * d > n
  }

  lemma SurvivesIffPrime(n: nat, i: nat)
    requires n >= 1 && (i == n || i * i > n)
    ensures Survives(n, i) <==> n == 1 || IsPrime(n)
  {
    if n > 1 && !IsPrime(n) {
      var p := SmallPrimeDivisor(n);
      assert p < i by {
        if p >= i { SquareMonotone(i, p); SquareBeyond(n); }
      }
    } else {
      forall d: nat | d < i && IsPrime(d) && Divides(d, n) ensures d * d > n {
        SquareBeyond(d);
      }
    }
  }

  lemma SquareBeyond(n: nat)
    requires n >= 2
    ensures n * n > n
  {
  }

  lemma SurvivesStep(n: nat, i: nat, next: nat)
    requires i < next && forall d :: i < d < next ==> !IsPrime(d)
    ensures Survives(n, next) <==> Survives(n, i) && !(IsPrime(i) && Divides(i, n) && i * i <= n)
  {
  }

  /** The squares and multiples one inner loop visits are the multiples from the square on. */
  lemma TrackIsMultiples(i: nat, n: nat)
    requires i > 0
    ensures OnTrack(n, i * i, i) <==> Divides(i, n) && i * i <= n
  {
    CongruentIff(i, n, i * i);
    MulMod(i, i);
  }

  /** A loop index whose square is below 2^63 stays far below 2^32, so neither square nor step can wrap. */
  lemma RootRange(i: nat)
    requires i * i < TWO_63
    ensures i + 6 < TWO_32
  {
    if i >= TWO_32 - 6 { SquareMonotone(TWO_32 - 6, i); }
  }
}
