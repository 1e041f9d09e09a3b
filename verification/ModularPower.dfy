/** Modular exponentiation by squaring in signed 128-bit arithmetic (test_prime.c, 146.c). */
module ModularPower {
  import opened NumberTheory

  /** A machine computation either yields a value or overflows its signed type, which C leaves undefined. */
  datatype Checked<T> = Value(v: T) | Overflow

  const TWO_127: int := 0x8000_0000_0000_0000_0000_0000_0000_0000

  /** The moduli small enough that no product of two residues overflows. */
  predicate Fits(mod: int) {
    (mod - 1) * (mod - 1) < TWO_127
  }

  /** What is left to compute when the loop holds result, b and exp. */
  function ModExpLoop(result: int, b: int, exp: nat, mod: int): Checked<int>
    requires mod > 0
    decreases exp
  {
    if exp == 0 then
      Value(result)
    else if exp % 2 == 1 && result * b >= TWO_127 then
      Overflow
    else if b * b >= TWO_127 then
      Overflow
    else
      ModExpLoop(if exp % 2 == 1 then (result * b) % mod else result, (b * b) % mod, exp / 2, mod)
  }

  function ModExpOf(base: nat, exp: nat, mod: int): Checked<int>
    requires mod > 0
  {
    if mod == 1 then Value(0) else ModExpLoop(1, base % mod, exp, mod)
  }

  /** The loop as the source runs it. */
  method ModExp(base: nat, exp: nat, mod: int) returns (r: Checked<int>)
    requires mod > 0
    ensures r == ModExpOf(base, exp, mod)
    ensures r.Value? ==> r.v == Pow(base, exp) % mod
    ensures Fits(mod) ==> r.Value?
  {
    ModExpMeaning(base, exp, mod);
    if mod == 1 {
      return Value(0);
    }
    var result, b, e := 1, base % mod, exp;
    while e > 0
      invariant ModExpLoop(result, b, e, mod) == ModExpOf(base, exp, mod)
    {
      if e % 2 == 1 {
        if result * b >= TWO_127 {
          return Overflow;
        }
        result := (result * b) % mod;
      }
      e := e / 2;
      if b * b >= TWO_127 {
        return Overflow;
      }
      b := (b * b) % mod;
    }
    return Value(result);
  }

  lemma ProductFits(x: int, y: int, mod: int)
    requires 0 <= x < mod && 0 <= y < mod && Fits(mod)
    ensures x * y < TWO_127
  {
    MulMonotone(x, y, mod - 1, mod - 1);
  }

  /** One turn of the loop keeps result * b^exp modulo mod. */
  lemma ModExpTurn(result: nat, b: nat, exp: nat, mod: int)
    requires mod > 0 && exp > 0
    ensures var result' := if exp % 2 == 1 then (result * b) % mod else result;
            (result' * Pow((b * b) % mod, exp / 2)) % mod == (result * Pow(b, exp)) % mod
  {
    var k := exp / 2;
    var rest := Pow(b * b, k);
    PowSquare(b, k);
    ModOfMod(mod, b * b);
    PowCongruent(mod, (b * b) % mod, b * b, k);
    if exp % 2 == 1 {
      assert Pow(b, exp) == b * rest;
      ModOfMod(mod, result * b);
      ModMul(mod, (result * b) % mod, Pow((b * b) % mod, k), result * b, rest);
      assert (result * b) * rest == result * (b * rest);
    } else {
      ModMul(mod, result, Pow((b * b) % mod, k), result, rest);
    }
  }

  lemma {:induction false} ModExpLoopMeaning(result: nat, b: nat, exp: nat, mod: int)
    requires 0 <= result < mod && b < mod
    ensures var r := ModExpLoop(result, b, exp, mod);
            r.Value? ==> r.v == (result * Pow(b, exp)) % mod
    decreases exp
  {
    if exp > 0 {
      ModExpTurn(result, b, exp, mod);
      ModExpLoopMeaning(if exp % 2 == 1 then (result * b) % mod else result, (b * b) % mod, exp / 2, mod);
    }
  }

  lemma {:induction false} ModExpLoopFits(result: nat, b: nat, exp: nat, mod: int)
    requires 0 <= result < mod && b < mod && Fits(mod)
    ensures ModExpLoop(result, b, exp, mod).Value?
    decreases exp
  {
    if exp > 0 {
      ProductFits(result, b, mod);
      ProductFits(b, b, mod);
      ModExpLoopFits(if exp % 2 == 1 then (result * b) % mod else result, (b * b) % mod, exp / 2, mod);
    }
  }

  /** Whatever value comes out is the power, and for a modulus that fits a value does come out. */
  lemma ModExpMeaning(base: nat, exp: nat, mod: int)
    requires mod > 0
    ensures var r := ModExpOf(base, exp, mod);
            && (r.Value? ==> r.v == Pow(base, exp) % mod)
            && (Fits(mod) ==> r.Value?)
  {
    if mod > 1 {
      ModExpLoopMeaning(1, base % mod, exp, mod);
      if Fits(mod) { ModExpLoopFits(1, base % mod, exp, mod); }
      ModOfMod(mod, base);
      PowCongruent(mod, base % mod, base, exp);
    }
  }

  // ---- exactly when a product overflows -----------------------------------------------------------------------

  /** What b and result hold when the loop comes to the j-th binary digit of exp. */
  function SquareAt(b: nat, mod: int, j: nat): int
    requires mod > 0
  {
    Pow(b, Pow(2, j)) % mod
  }

  function ResultAt(result: nat, b: nat, exp: nat, mod: int, j: nat): int
    requires mod > 0
  {
    PowPositive(j);
    result * Pow(b, exp % Pow(2, j)) % mod
  }

  /** At that digit the square of b overflows, or, if the digit is 1, its product with result. */
  predicate TurnOverflows(result: nat, b: nat, exp: nat, mod: int, j: nat)
    requires mod > 0
  {
    PowPositive(j);
    && Pow(2, j) <= exp
    && var q := SquareAt(b, mod, j);
       q * q >= TWO_127 || (exp / Pow(2, j) % 2 == 1 && ResultAt(result, b, exp, mod, j) * q >= TWO_127)
  }

  lemma {:induction false} PowPositive(j: nat)
    ensures Pow(2, j) > 0
  {
    if j > 0 { PowPositive(j - 1); }
  }

  lemma FirstTurn(result: nat, b: nat, exp: nat, mod: int)
    requires result < mod && b < mod && exp > 0
    ensures TurnOverflows(result, b, exp, mod, 0) <==> b * b >= TWO_127 || (exp % 2 == 1 && result * b >= TWO_127)
  {
    FirstHeld(result, b, exp, mod);
    assert Pow(2, 0) == 1;
    hide SquareAt, ResultAt, Pow;
  }

  lemma FirstHeld(result: nat, b: nat, exp: nat, mod: int)
    requires result < mod && b < mod
    ensures SquareAt(b, mod, 0) == b && ResultAt(result, b, exp, mod, 0) == result
  {
    assert Pow(2, 0) == 1 && Pow(b, 1) == b && Pow(b, 0) == 1 && exp % 1 == 0;
    DivModUnique(mod, 0, b);
    DivModUnique(mod, 0, result);
  }

  /** Digit j + 1 of exp is digit j of its half. */
  lemma DigitOfHalf(exp: nat, j: nat)
    ensures Pow(2, j) > 0 && Pow(2, j + 1) == 2 * Pow(2, j)
    ensures Pow(2, j + 1) <= exp <==> Pow(2, j) <= exp / 2
    ensures exp / Pow(2, j + 1) == exp / 2 / Pow(2, j)
    ensures exp % Pow(2, j + 1) == 2 * (exp / 2 % Pow(2, j)) + exp % 2
  {
    PowPositive(j);
    var p := Pow(2, j);
    var q, r := exp / 2 / p, exp / 2 % p;
    assert exp == 2 * (p * q + r) + exp % 2;
    Associate(2, p, q);
    DivModUnique(2 * p, q, 2 * r + exp % 2);
  }

  lemma NextTurn(result: nat, b: nat, exp: nat, mod: int, j: nat)
    requires result < mod && b < mod && exp > 0
    ensures var result' := if exp % 2 == 1 then (result * b) % mod else result;
            TurnOverflows(result, b, exp, mod, j + 1) <==> TurnOverflows(result', (b * b) % mod, exp / 2, mod, j)
  {
    var result' := if exp % 2 == 1 then (result * b) % mod else result;
    DigitOfHalf(exp, j);
    var p, e := Pow(2, j), exp / 2 % Pow(2, j);
    PowSquare(b, p);
    ModOfMod(mod, b * b);
    PowCongruent(mod, (b * b) % mod, b * b, p);
    assert SquareAt(b, mod, j + 1) == SquareAt((b * b) % mod, mod, j);
    if 2 * e + exp % 2 > 0 { ModExpTurn(result, b, 2 * e + exp % 2, mod); }
    assert ResultAt(result, b, exp, mod, j + 1) == ResultAt(result', (b * b) % mod, exp / 2, mod, j);
    hide SquareAt, ResultAt, Pow;
  }

  lemma {:induction false} LoopOverflowsExactly(result: nat, b: nat, exp: nat, mod: int)
    requires result < mod && b < mod
    ensures ModExpLoop(result, b, exp, mod).Overflow? <==> exists j: nat :: TurnOverflows(result, b, exp, mod, j)
    decreases exp
  {
    if exp == 0 {
      forall j: nat ensures !TurnOverflows(result, b, exp, mod, j) { PowPositive(j); }
    } else {
      var result' := if exp % 2 == 1 then (result * b) % mod else result;
      hide TurnOverflows;
      FirstTurn(result, b, exp, mod);
      if !TurnOverflows(result, b, exp, mod, 0) {
        LoopOverflowsExactly(result', (b * b) % mod, exp / 2, mod);
      }
      forall j: nat | j > 0
        ensures TurnOverflows(result, b, exp, mod, j) <==> TurnOverflows(result', (b * b) % mod, exp / 2, mod, j - 1)
      {
        NextTurn(result, b, exp, mod, j - 1);
      }
      Shifted(result, b, exp, mod, result', (b * b) % mod);
    }
  }

  lemma Shifted(result: nat, b: nat, exp: nat, mod: int, result': nat, b': nat)
    requires mod > 0
    requires forall j: nat :: j > 0 ==>
      (TurnOverflows(result, b, exp, mod, j) <==> TurnOverflows(result', b', exp / 2, mod, j - 1))
    ensures (exists j: nat :: TurnOverflows(result, b, exp, mod, j))
       <==> TurnOverflows(result, b, exp, mod, 0) || exists j: nat :: TurnOverflows(result', b', exp / 2, mod, j)
  {
    hide TurnOverflows;
    if j: nat :| TurnOverflows(result', b', exp / 2, mod, j) {
      assert TurnOverflows(result, b, exp, mod, j + 1);
    }
  }

  ghost predicate SomeTurnOverflows(base: nat, exp: nat, mod: int)
    requires mod > 0
  {
    exists j: nat :: TurnOverflows(1, base % mod, exp, mod, j)
  }

  /** The power overflows if and only if, at some digit j of exp, b^(2^j) mod m is too large to be squared, or, the digit
      being 1, to be multiplied by what the digits below j give. */
  lemma OverflowsExactly(base: nat, exp: nat, mod: int)
    requires mod > 1
    ensures ModExpOf(base, exp, mod).Overflow? <==> SomeTurnOverflows(base, exp, mod)
  {
    LoopOverflowsExactly(1, base % mod, exp, mod);
  }

  /** Fits is exact: a modulus that does not fit overflows on its largest residue. */
  lemma FitsExactly(mod: int)
    requires mod > 0
    ensures Fits(mod) <==> forall base: nat, exp: nat :: ModExpOf(base, exp, mod).Value?
  {
    if Fits(mod) {
      forall base: nat, exp: nat ensures ModExpOf(base, exp, mod).Value? {
        ModExpMeaning(base, exp, mod);
      }
    } else {
      assert ModExpOf(mod - 1, 1, mod) == Overflow;
    }
  }

  /** Every modulus up to 2^63 fits; the largest 64-bit ones do not. */
  lemma FitsRange(mod: int)
    requires 0 < mod < TWO_64
    ensures Fits(mod) <==> mod <= 13043817825332782213
  {
    var m := 13043817825332782212;
    assert m * m < TWO_127 <= (m + 1) * (m + 1);
    if mod - 1 <= m {
      SquareMonotone(mod - 1, m);
    } else {
      SquareMonotone(m + 1, mod - 1);
    }
  }
}
