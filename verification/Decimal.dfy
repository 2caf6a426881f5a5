/** Decimal numerals as JavaScript prints a non-negative safe integer. */
module Decimal {
  import opened Base

  const ZERO: Byte := 48

  /** The numeral, most significant digit first and without leading zeros. */
  function Numeral(n: nat): (s: Bytes)
    ensures |s| >= 1 && forall b | b in s :: IsDigit(b)
  {
    if n < 10 then [ZERO + n] else Numeral(n / 10) + [ZERO + n % 10]
  }

  predicate IsDigit(b: Byte)
  {
    ZERO <= b < ZERO + 10
  }

  function Value(s: Bytes): (n: int)
  {
    if s == [] then 0 else 10 * Value(s[..|s| - 1]) + (s[|s| - 1] - ZERO)
  }

  /** A numeral is read back as the number it was printed from. */
  lemma {:induction false} NumeralRoundTrip(n: nat)
    ensures Value(Numeral(n)) == n
  {
    if n < 10 {
      assert Numeral(n)[..0] == [];
    } else {
      NumeralRoundTrip(n / 10);
      assert Numeral(n)[..|Numeral(n)| - 1] == Numeral(n / 10);
    }
  }

  function Width(n: nat): (w: nat)
    ensures w >= 1
  {
    |Numeral(n)|
  }

  lemma {:induction false} WidthMonotone(m: nat, n: nat)
    requires m <= n
    ensures Width(m) <= Width(n)
    decreases n
  {
    if n >= 10 && m >= 10 {
      WidthMonotone(m / 10, n / 10);
    }
  }

  function Pow10(w: nat): (p: nat)
    ensures p > w
  {
    if w == 0 then 1 else 10 * Pow10(w - 1)
  }

  /** A numeral of at most `w` digits is what a number below 10^w has. */
  lemma {:induction false} WidthIff(n: nat, w: nat)
    requires w >= 1
    ensures Width(n) <= w <==> n < Pow10(w)
    decreases w
  {
    if n < 10 {
      assert Pow10(w) >= 10 by { assert Pow10(w - 1) >= 1; }
    } else if w == 1 {
      assert Pow10(1) == 10 * Pow10(0);
    } else {
      WidthIff(n / 10, w - 1);
    }
  }
}
