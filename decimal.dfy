/** Rendering of a natural number the way a JavaScript template literal
    (`${n}`) renders a non-negative integer below 10^21: its decimal digits,
    no sign, no leading zero. Larger numbers are rendered in exponent form by
    JavaScript and are not covered. Used for the ids of registered users
    (clock readings) and for trade dates (days 11 to 25). */
module Numerals {

  function Digit(d: nat): (c: char)
    requires d < 10
    ensures '0' <= c <= '9'
  {
    "0123456789"[d]
  }

  /** The value of a digit character. */
  function DigitValue(c: char): (d: nat)
    requires '0' <= c <= '9'
    ensures d < 10 && Digit(d) == c
  {
    (c as int - '0' as int) as nat
  }

  /** The decimal rendering of `n`. */
  function Decimal(n: nat): (s: string)
    ensures |s| >= 1
    ensures forall k :: 0 <= k < |s| ==> '0' <= s[k] <= '9'
  {
    if n < 10 then [Digit(n)] else Decimal(n / 10) + [Digit(n % 10)]
  }

  /** Reads a string of decimal digits back as a number. */
  function ParseDecimal(s: string): nat
    requires forall k :: 0 <= k < |s| ==> '0' <= s[k] <= '9'
  {
    if s == [] then 0 else 10 * ParseDecimal(s[..|s| - 1]) + DigitValue(s[|s| - 1])
  }

  /** Reading a rendering back gives the number rendered. */
  lemma {:induction false} ParseDecimalInverts(n: nat)
    ensures ParseDecimal(Decimal(n)) == n
  {
    var s := Decimal(n);
    if n < 10 {
      assert s[..|s| - 1] == [];
    } else {
      var q, d := n / 10, n % 10;
      assert s == Decimal(q) + [Digit(d)];
      assert s[..|s| - 1] == Decimal(q);
      assert DigitValue(s[|s| - 1]) == d;
      ParseDecimalInverts(q);
      assert n == 10 * q + d;
    }
  }

  /** Distinct numbers have distinct renderings. */
  lemma DecimalInjective(a: nat, b: nat)
    ensures Decimal(a) == Decimal(b) ==> a == b
  {
    if Decimal(a) == Decimal(b) {
      ParseDecimalInverts(a);
      ParseDecimalInverts(b);
    }
  }
}
