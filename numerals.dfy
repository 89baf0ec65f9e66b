/** Decimal digits and the decimal text of integers, as JavaScript's
    template literals and `parseInt` produce and read them. */
module Numerals {

  predicate IsDigit(c: char)
  {
    '0' <= c <= '9'
  }

  predicate AllDigits(s: string)
  {
    forall k :: 0 <= k < |s| ==> IsDigit(s[k])
  }

  function DigitChar(d: nat): (c: char)
    requires d < 10
    ensures IsDigit(c) && c as int - '0' as int == d
  {
    ('0' as int + d) as char
  }

  function DigitValue(c: char): (d: nat)
    requires IsDigit(c)
    ensures d < 10 && DigitChar(d) == c
  {
    c as int - '0' as int
  }

  /** The decimal text of n, without leading zeros. */
  function DecimalText(n: nat): (s: string)
    ensures |s| >= 1 && AllDigits(s)
    ensures s[0] == '0' ==> n == 0
  {
    if n < 10 then [DigitChar(n)] else DecimalText(n / 10) + [DigitChar(n % 10)]
  }

  /** The text `${n}` of an integer. */
  function IntText(n: int): (s: string)
    ensures |s| >= 1
  {
    if n < 0 then "-" + DecimalText(-n) else DecimalText(n)
  }

  /** The value of a string of decimal digits, most significant first. */
  function DigitsValue(s: string): (v: nat)
    requires AllDigits(s)
  {
    if s == [] then 0 else DigitsValue(s[..|s| - 1]) * 10 + DigitValue(s[|s| - 1])
  }

  function Pow10(k: nat): (p: nat)
    ensures p >= 1
  {
    if k == 0 then 1 else 10 * Pow10(k - 1)
  }

  /** Reading back the decimal text of n gives n. */
  lemma {:induction false} DecimalTextValue(n: nat)
    ensures DigitsValue(DecimalText(n)) == n
  {
    if n >= 10 {
      var s := DecimalText(n);
      assert s[..|s| - 1] == DecimalText(n / 10);
      DecimalTextValue(n / 10);
    }
  }

  /** The first character of the decimal text of n is its leading digit:
      it is '4' exactly when 4 * 10^k <= n < 5 * 10^k for some k. */
  lemma {:induction false} LeadingFour(n: nat)
    ensures DecimalText(n)[0] == '4' <==> exists k: nat :: 4 * Pow10(k) <= n < 5 * Pow10(k)
  {
    if n < 10 {
      if DecimalText(n)[0] == '4' {
        assert DecimalText(n)[0] == DigitChar(n);
        assert n == 4;
        assert 4 * Pow10(0) <= n < 5 * Pow10(0);
      } else {
        forall k: nat ensures !(4 * Pow10(k) <= n < 5 * Pow10(k)) {
          if k > 0 {
            assert Pow10(k) == 10 * Pow10(k - 1);
          }
        }
      }
    } else {
      var q := n / 10;
      assert n == 10 * q + n % 10 && 0 <= n % 10 < 10;
      assert DecimalText(n)[0] == DecimalText(q)[0];
      LeadingFour(q);
      if DecimalText(n)[0] == '4' {
        var k: nat :| 4 * Pow10(k) <= q < 5 * Pow10(k);
        assert Pow10(k + 1) == 10 * Pow10(k);
        assert 4 * Pow10(k + 1) <= n < 5 * Pow10(k + 1);
      } else {
        forall k: nat ensures !(4 * Pow10(k) <= n < 5 * Pow10(k)) {
          if k == 0 {
          } else {
            assert Pow10(k) == 10 * Pow10(k - 1);
            assert !(4 * Pow10(k - 1) <= q < 5 * Pow10(k - 1));
          }
        }
      }
    }
  }
}
