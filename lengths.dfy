/**
 * Coercion of the `Length` column to a byte count (`int(s) if s.isdigit() else 0`)
 * and `str()` of a non-negative integer, which renders the counts of the summary.
 */
module Lengths {

  predicate IsDigit(c: char) {
    '0' <= c <= '9'
  }

  /** `s.isdigit()`: non-empty and made of decimal digits only. */
  predicate IsDecimal(s: string) {
    |s| > 0 && forall i :: 0 <= i < |s| ==> IsDigit(s[i])
  }

  function DigitValue(c: char): (d: nat)
    requires IsDigit(c)
    ensures d < 10
  {
    (c as int) - ('0' as int)
  }

  function DigitChar(d: nat): (c: char)
    requires d < 10
    ensures IsDigit(c) && DigitValue(c) == d
  {
    (('0' as int) + d) as char
  }

  /** The value of a digit string read most significant digit first. */
  function DecimalValue(s: string): nat
    requires forall i :: 0 <= i < |s| ==> IsDigit(s[i])
  {
    if |s| == 0 then 0
    else 10 * DecimalValue(s[..|s| - 1]) + DigitValue(s[|s| - 1])
  }

  /** The byte count a row contributes: its decimal value if `isdigit`, else 0. */
  function ParseLength(s: string): nat {
    if IsDecimal(s) then DecimalValue(s) else 0
  }

  function Pow10(n: nat): nat
  {
    if n == 0 then 1 else 10 * Pow10(n - 1)
  }

  /** `str(n)` for a non-negative integer: canonical decimal, no sign, no leading zero. */
  function ToDecimal(n: nat): (s: string)
    ensures IsDecimal(s)
    ensures s[0] == '0' ==> n == 0 && s == "0"
  {
    if n < 10 then [DigitChar(n)]
    else ToDecimal(n / 10) + [DigitChar(n % 10)]
  }

  /** Reading back what `str` wrote gives the number again. */
  lemma {:induction false} ParseToDecimal(n: nat)
    ensures ParseLength(ToDecimal(n)) == n
  {
    var s := ToDecimal(n);
    if n >= 10 {
      ParseToDecimal(n / 10);
      assert s[..|s| - 1] == ToDecimal(n / 10);
    } else {
      assert s[..|s| - 1] == "";
      assert DecimalValue(s) == DigitValue(DigitChar(n));
    }
  }

  /** A digit string of length `|s|` has a value below `10^|s|`. */
  lemma {:induction false} DecimalValueBound(s: string)
    requires forall i :: 0 <= i < |s| ==> IsDigit(s[i])
    ensures DecimalValue(s) < Pow10(|s|)
  {
    if |s| > 0 {
      DecimalValueBound(s[..|s| - 1]);
    }
  }

  /** Leading zeros do not change the value: `int("007") == 7`. */
  lemma {:induction false} LeadingZero(s: string)
    requires forall i :: 0 <= i < |s| ==> IsDigit(s[i])
    ensures DecimalValue("0" + s) == DecimalValue(s)
  {
    if |s| > 0 {
      assert ("0" + s)[..|s|] == "0" + s[..|s| - 1];
      LeadingZero(s[..|s| - 1]);
    } else {
      assert ("0" + s)[..0] == "";
    }
  }

  /**
   * A degraded length (empty, or holding any character that is not a digit, such
   * as a sign, a space, a decimal point) contributes nothing, and a decimal one
   * contributes at most `10^|s| - 1` bytes. The first clause restates the
   * `else` branch of `ParseLength` for readers; the bound is the proved part.
   */
  lemma ParseLengthRange(s: string)
    ensures !IsDecimal(s) ==> ParseLength(s) == 0
    ensures IsDecimal(s) ==> ParseLength(s) < Pow10(|s|)
  {
    if IsDecimal(s) {
      DecimalValueBound(s);
    }
  }
}
