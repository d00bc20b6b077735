/** Decimal numerals: reading a run of ASCII digits (what `parseInt` does with
    the digits of a capture) and printing a natural number the way a
    JavaScript template literal prints an integer-valued number. */
module Decimal {

  /** The regular-expression class `\d`: ASCII digits only. */
  predicate IsDigit(c: char)
  {
    '0' <= c <= '9'
  }

  predicate AllDigits(s: string)
  {
    forall i :: 0 <= i < |s| ==> IsDigit(s[i])
  }

  /** A non-empty run of digits. */
  predicate IsNumeral(s: string)
  {
    |s| >= 1 && AllDigits(s)
  }

  function DigitValue(c: char): (v: nat)
    requires IsDigit(c)
    ensures v < 10
  {
    (c as int - '0' as int) as nat
  }

  function DigitChar(v: nat): (c: char)
    requires v < 10
    ensures IsDigit(c) && DigitValue(c) == v
  {
    ('0' as int + v) as char
  }

  /** The decimal value of a run of digits, most significant digit first. */
  function Value(s: string): nat
    requires AllDigits(s)
    decreases |s|
  {
    if s == [] then 0 else Value(s[..|s| - 1]) * 10 + DigitValue(s[|s| - 1])
  }

  /** The shortest decimal numeral of n: no sign, no padding, no leading zero. */
  function ToDecimal(n: nat): (s: string)
    ensures IsNumeral(s)
    ensures Value(s) == n
    ensures s[0] == '0' ==> n == 0 && s == "0"
    decreases n
  {
    if n < 10 then [DigitChar(n)]
    else
      var s := ToDecimal(n / 10) + [DigitChar(n % 10)];
      assert s[..|s| - 1] == ToDecimal(n / 10);
      s
  }

  lemma {:induction false} ValueOfLeadingNonZero(s: string)
    requires IsNumeral(s) && s[0] != '0'
    ensures Value(s) >= 1
    decreases |s|
  {
    if |s| > 1 {
      ValueOfLeadingNonZero(s[..|s| - 1]);
    }
  }

  /** A numeral without a leading zero is printed back exactly: ToDecimal is
      the one canonical spelling of each number. */
  lemma {:induction false} ToDecimalOfValue(s: string)
    requires IsNumeral(s)
    requires s[0] != '0' || |s| == 1
    ensures ToDecimal(Value(s)) == s
    decreases |s|
  {
    if |s| == 1 {
      assert s == [DigitChar(DigitValue(s[0]))];
    } else {
      var p := s[..|s| - 1];
      ValueOfLeadingNonZero(p);
      ToDecimalOfValue(p);
      var n := Value(s);
      assert n / 10 == Value(p) && n % 10 == DigitValue(s[|s| - 1]);
      assert s == p + [DigitChar(n % 10)];
    }
  }
}
