/** Decimal text of machine integers, as catalogs and field metadata print and parse it. */
module Numerals {
  import opened Scalars

  const U64_MAX: int := 0xffff_ffff_ffff_ffff

  predicate IsDigit(c: char) { '0' <= c <= '9' }

  function DigitValue(c: char): nat
    requires IsDigit(c)
  {
    c as int - '0' as int
  }

  function DigitChar(d: nat): (c: char)
    requires d < 10
    ensures IsDigit(c) && DigitValue(c) == d
  {
    (d + '0' as int) as char
  }

  predicate AllDigits(s: string) { forall i :: 0 <= i < |s| ==> IsDigit(s[i]) }

  function DigitsValue(s: string): nat
    requires AllDigits(s)
  {
    if s == [] then 0 else 10 * DigitsValue(s[..|s| - 1]) + DigitValue(s[|s| - 1])
  }

  /** Parses an optional plus sign and one or more digits of a number that fits 64 bits. */
  function ParseUnsigned(s: string): Option<nat> {
    var digits := if |s| > 0 && s[0] == '+' then s[1..] else s;
    if digits != [] && AllDigits(digits) && DigitsValue(digits) <= U64_MAX
    then Some(DigitsValue(digits)) else None
  }

  function ToDecimal(n: nat): (s: string)
    ensures s != [] && AllDigits(s)
  {
    if n < 10 then [DigitChar(n)] else ToDecimal(n / 10) + [DigitChar(n % 10)]
  }

  lemma {:induction false} DecimalValue(n: nat)
    ensures DigitsValue(ToDecimal(n)) == n
  {
    if n >= 10 {
      DecimalValue(n / 10);
      assert ToDecimal(n)[..|ToDecimal(n)| - 1] == ToDecimal(n / 10);
    }
  }

  /** Parsing undoes printing. */
  lemma ParseOfDecimal(n: nat)
    requires n <= U64_MAX
    ensures ParseUnsigned(ToDecimal(n)) == Some(n)
  {
    DecimalValue(n);
    assert IsDigit(ToDecimal(n)[0]);
  }

  /** Parses an optional sign and one or more digits of a number that fits 32 bits. */
  function ParseI32(s: string): Option<I32> {
    var negative := s != [] && s[0] == '-';
    var digits := if s != [] && (s[0] == '+' || s[0] == '-') then s[1..] else s;
    if digits == [] || !AllDigits(digits) then None
    else
      var value := if negative then 0 - DigitsValue(digits) else DigitsValue(digits);
      if FitsI32(value) then Some(value) else None
  }

  function SignedDecimal(i: int): string {
    if i < 0 then "-" + ToDecimal(0 - i) else ToDecimal(i)
  }

  lemma ParseOfSignedDecimal(i: I32)
    ensures ParseI32(SignedDecimal(i)) == Some(i)
  {
    var n: nat := if i < 0 then 0 - i else i;
    DecimalValue(n);
    assert IsDigit(ToDecimal(n)[0]);
    assert i < 0 ==> SignedDecimal(i)[1..] == ToDecimal(n);
  }
}
