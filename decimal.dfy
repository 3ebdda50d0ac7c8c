/**
  Decimal text of integers, as JavaScript prints an integer-valued Number inside a
  template literal (`${n}`): an optional minus sign followed by the digits, without
  leading zeros. ParseInt reads such text back.
 */
module Decimal {

  import opened Values

  predicate IsDigit(c: char) {
    '0' <= c <= '9'
  }

  predicate AllDigits(s: string) {
    forall i :: 0 <= i < |s| ==> IsDigit(s[i])
  }

  function DigitChar(d: nat): (c: char)
    requires d < 10
    ensures IsDigit(c) && c as int - '0' as int == d
  {
    ('0' as int + d) as char
  }

  /** The decimal digits of n. */
  function NatToText(n: nat): (s: string)
    ensures |s| >= 1 && AllDigits(s)
    ensures s[0] == '0' ==> n == 0
    decreases n
  {
    if n < 10 then [DigitChar(n)] else NatToText(n / 10) + [DigitChar(n % 10)]
  }

  /** The text of an integer: a minus sign before the digits of a negative one. */
  function IntToText(n: int): (s: string)
    ensures |s| >= 1 && (s[0] == '-' <==> n < 0)
    ensures AllDigits(s[1..])
  {
    if n < 0 then "-" + NatToText(-n) else NatToText(n)
  }

  /** The value of a string of digits. */
  function DigitsValue(s: string): nat
    requires AllDigits(s)
  {
    if s == [] then 0 else DigitsValue(s[..|s| - 1]) * 10 + (s[|s| - 1] as int - '0' as int)
  }

  /** Reads an optional minus sign followed by at least one digit. */
  function ParseInt(s: string): (r: Option<int>)
  {
    if |s| >= 2 && s[0] == '-' && AllDigits(s[1..]) then Some(0 - DigitsValue(s[1..]) as int)
    else if |s| >= 1 && AllDigits(s) then Some(DigitsValue(s))
    else None
  }

  lemma {:induction false} NatTextRoundTrip(n: nat)
    ensures DigitsValue(NatToText(n)) == n
    decreases n
  {
    if n >= 10 {
      var s := NatToText(n);
      NatTextRoundTrip(n / 10);
      assert s[..|s| - 1] == NatToText(n / 10);
    }
  }

  /** Reading the text of n gives back n. */
  lemma IntTextRoundTrip(n: int)
    ensures ParseInt(IntToText(n)) == Some(n)
  {
    if n < 0 {
      NatTextRoundTrip(-n);
      assert IntToText(n)[1..] == NatToText(-n);
    } else {
      NatTextRoundTrip(n);
    }
  }
}
