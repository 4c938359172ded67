/** Decimal text and Swift's 64-bit `Int`: `Int(_: String)`, which the
    screen uses to read the year field, and `String(_: Int)`, which it uses to
    look the current year up in the year list. */
module Numerals {
  import opened Wrappers

  /** The range of Swift's `Int` on a 64-bit platform. */
  const IntMin := -0x8000_0000_0000_0000
  const IntMax := 0x7FFF_FFFF_FFFF_FFFF

  predicate IsDigit(c: char) {
    '0' <= c <= '9'
  }

  predicate AllDigits(s: string) {
    forall i :: 0 <= i < |s| ==> IsDigit(s[i])
  }

  function DigitValue(c: char): (d: nat)
    requires IsDigit(c)
    ensures d < 10
  {
    c as int - '0' as int
  }

  function DigitChar(d: nat): (c: char)
    requires d < 10
    ensures IsDigit(c) && DigitValue(c) == d
  {
    ('0' as int + d) as char
  }

  /** The value of a string of decimal digits, most significant first. */
  function DigitsValue(s: string): nat
    requires AllDigits(s)
  {
    if s == [] then 0 else DigitsValue(s[..|s| - 1]) * 10 + DigitValue(s[|s| - 1])
  }

  /** The shortest decimal numeral of `n`. */
  function NatToString(n: nat): (s: string)
    ensures |s| > 0 && AllDigits(s)
  {
    if n < 10 then [DigitChar(n)] else NatToString(n / 10) + [DigitChar(n % 10)]
  }

  /** `String(n)`: a minus sign for negative numbers, then the digits. */
  function IntToString(n: int): (s: string)
    ensures |s| > 0
    ensures s[0] == '-' <==> n < 0
  {
    if n < 0 then "-" + NatToString(-n) else NatToString(n)
  }

  /** `Int(s)`: an optional `+` or `-`, then one or more decimal digits and
      nothing else; a value outside the 64-bit range is rejected too. */
  function ParseInt(s: string): (r: Option<int>)
    ensures r.Some? ==> IntMin <= r.value <= IntMax
    ensures s == [] ==> r == None
  {
    if s == [] then None
    else
      var signed := s[0] == '-' || s[0] == '+';
      var digits := if signed then s[1..] else s;
      if digits == [] || !AllDigits(digits) then None
      else
        var magnitude: int := DigitsValue(digits);
        var v := if s[0] == '-' then -magnitude else magnitude;
        if IntMin <= v <= IntMax then Some(v) else None
  }

  /** Reading back the numeral of `n` gives `n`. */
  lemma {:induction false} NatToStringValue(n: nat)
    ensures DigitsValue(NatToString(n)) == n
  {
    var s := NatToString(n);
    if n >= 10 {
      NatToStringValue(n / 10);
      assert s[..|s| - 1] == NatToString(n / 10);
    }
  }

  /** Distinct numbers have distinct numerals: `String(_:)` is one-to-one. */
  lemma IntToStringInjective(a: int, b: int)
    requires IntToString(a) == IntToString(b)
    ensures a == b
  {
    if a < 0 {
      assert IntToString(a)[1..] == NatToString(-a);
      assert IntToString(b)[1..] == NatToString(-b);
      NatToStringValue(-a);
      NatToStringValue(-b);
    } else {
      NatToStringValue(a);
      NatToStringValue(b);
    }
  }

  /** `Int(String(n)) == n` for every 64-bit `n`. */
  lemma ParseIntToString(n: int)
    requires IntMin <= n <= IntMax
    ensures ParseInt(IntToString(n)) == Some(n)
  {
    var s := IntToString(n);
    if n < 0 {
      assert s[1..] == NatToString(-n);
      NatToStringValue(-n);
    } else {
      assert IsDigit(s[0]);
      NatToStringValue(n);
    }
  }

  /** Text with a character other than a digit (or a leading sign) is not a
      number: `Int` rejects it. */
  lemma ParseIntRejects(s: string, i: int)
    requires 0 <= i < |s| && !IsDigit(s[i])
    requires i == 0 ==> s[0] != '-' && s[0] != '+'
    ensures ParseInt(s) == None
  {
    if s[0] == '-' || s[0] == '+' {
      assert !IsDigit(s[1..][i - 1]);
    }
  }
}
