/**
 * Base-10 rendering of integers, as a JavaScript template literal prints an
 * integral Number, and the parser that inverts it.
 */
module Decimal {

  predicate IsDigit(c: char) {
    '0' <= c <= '9'
  }

  predicate AllDigits(s: string) {
    forall i :: 0 <= i < |s| ==> IsDigit(s[i])
  }

  function DigitChar(d: nat): (c: char)
    requires d < 10
    ensures IsDigit(c)
    ensures c as int - '0' as int == d
  {
    ('0' as int + d) as char
  }

  /** Digits of `n` without leading zeros. */
  function NatToString(n: nat): (s: string)
    ensures |s| >= 1
    ensures AllDigits(s)
    ensures |s| > 1 ==> s[0] != '0'
    decreases n
  {
    if n < 10 then [DigitChar(n)] else NatToString(n / 10) + [DigitChar(n % 10)]
  }

  /** The value a string of decimal digits denotes. */
  function ParseNat(s: string): nat
    requires AllDigits(s)
    decreases |s|
  {
    if |s| == 0 then 0
    else ParseNat(s[..|s| - 1]) * 10 + (s[|s| - 1] as int - '0' as int)
  }

  lemma {:induction false} ParseNatToString(n: nat)
    ensures ParseNat(NatToString(n)) == n
    decreases n
  {
    var s := NatToString(n);
    if n >= 10 {
      ParseNatToString(n / 10);
      assert s[..|s| - 1] == NatToString(n / 10);
    }
  }

  /** A JavaScript integer as a template literal prints it: a minus sign, then the digits. */
  function IntToString(k: int): (s: string)
    ensures IsIntText(s)
    ensures k >= 0 ==> AllDigits(s)
    ensures k < 0 ==> s[0] == '-'
  {
    if k >= 0 then NatToString(k) else "-" + NatToString(-k)
  }

  /** Digits, optionally after a minus sign. */
  predicate IsIntText(s: string) {
    |s| >= 1 && ((s[0] == '-' && AllDigits(s[1..])) || AllDigits(s))
  }

  /** The value a rendering with an optional leading minus sign denotes. */
  function ParseInt(s: string): int
    requires IsIntText(s)
  {
    if s[0] == '-' then -(ParseNat(s[1..]) as int) else ParseNat(s) as int
  }

  lemma ParseIntToString(k: int)
    ensures ParseInt(IntToString(k)) == k
  {
    if k >= 0 {
      ParseNatToString(k);
    } else {
      var s := IntToString(k);
      assert s[1..] == NatToString(-k);
      ParseNatToString(-k);
    }
  }
}
