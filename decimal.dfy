/** Python's decimal rendering of an integer (`str(a)`, `f"{a}"`), used to build
    group identifiers, together with the parser that inverts it. */
module Decimal {
  import opened Sequences

  predicate IsDigit(c: char)
  {
    '0' <= c <= '9'
  }

  predicate AllDigits(s: string)
  {
    forall k :: 0 <= k < |s| ==> IsDigit(s[k])
  }

  function DigitChar(d: nat): (c: char)
    requires d < 10
    ensures IsDigit(c) && c as int - '0' as int == d
  {
    ('0' as int + d) as char
  }

  /** Decimal digits of n, most significant first, without leading zeros. */
  function NatDigits(n: nat): (s: string)
    ensures |s| > 0 && AllDigits(s)
    ensures |s| > 1 ==> s[0] != '0'
    decreases n
  {
    if n < 10 then [DigitChar(n)]
    else NatDigits(n / 10) + [DigitChar(n % 10)]
  }

  /** The string Python prints for the integer n: a minus sign exactly for negative n,
      then the digits of its magnitude. */
  function Str(n: int): (s: string)
    ensures |s| > 0 && (s[0] == '-' <==> n < 0)
    ensures n < 0 ==> |s| > 1 && AllDigits(s[1..])
    ensures n >= 0 ==> AllDigits(s)
  {
    if n < 0 then "-" + NatDigits(-n) else NatDigits(n)
  }

  /** The value of a string of decimal digits. */
  function DigitsValue(s: string): (v: nat)
    requires AllDigits(s)
    decreases |s|
  {
    if s == [] then 0
    else 10 * DigitsValue(DropLast(s)) + (Last(s) as int - '0' as int)
  }

  /** A string Python's int() accepts in the form Str produces: an optional minus sign and digits. */
  predicate IsDecimal(s: string)
  {
    if |s| > 0 && s[0] == '-' then |s| > 1 && AllDigits(s[1..])
    else |s| > 0 && AllDigits(s)
  }

  function ParseInt(s: string): (n: int)
    requires IsDecimal(s)
  {
    if s[0] == '-' then -(DigitsValue(s[1..]) as int) else DigitsValue(s)
  }

  lemma {:induction false} DigitsRoundTrip(n: nat)
    ensures DigitsValue(NatDigits(n)) == n
    decreases n
  {
    if n >= 10 {
      DigitsRoundTrip(n / 10);
      var s := NatDigits(n);
      assert DropLast(s) == NatDigits(n / 10);
      assert Last(s) == DigitChar(n % 10);
    }
  }

  /** Parsing what Str prints gives back the integer. */
  lemma StrRoundTrip(n: int)
    ensures IsDecimal(Str(n)) && ParseInt(Str(n)) == n
  {
    if n < 0 {
      DigitsRoundTrip(-n);
      assert Str(n)[1..] == NatDigits(-n);
    } else {
      DigitsRoundTrip(n);
      assert Str(n)[0] != '-';
    }
  }

  /** Distinct integers print as distinct strings. */
  lemma StrInjective(m: int, n: int)
    ensures Str(m) == Str(n) <==> m == n
  {
    StrRoundTrip(m);
    StrRoundTrip(n);
  }
}
