/** The .NET conversions between integers and their decimal text that the core relies on. */
module Formatting {
  import opened Wrappers

  /** Decimal digits of a natural number, most significant first. */
  function NatToString(n: nat): (s: string)
    ensures |s| > 0 && forall k :: 0 <= k < |s| ==> '0' <= s[k] <= '9'
  {
    if n < 10 then [Digit(n)] else NatToString(n / 10) + [Digit(n % 10)]
  }

  function Digit(n: nat): (c: char)
    requires n < 10
    ensures '0' <= c <= '9'
  {
    "0123456789"[n]
  }

  /** `int.ToString()`: a minus sign before the digits of a negative number. */
  function IntToString(n: int): (s: string)
    ensures ' ' !in s
  {
    if n < 0 then "-" + NatToString(-n) else NatToString(n)
  }

  /** The value of a string of decimal digits. */
  function DigitsValue(s: string): nat
    requires |s| > 0 && forall k :: 0 <= k < |s| ==> '0' <= s[k] <= '9'
  {
    var last := (s[|s| - 1] as int - '0' as int) as nat;
    if |s| == 1 then last else DigitsValue(s[..|s| - 1]) * 10 + last
  }

  predicate AllDigits(s: string)
  {
    |s| > 0 && forall k :: 0 <= k < |s| ==> '0' <= s[k] <= '9'
  }

  /** `int.Parse` on the strings `IntToString` writes. */
  function ParseInt(s: string): Option<int>
  {
    if |s| > 0 && s[0] == '-' then
      if AllDigits(s[1..]) then var v: int := DigitsValue(s[1..]); Some(-v) else None
    else if AllDigits(s) then Some(DigitsValue(s)) else None
  }

  lemma {:induction false} NatToStringValue(n: nat)
    ensures DigitsValue(NatToString(n)) == n
  {
    if n >= 10 {
      NatToStringValue(n / 10);
      var s := NatToString(n);
      assert s[..|s| - 1] == NatToString(n / 10);
      assert "0123456789"[n % 10] as int - '0' as int == n % 10;
    } else {
      assert "0123456789"[n] as int - '0' as int == n;
    }
  }

  /** Reading back what `IntToString` wrote gives the number. */
  lemma IntToStringRoundTrip(n: int)
    ensures ParseInt(IntToString(n)) == Some(n)
  {
    if n < 0 {
      NegativeRoundTrip(n);
    } else {
      NatRoundTrip(n);
    }
  }

  lemma NatRoundTrip(n: nat)
    ensures ParseInt(NatToString(n)) == Some(n)
  {
    var s := NatToString(n);
    NatToStringValue(n);
    assert s[0] != '-';
    assert AllDigits(s);
  }

  lemma NegativeRoundTrip(n: int)
    requires n < 0
    ensures ParseInt(IntToString(n)) == Some(n)
  {
    var m: nat := -n;
    var digits := NatToString(m);
    assert IntToString(n) == "-" + digits;
    NatToStringValue(m);
    ParseNegative(digits, m);
  }

  /** A minus sign before digits of value `v` reads as `-v`. */
  lemma ParseNegative(digits: string, v: nat)
    requires AllDigits(digits) && DigitsValue(digits) == v
    ensures ParseInt("-" + digits) == Some(-(v as int))
  {
    var s := "-" + digits;
    assert s[1..] == digits;
    assert s[0] == '-';
  }
}
