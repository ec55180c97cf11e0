/**
  Decimal spelling of integers, as JavaScript's `String(n)` and string
  concatenation (`'"' + n + '"'`) produce it for integers well below 10^21,
  together with a parser that undoes it.
 */
module Decimal {
  import opened Wrappers

  predicate IsDigit(c: char) {
    '0' <= c <= '9'
  }

  predicate AllDigits(s: string) {
    forall i :: 0 <= i < |s| ==> IsDigit(s[i])
  }

  function DigitChar(d: nat): (c: char)
    requires d < 10
    ensures IsDigit(c)
    ensures DigitValue(c) == d
  {
    (('0' as int) + d) as char
  }

  function DigitValue(c: char): (d: nat)
    requires IsDigit(c)
    ensures d < 10
  {
    (c as int) - ('0' as int)
  }

  /** The canonical decimal spelling of n: only digits, and no leading zero unless n is 0. */
  function FromNat(n: nat): (s: string)
    ensures |s| >= 1
    ensures AllDigits(s)
    ensures s[0] == '0' ==> n == 0
    ensures n < 10 <==> |s| == 1
    decreases n
  {
    if n < 10 then [DigitChar(n)] else FromNat(n / 10) + [DigitChar(n % 10)]
  }

  /** The spelling of a possibly negative integer: a minus sign before the spelling of its magnitude. */
  function FromInt(i: int): (s: string)
    ensures |s| >= 1
    ensures s[0] == '-' <==> i < 0
    ensures i < 0 ==> s[1..] == FromNat(-i)
    ensures i >= 0 ==> s == FromNat(i)
  {
    if i < 0 then "-" + FromNat(-i) else FromNat(i)
  }

  /** The value of a string of digits, most significant first. */
  function DigitsValue(s: string): (n: nat)
    requires AllDigits(s)
    decreases |s|
  {
    if |s| == 0 then 0 else DigitsValue(s[..|s| - 1]) * 10 + DigitValue(s[|s| - 1])
  }

  /** Reads a non-empty string of digits; anything else is rejected. */
  function ParseNat(s: string): (r: Option<nat>)
    ensures r.Some? <==> |s| >= 1 && AllDigits(s)
  {
    if |s| >= 1 && AllDigits(s) then Some(DigitsValue(s)) else None
  }

  /** Reads an optional minus sign followed by a non-empty string of digits. */
  function ParseInt(s: string): (r: Option<int>)
    ensures |s| >= 1 && s[0] == '-' && r.Some? ==> r.value <= 0
    ensures (|s| == 0 || s[0] != '-') ==> r.Some? == ParseNat(s).Some?
  {
    if |s| >= 1 && s[0] == '-' then
      match ParseNat(s[1..])
      case Some(n) => Some(-(n as int))
      case None => None
    else
      match ParseNat(s)
      case Some(n) => Some(n as int)
      case None => None
  }

  lemma {:induction false} DigitsValueFromNat(n: nat)
    ensures DigitsValue(FromNat(n)) == n
    decreases n
  {
    var s := FromNat(n);
    if n < 10 {
      assert s[..0] == [];
    } else {
      DigitsValueFromNat(n / 10);
      assert s[..|s| - 1] == FromNat(n / 10);
    }
  }

  /** Parsing the spelling of a natural number gives the number back. */
  lemma ParseFromNat(n: nat)
    ensures ParseNat(FromNat(n)) == Some(n)
  {
    DigitsValueFromNat(n);
  }

  /** Parsing the spelling of any integer gives the integer back. */
  lemma ParseFromInt(i: int)
    ensures ParseInt(FromInt(i)) == Some(i)
  {
    if i < 0 {
      ParseFromNat(-i);
    } else {
      ParseFromNat(i);
    }
  }

  /** Distinct numbers are spelled differently. */
  lemma FromIntInjective(i: int, j: int)
    requires FromInt(i) == FromInt(j)
    ensures i == j
  {
    ParseFromInt(i);
    ParseFromInt(j);
  }
}
