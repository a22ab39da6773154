/**
 * Decimal integers as Python reads and writes them: `int(s)`, `str(n)` and
 * the `{n:02d}` format used for clock fields.
 */
module Decimal {
  import opened Wrappers

  predicate IsDigit(c: char) {
    '0' <= c <= '9'
  }

  predicate AllDigits(s: string) {
    forall i :: 0 <= i < |s| ==> IsDigit(s[i])
  }

  function DigitValue(c: char): (d: nat)
    requires IsDigit(c)
    ensures d < 10
  {
    c as int - '0' as int
  }

  function DigitChar(d: nat): (c: char)
    requires d < 10
    ensures IsDigit(c) && DigitValue(c) == d
  {
    ('0' as int + d) as char
  }

  /** The value of a run of decimal digits (leading zeros allowed, as in `int("007")`). */
  function DigitsValue(s: string): nat
    requires AllDigits(s)
  {
    if |s| == 0 then 0 else DigitsValue(s[..|s| - 1]) * 10 + DigitValue(s[|s| - 1])
  }

  /**
   * Python's `int(s)` on an optional sign followed by one or more ASCII
   * digits; anything else is the ValueError case, here None.
   */
  function ParseInt(s: string): (r: Option<int>)
    ensures r.Some? ==> |s| > 0
    ensures r.Some? ==> forall i :: 0 <= i < |s| ==> IsDigit(s[i]) || (i == 0 && (s[i] == '-' || s[i] == '+'))
    ensures r.Some? && s[0] != '-' ==> r.value >= 0
  {
    if |s| > 0 && (s[0] == '-' || s[0] == '+') then
      var digits := s[1..];
      if |digits| > 0 && AllDigits(digits) then
        var v: int := if s[0] == '-' then -(DigitsValue(digits) as int) else DigitsValue(digits);
        Some(v)
      else None
    else if |s| > 0 && AllDigits(s) then Some(DigitsValue(s))
    else None
  }

  /** The two characters of `f"{n:02d}"` for `0 <= n < 100`: tens, then units. */
  lemma {:induction false} Format02Digits(n: int)
    requires 0 <= n < 100
    ensures Format02(n) == [DigitChar(n / 10), DigitChar(n % 10)]
  {
    if n >= 10 {
      assert NatToString(n) == NatToString(n / 10) + [DigitChar(n % 10)];
    }
  }

  /** A single digit reads as its value. */
  lemma {:induction false} ParseDigit(c: char)
    requires IsDigit(c)
    ensures ParseInt([c]) == Some(DigitValue(c))
  {
    assert DigitsValue([c]) == DigitsValue([]) * 10 + DigitValue(c);
  }

  /** `str(n)` for a natural number: digits without leading zeros that read back as `n`. */
  function NatToString(n: nat): (r: string)
    ensures |r| > 0 && AllDigits(r)
    ensures DigitsValue(r) == n
    ensures r[0] == '0' ==> n == 0
  {
    if n < 10 then [DigitChar(n)]
    else
      var r := NatToString(n / 10) + [DigitChar(n % 10)];
      assert r[..|r| - 1] == NatToString(n / 10);
      r
  }

  /** Python's `str(n)`; `int(str(n)) == n`. */
  function IntToString(n: int): (r: string)
    ensures ParseInt(r) == Some(n)
  {
    if n < 0 then
      var r := "-" + NatToString(-n);
      assert r[1..] == NatToString(-n);
      r
    else NatToString(n)
  }

  /** Python's `f"{n:02d}"`: at least two characters, zero-padded when `0 <= n < 10`. */
  function Format02(n: int): (r: string)
    ensures ParseInt(r) == Some(n)
    ensures 0 <= n < 100 ==> |r| == 2 && AllDigits(r)
  {
    if 0 <= n < 10 then
      var r := ['0', DigitChar(n)];
      assert r[..1] == ['0'] && ['0'][..0] == [];
      assert DigitsValue(r) == n;
      r
    else
      assert 0 <= n < 100 ==> NatToString(n) == NatToString(n / 10) + [DigitChar(n % 10)];
      IntToString(n)
  }
}
