/** Wall-clock times written with zero-padded two-digit fields, `HH:MM` and `HH:MM:SS`. */
module Clock {
  import opened Strings
  import opened Decimal
  import opened Lists

  /** `f"{h:02d}:{m:02d}"`. */
  function ClockMinutes(h: int, m: int): string {
    Format02(h) + ":" + Format02(m)
  }

  /** `f"{h:02d}:{m:02d}:{s:02d}"`. */
  function ClockSeconds(h: int, m: int, s: int): string {
    Format02(h) + ":" + Format02(m) + ":" + Format02(s)
  }

  /** Two-digit fields split back into themselves. */
  lemma {:induction false} ClockMinutesSplit(h: int, m: int)
    requires 0 <= h < 100 && 0 <= m < 100
    ensures Split(ClockMinutes(h, m), ':') == [Format02(h), Format02(m)]
  {
    SplitAfter(Format02(h), ':', Format02(m));
    SplitNone(Format02(m), ':');
  }

  lemma {:induction false} ClockSecondsSplit(h: int, m: int, s: int)
    requires 0 <= h < 100 && 0 <= m < 100 && 0 <= s < 100
    ensures Split(ClockSeconds(h, m, s), ':') == [Format02(h), Format02(m), Format02(s)]
  {
    assert ClockSeconds(h, m, s) == Format02(h) + [':'] + (Format02(m) + [':'] + Format02(s));
    SplitAfter(Format02(h), ':', Format02(m) + [':'] + Format02(s));
    SplitAfter(Format02(m), ':', Format02(s));
    SplitNone(Format02(s), ':');
  }

  /** Comparing two-digit fields as text compares their values. */
  lemma {:induction false} TwoDigitOrder(p: int, q: int, x: string, y: string)
    requires 0 <= p < 100 && 0 <= q < 100
    ensures StrLe(Format02(p) + x, Format02(q) + y) <==> p < q || (p == q && StrLe(x, y))
  {
    Format02Digits(p);
    Format02Digits(q);
    var a, b := DigitChar(p / 10), DigitChar(p % 10);
    var c, d := DigitChar(q / 10), DigitChar(q % 10);
    assert Format02(p) + x == [a] + ([b] + x);
    assert Format02(q) + y == [c] + ([d] + y);
    StrLeCons(a, [b] + x, c, [d] + y);
    StrLeCons(b, x, d, y);
  }

  /**
   * `HH:MM` strings sort as the times they denote: Python's string order on
   * them is the order of the clock, so `sorted` puts a day's times in
   * chronological order.
   */
  lemma {:induction false} ClockOrder(h1: int, m1: int, h2: int, m2: int)
    requires 0 <= h1 < 100 && 0 <= m1 < 100 && 0 <= h2 < 100 && 0 <= m2 < 100
    ensures StrLe(ClockMinutes(h1, m1), ClockMinutes(h2, m2)) <==> h1 < h2 || (h1 == h2 && m1 <= m2)
  {
    TwoDigitOrder(h1, h2, ":" + Format02(m1), ":" + Format02(m2));
    StrLeCons(':', Format02(m1), ':', Format02(m2));
    assert Format02(m1) == Format02(m1) + [] && Format02(m2) == Format02(m2) + [];
    TwoDigitOrder(m1, m2, [], []);
    assert ClockMinutes(h1, m1) == Format02(h1) + (":" + Format02(m1));
    assert ClockMinutes(h2, m2) == Format02(h2) + (":" + Format02(m2));
  }
}
