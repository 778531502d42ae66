/**
 * Congress-session arithmetic of `Bill.currentSession`. The clock read
 * (`new Date().getYear()`) becomes the parameter `year`, which is what
 * `getYear` returns: the calendar year minus 1900, as a Java `int`.
 */
module Congress {
  import opened Decimal

  const TwoTo31: int := 0x8000_0000
  const TwoTo32: int := 0x1_0000_0000

  predicate IsInt32(x: int) { -TwoTo31 <= x < TwoTo31 }

  /** Two's-complement wrap-around of a Java `int` addition. */
  function Wrap32(x: int): (r: int)
    ensures IsInt32(r)
    ensures IsInt32(x) ==> r == x
    ensures TwoTo31 <= x < TwoTo32 + TwoTo31 ==> r == x - TwoTo32
    ensures (r - x) % TwoTo32 == 0
  {
    (x + TwoTo31) % TwoTo32 - TwoTo31
  }

  /** Java's `a / 2` on an `int`: the quotient is truncated toward zero. */
  function Half(a: int): (q: int)
    ensures a >= 0 ==> 0 <= 2 * q <= a <= 2 * q + 1
    ensures a < 0 ==> 2 * q - 1 <= a <= 2 * q <= 0
  {
    if a >= 0 then a / 2 else -((-a) / 2)
  }

  /** `((year + 1901) / 2) - 894` in Java `int` arithmetic. */
  function Session(year: int): (s: int)
    requires IsInt32(year)
    ensures IsInt32(s)
  {
    Half(Wrap32(year + 1901)) - 894
  }

  /** `currentSession()`: the session number rendered in decimal. */
  function CurrentSession(year: int): (r: string)
    requires IsInt32(year)
    ensures Session(year) >= 0 ==> r == NatToString(Session(year))
    ensures Session(year) < 0 ==> r == "-" + NatToString(-Session(year))
  {
    IntToString(Session(year))
  }

  /**
   * The session is the number of the Congress sitting in that calendar
   * year: the First Congress met in 1789 and each Congress sits for the
   * two-year term starting in an odd year.
   */
  lemma SessionOfCalendarYear(calendar: int)
    requires 1789 <= calendar < TwoTo31 - 1
    ensures Session(calendar - 1900) == (calendar - 1789) / 2 + 1
  {
    assert Wrap32(calendar - 1900 + 1901) == calendar + 1;
  }

  lemma SessionExamples()
    ensures Session(2009 - 1900) == 111
    ensures Session(2010 - 1900) == 111
    ensures Session(2011 - 1900) == 112
    ensures CurrentSession(2010 - 1900) == "111"
  {
    SessionOfCalendarYear(2009);
    SessionOfCalendarYear(2010);
    SessionOfCalendarYear(2011);
    assert NatToString(111) == NatToString(11) + [DigitChar(1)];
    assert NatToString(11) == NatToString(1) + [DigitChar(1)];
  }

  /** The session never goes down as the year goes up, until `year + 1901` overflows. */
  lemma SessionMonotone(y1: int, y2: int)
    requires IsInt32(y1) && IsInt32(y2)
    requires y1 <= y2 < TwoTo31 - 1901
    ensures Session(y1) <= Session(y2)
  {
  }

  /** An odd calendar year and the even year after it share a session. */
  lemma SessionTermPair(year: int)
    requires -1901 <= year < TwoTo31 - 1902
    requires (year + 1900) % 2 == 1
    ensures Session(year) == Session(year + 1)
  {
  }

  /** Every two years the session number grows by exactly one. */
  lemma SessionStep(year: int)
    requires -1901 <= year < TwoTo31 - 1903
    ensures Session(year + 2) == Session(year) + 1
  {
  }

  /** At the top of the `int` range `year + 1901` wraps and the session turns negative. */
  lemma SessionOverflow()
    ensures Session(TwoTo31 - 1) < 0 < Session(TwoTo31 - 1902)
  {
  }
}
