/**
  Proleptic Gregorian calendar arithmetic on day numbers, where day 0 is
  1970-01-01. This is the calendar Python's `datetime` uses for
  `utcfromtimestamp`, and the one the engine's date functions use on its
  result: day of month, month, year, ISO 8601 week of year and day of week.
 */
module Calendar {

  predicate IsLeapYear(y: int) {
    y % 4 == 0 && (y % 100 != 0 || y % 400 == 0)
  }

  function DaysInYear(y: int): int {
    if IsLeapYear(y) then 366 else 365
  }

  function DaysInMonth(y: int, m: int): int
    requires 1 <= m <= 12
  {
    if m == 2 then (if IsLeapYear(y) then 29 else 28)
    else if m == 4 || m == 6 || m == 9 || m == 11 then 30
    else 31
  }

  /** A day of a month that exists: 1 <= m <= 12 and 1 <= d <= the length of that month. */
  predicate ValidDate(y: int, m: int, d: int) {
    1 <= m <= 12 && 1 <= d <= DaysInMonth(y, m)
  }

  /** The number of leap years in 1 .. y - 1 (floor division extends it to every y). */
  function LeapYearsBefore(y: int): int {
    (y - 1) / 4 - (y - 1) / 100 + (y - 1) / 400
  }

  /** The day number of January 1 of year `y`. */
  function DaysBeforeYear(y: int): int {
    365 * (y - 1970) + LeapYearsBefore(y) - LeapYearsBefore(1970)
  }

  /** Days in the months of year `y` before month `m`; `m == 13` gives the whole year. */
  function DaysBeforeMonth(y: int, m: int): int
    requires 1 <= m <= 13
  {
    var leap := if m > 2 && IsLeapYear(y) then 1 else 0;
    leap + (
      if m == 1 then 0 else if m == 2 then 31 else if m == 3 then 59
      else if m == 4 then 90 else if m == 5 then 120 else if m == 6 then 151
      else if m == 7 then 181 else if m == 8 then 212 else if m == 9 then 243
      else if m == 10 then 273 else if m == 11 then 304 else if m == 12 then 334
      else 365)
  }

  /** The day number of the date y-m-d. */
  function DaysFromCivil(y: int, m: int, d: int): int
    requires 1 <= m <= 12
  {
    DaysBeforeYear(y) + DaysBeforeMonth(y, m) + d - 1
  }

  /** Floor division by a divisor the leap rule uses steps up exactly at its multiples. */
  lemma QuotientStep(y: int, k: int)
    requires k == 4 || k == 100 || k == 400
    ensures y / k - (y - 1) / k == if y % k == 0 then 1 else 0
  {
    var q, r := (y - 1) / k, (y - 1) % k;
    assert y - 1 == k * q + r && 0 <= r < k;
    if r + 1 < k {
      assert y == k * q + (r + 1);
      assert y / k == q && y % k == r + 1;
    } else {
      assert y == k * (q + 1);
      assert y / k == q + 1 && y % k == 0;
    }
  }

  lemma NextYear(y: int)
    ensures DaysBeforeYear(y + 1) == DaysBeforeYear(y) + DaysInYear(y)
  {
    QuotientStep(y, 4);
    QuotientStep(y, 100);
    QuotientStep(y, 400);
  }

  lemma NextMonth(y: int, m: int)
    requires 1 <= m <= 12
    ensures DaysBeforeMonth(y, m + 1) == DaysBeforeMonth(y, m) + DaysInMonth(y, m)
  {
  }

  /** Every 400 years hold 146097 days. */
  lemma FourHundredYears(c: int)
    ensures DaysBeforeYear(1970 + 400 * c) == 146097 * c
  {
    assert (1969 + 400 * c) / 4 == 492 + 100 * c;
    assert (1969 + 400 * c) / 100 == 19 + 4 * c;
    assert (1969 + 400 * c) / 400 == 4 + c;
  }

  lemma {:induction false} DaysBeforeYearMonotone(a: int, b: int)
    requires a <= b
    ensures DaysBeforeYear(a) <= DaysBeforeYear(b)
    decreases b - a
  {
    if a < b {
      NextYear(a);
      DaysBeforeYearMonotone(a + 1, b);
    }
  }

  lemma {:induction false} DaysBeforeMonthMonotone(y: int, a: int, b: int)
    requires 1 <= a <= b <= 13
    ensures DaysBeforeMonth(y, a) <= DaysBeforeMonth(y, b)
    decreases b - a
  {
    if a < b {
      NextMonth(y, a);
      DaysBeforeMonthMonotone(y, a + 1, b);
    }
  }

  /** Starting from January 1 of `y`, walk whole years until `r` days are used up. */
  function YearWithin(y: int, r: int): (res: (int, int))
    requires 0 <= r
    ensures DaysBeforeYear(res.0) + res.1 == DaysBeforeYear(y) + r
    ensures 0 <= res.1 < DaysInYear(res.0)
    decreases r
  {
    if r < DaysInYear(y) then (y, r)
    else
      NextYear(y);
      YearWithin(y + 1, r - DaysInYear(y))
  }

  /**
    The year that day `n` falls in, and its 0-based ordinal within that year:
    whole 400-year cycles first, then single years.
   */
  function YearDay(n: int): (res: (int, int))
    ensures DaysBeforeYear(res.0) + res.1 == n
    ensures 0 <= res.1 < DaysInYear(res.0)
  {
    var cycles := n / 146097;
    FourHundredYears(cycles);
    YearWithin(1970 + 400 * cycles, n % 146097)
  }

  /** A day has exactly one (year, ordinal) decomposition. */
  lemma YearDayUnique(n: int, y: int, r: int)
    requires DaysBeforeYear(y) + r == n
    requires 0 <= r < DaysInYear(y)
    ensures YearDay(n) == (y, r)
  {
    var (y', r') := YearDay(n);
    if y < y' {
      NextYear(y);
      DaysBeforeYearMonotone(y + 1, y');
    } else if y' < y {
      NextYear(y');
      DaysBeforeYearMonotone(y' + 1, y);
    }
  }

  /** The month, counting up from month `m`, that holds the 0-based ordinal `r` of year `y`. */
  function MonthWithin(y: int, m: int, r: int): (res: int)
    requires 1 <= m <= 12
    requires DaysBeforeMonth(y, m) <= r < DaysInYear(y)
    ensures m <= res <= 12
    ensures DaysBeforeMonth(y, res) <= r < DaysBeforeMonth(y, res + 1)
    decreases 12 - m
  {
    if m == 12 || r < DaysBeforeMonth(y, m + 1) then m
    else MonthWithin(y, m + 1, r)
  }

  /** The date of day `n`. */
  function CivilFromDays(n: int): (date: (int, int, int))
    ensures ValidDate(date.0, date.1, date.2)
    ensures DaysFromCivil(date.0, date.1, date.2) == n
  {
    var (y, r) := YearDay(n);
    var m := MonthWithin(y, 1, r);
    NextMonth(y, m);
    (y, m, r - DaysBeforeMonth(y, m) + 1)
  }

  /** Every valid date is the date of its own day number: the two functions are inverse bijections. */
  lemma CivilFromDaysFromCivil(y: int, m: int, d: int)
    requires ValidDate(y, m, d)
    ensures CivilFromDays(DaysFromCivil(y, m, d)) == (y, m, d)
  {
    var n := DaysFromCivil(y, m, d);
    var r := DaysBeforeMonth(y, m) + d - 1;
    NextMonth(y, m);
    DaysBeforeMonthMonotone(y, m + 1, 13);
    YearDayUnique(n, y, r);
    MonthWithinUnique(y, m, r);
  }

  /** The month that holds an ordinal is the one whose first day precedes it and whose successor's does not. */
  lemma MonthWithinUnique(y: int, m: int, r: int)
    requires 1 <= m <= 12
    requires 0 <= r < DaysInYear(y)
    requires DaysBeforeMonth(y, m) <= r < DaysBeforeMonth(y, m + 1)
    ensures MonthWithin(y, 1, r) == m
  {
    var m' := MonthWithin(y, 1, r);
    if m < m' {
      DaysBeforeMonthMonotone(y, m + 1, m');
    } else if m' < m {
      DaysBeforeMonthMonotone(y, m' + 1, m);
    }
  }

  /** Monday = 1 .. Sunday = 7; 1970-01-01 was a Thursday. */
  function IsoWeekday(n: int): (w: int)
    ensures 1 <= w <= 7
  {
    (n + 3) % 7 + 1
  }

  /**
    Spark's `dayofweek`: Sunday = 1 .. Saturday = 7. It is the ISO weekday
    moved by one, so that Sunday, ISO day 7, comes first.
   */
  function DayOfWeek(n: int): (w: int)
    ensures 1 <= w <= 7
    ensures w == IsoWeekday(n) % 7 + 1
  {
    (n + 4) % 7 + 1
  }

  /** The weekday of the next day. */
  lemma NextWeekday(n: int)
    ensures IsoWeekday(n + 1) == IsoWeekday(n) % 7 + 1
  {
    var q, w := (n + 3) / 7, (n + 3) % 7;
    assert n + 3 == 7 * q + w && 0 <= w < 7;
    if w < 6 {
      assert n + 4 == 7 * q + (w + 1);
      assert (n + 4) % 7 == w + 1;
    } else {
      assert n + 4 == 7 * (q + 1);
      assert (n + 4) % 7 == 0;
    }
  }

  /** The Thursday of the Monday-to-Sunday week that holds day `n`. */
  function WeekThursday(n: int): int {
    n - IsoWeekday(n) + 4
  }

  /**
    The ISO 8601 week number (section 4.1.4 of ISO 8601:2004): weeks run
    Monday to Sunday and belong to the year that holds their Thursday; the
    number counts the weeks of that year up to that Thursday.
   */
  function IsoWeek(n: int): (w: int)
    ensures 1 <= w <= 53
  {
    YearDay(WeekThursday(n)).1 / 7 + 1
  }

  /** The week that holds January 4 is week 1 of its year. */
  lemma {:induction false} January4IsInWeekOne(y: int)
    ensures IsoWeek(DaysFromCivil(y, 1, 4)) == 1
  {
    var n := DaysFromCivil(y, 1, 4);
    var thursday := WeekThursday(n);
    assert DaysBeforeYear(y) <= thursday <= DaysBeforeYear(y) + 6;
    YearDayUnique(thursday, y, thursday - DaysBeforeYear(y));
  }

  /** Monday to Sunday carry one week number. */
  lemma {:induction false} SameWeekUntilSunday(n: int)
    requires IsoWeekday(n) < 7
    ensures IsoWeek(n + 1) == IsoWeek(n)
  {
    NextWeekday(n);
    assert WeekThursday(n + 1) == WeekThursday(n);
  }

  /** Seven days later is the same year, or the next one when the year ends in between. */
  lemma YearDayPlusWeek(t: int)
    ensures YearDay(t + 7) ==
      if YearDay(t).1 + 7 < DaysInYear(YearDay(t).0) then (YearDay(t).0, YearDay(t).1 + 7)
      else (YearDay(t).0 + 1, YearDay(t).1 + 7 - DaysInYear(YearDay(t).0))
  {
    var (y, r) := YearDay(t);
    if r + 7 < DaysInYear(y) {
      YearDayUnique(t + 7, y, r + 7);
    } else {
      NextYear(y);
      YearDayUnique(t + 7, y + 1, r + 7 - DaysInYear(y));
    }
  }

  /** The week of the Thursday seven days later: the next number, or 1 once the year is over. */
  lemma WeekOfNextThursday(t: int)
    ensures var w, w' := YearDay(t).1 / 7 + 1, YearDay(t + 7).1 / 7 + 1;
      w' == w + 1 || (w' == 1 && w >= 52)
  {
    YearDayPlusWeek(t);
    var (y, r) := YearDay(t);
    var r' := YearDay(t + 7).1;
    if r + 7 < DaysInYear(y) {
      assert r' == r + 7;
      assert r' / 7 == r / 7 + 1;
    } else {
      assert r' < 7 && r >= 358;
      assert r' / 7 == 0 && r / 7 >= 51;
    }
  }

  /** After a Sunday the week number grows by one, or starts again at 1 after week 52 or 53. */
  lemma {:induction false} NextWeekAfterSunday(n: int)
    requires IsoWeekday(n) == 7
    ensures IsoWeek(n + 1) == IsoWeek(n) + 1 || (IsoWeek(n + 1) == 1 && IsoWeek(n) >= 52)
  {
    NextWeekday(n);
    var thursday := WeekThursday(n);
    assert WeekThursday(n + 1) == thursday + 7;
    WeekOfNextThursday(thursday);
  }
}
