/**
  The instant arithmetic behind the udf `get_timestamp`
  (`datetime.utcfromtimestamp(int(ts) / 1000)`) and the engine's field
  functions `hour`, `dayofmonth`, `weekofyear`, `month`, `year` and
  `dayofweek` applied to its result, all in UTC.
 */
module UtcTime {
  import opened Wrappers
  import opened Calendar

  const MillisPerSecond := 1000
  const MillisPerDay := 86_400_000

  /** Python's `datetime` covers the years MinYear .. MaxYear. */
  const MinYear := 1
  const MaxYear := 9999

  /** A UTC instant broken into calendar fields, at millisecond precision. */
  datatype DateTime = DateTime(
    year: int, month: int, day: int,
    hour: int, minute: int, second: int, millisecond: int)

  predicate Valid(t: DateTime) {
    && ValidDate(t.year, t.month, t.day)
    && 0 <= t.hour < 24 && 0 <= t.minute < 60 && 0 <= t.second < 60
    && 0 <= t.millisecond < 1000
  }

  /** The values of the engine's TimestampType: DateTimes whose fields are all in range. */
  type Instant = t: DateTime | Valid(t) witness DateTime(1970, 1, 1, 0, 0, 0, 0)

  /** Milliseconds since midnight of the time of day in `t`. */
  function MillisOfDay(t: DateTime): int {
    ((t.hour * 60 + t.minute) * 60 + t.second) * MillisPerSecond + t.millisecond
  }

  /** Milliseconds since 1970-01-01T00:00:00Z of the instant `t` names. */
  function ToEpochMillis(t: Instant): int {
    DaysFromCivil(t.year, t.month, t.day) * MillisPerDay + MillisOfDay(t)
  }

  /** `x / k == q` and `x % k == r` for the divisors of the clock, given `x == q * k + r`. */
  lemma DivModOf(x: int, k: int, q: int, r: int)
    requires k == 60 || k == MillisPerSecond || k == MillisPerDay
    requires x == q * k + r && 0 <= r < k
    ensures x / k == q && x % k == r
  {
  }

  /**
    The UTC fields of `ms` milliseconds after the epoch. Floor division, so an
    instant before 1970 falls in the day, hour, minute and second that hold it.
   */
  function FromEpochMillis(ms: int): (t: Instant)
    ensures ToEpochMillis(t) == ms
  {
    var days, inDay := ms / MillisPerDay, ms % MillisPerDay;
    var seconds, millis := inDay / MillisPerSecond, inDay % MillisPerSecond;
    var minutes, second := seconds / 60, seconds % 60;
    var hour, minute := minutes / 60, minutes % 60;
    var (y, m, d) := CivilFromDays(days);
    DateTime(y, m, d, hour, minute, second, millis)
  }

  /** Every valid DateTime is the decomposition of its own instant. */
  lemma FromToEpochMillis(t: Instant)
    ensures FromEpochMillis(ToEpochMillis(t)) == t
  {
    var days := DaysFromCivil(t.year, t.month, t.day);
    var minutes := t.hour * 60 + t.minute;
    var seconds := minutes * 60 + t.second;
    var inDay := seconds * MillisPerSecond + t.millisecond;
    assert 0 <= inDay < MillisPerDay;
    DivModOf(ToEpochMillis(t), MillisPerDay, days, inDay);
    DivModOf(inDay, MillisPerSecond, seconds, t.millisecond);
    DivModOf(seconds, 60, minutes, t.second);
    DivModOf(minutes, 60, t.hour, t.minute);
    CivilFromDaysFromCivil(t.year, t.month, t.day);
  }

  /** Two timestamps name the same instant only when they are equal. */
  lemma FromEpochMillisInjective(a: int, b: int)
    requires FromEpochMillis(a) == FromEpochMillis(b)
    ensures a == b
  {
  }

  /**
    `datetime.utcfromtimestamp(ms / 1000)`: the instant, or None where Python
    raises ValueError because the year falls outside MinYear .. MaxYear.
   */
  function UtcFromTimestamp(ms: int): (r: Option<Instant>)
    ensures r.Some? ==> ToEpochMillis(r.value) == ms
    ensures r.Some? ==> MinYear <= r.value.year <= MaxYear
    ensures r.None? <==> !(MinYear <= FromEpochMillis(ms).year <= MaxYear)
  {
    var t := FromEpochMillis(ms);
    if MinYear <= t.year <= MaxYear then Some(t) else None
  }

  lemma YearDayBounds(n: int)
    ensures DaysBeforeYear(YearDay(n).0) <= n < DaysBeforeYear(YearDay(n).0 + 1)
  {
    NextYear(YearDay(n).0);
  }

  /** The year of a day number lies in lo .. hi exactly when the day lies between their January firsts. */
  lemma YearInRange(n: int, lo: int, hi: int)
    requires lo <= hi
    ensures lo <= YearDay(n).0 <= hi <==> DaysBeforeYear(lo) <= n < DaysBeforeYear(hi + 1)
  {
    YearAtLeast(n, lo);
    YearAtMost(n, hi);
  }

  lemma YearAtLeast(n: int, lo: int)
    ensures lo <= YearDay(n).0 <==> DaysBeforeYear(lo) <= n
  {
    var y := YearDay(n).0;
    YearDayBounds(n);
    if lo <= y {
      DaysBeforeYearMonotone(lo, y);
    } else {
      DaysBeforeYearMonotone(y + 1, lo);
    }
  }

  lemma YearAtMost(n: int, hi: int)
    ensures YearDay(n).0 <= hi <==> n < DaysBeforeYear(hi + 1)
  {
    var y := YearDay(n).0;
    YearDayBounds(n);
    if y <= hi {
      DaysBeforeYearMonotone(y + 1, hi + 1);
    } else {
      DaysBeforeYearMonotone(hi + 1, y);
    }
  }

  /**
    The timestamps Python accepts are exactly those from
    0001-01-01T00:00:00.000Z to 9999-12-31T23:59:59.999Z.
   */
  lemma {:induction false} UtcFromTimestampDomain(ms: int)
    ensures UtcFromTimestamp(ms).Some? <==> -62_135_596_800_000 <= ms <= 253_402_300_799_999
  {
    var days := ms / MillisPerDay;
    assert FromEpochMillis(ms).year == YearDay(days).0;
    assert ms == days * MillisPerDay + ms % MillisPerDay;
    YearInRange(days, MinYear, MaxYear);
    assert DaysBeforeYear(MinYear) == -719_162;
    assert DaysBeforeYear(MaxYear + 1) == 2_932_897;
  }

  /** `weekofyear`: the ISO 8601 week number of the instant's date. */
  function WeekOfYear(t: Instant): (w: int)
    ensures 1 <= w <= 53
  {
    IsoWeek(DaysFromCivil(t.year, t.month, t.day))
  }

  /** `dayofweek`: 1 = Sunday .. 7 = Saturday. */
  function Weekday(t: Instant): (w: int)
    ensures 1 <= w <= 7
  {
    DayOfWeek(DaysFromCivil(t.year, t.month, t.day))
  }

  /** ts = 946684800000 is 2000-01-01T00:00:00Z, a Saturday in ISO week 52 of 1999. */
  lemma Y2K()
    ensures UtcFromTimestamp(946_684_800_000) == Some(DateTime(2000, 1, 1, 0, 0, 0, 0))
    ensures Weekday(DateTime(2000, 1, 1, 0, 0, 0, 0)) == 7
    ensures WeekOfYear(DateTime(2000, 1, 1, 0, 0, 0, 0)) == 52
  {
    Y2KInstant();
    Y2KWeek();
  }

  lemma Y2KInstant()
    ensures FromEpochMillis(946_684_800_000) == DateTime(2000, 1, 1, 0, 0, 0, 0)
  {
    var t := DateTime(2000, 1, 1, 0, 0, 0, 0);
    assert DaysFromCivil(2000, 1, 1) == 10957;
    assert ToEpochMillis(t) == 946_684_800_000;
    FromToEpochMillis(t);
  }

  lemma Y2KWeek()
    ensures Weekday(DateTime(2000, 1, 1, 0, 0, 0, 0)) == 7
    ensures WeekOfYear(DateTime(2000, 1, 1, 0, 0, 0, 0)) == 52
  {
    assert DaysFromCivil(2000, 1, 1) == 10957;
    assert WeekThursday(10957) == 10955;
    YearDayUnique(10955, 1999, 363);
  }
}
