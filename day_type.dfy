/** `get_day_type` and `get_marketing_event` (time_utils.py): the label of a calendar day, read
    from its `'%Y-%m-%d'` rendering and, for weekends, from pandas' `dayofweek` (Monday = 0). */
module DayTypes {
  import opened Text

  /** A `pandas.Timestamp` / `datetime`: the calendar day and the time of day. */
  datatype Timestamp = Timestamp(year: int, month: int, day: int, hour: int, minute: int, second: int)

  datatype DayType = Workday | Weekend | Holiday

  datatype MarketingEvent = Christmas | NewYear | Normal

  predicate LeapYear(y: int)
  {
    y % 4 == 0 && (y % 100 != 0 || y % 400 == 0)
  }

  function DaysInMonth(y: int, m: int): int
    requires 1 <= m <= 12
  {
    if m == 2 then (if LeapYear(y) then 29 else 28)
    else if m == 4 || m == 6 || m == 9 || m == 11 then 30
    else 31
  }

  /** A day of the proleptic Gregorian calendar with a four-digit year, which covers every
      day a nanosecond `Timestamp` can hold (1677 to 2262). */
  predicate ValidDate(y: int, m: int, d: int)
  {
    1000 <= y <= 9999 && 1 <= m <= 12 && 1 <= d <= DaysInMonth(y, m)
  }

  predicate Valid(t: Timestamp)
  {
    ValidDate(t.year, t.month, t.day) && 0 <= t.hour < 24 && 0 <= t.minute < 60 && 0 <= t.second < 60
  }

  // ---------------------------------------------------------------------------------------
  // `strftime('%Y-%m-%d')`

  function Pad2(n: int): string
    requires 0 <= n < 100
  {
    [DigitChar(n / 10), DigitChar(n % 10)]
  }

  function Pad4(n: int): string
    requires 0 <= n < 10000
  {
    Pad2(n / 100) + Pad2(n % 100)
  }

  /** The zero-padded `YYYY-MM-DD` text of the day; the time of day does not appear in it. */
  function DayString(t: Timestamp): (s: string)
    requires Valid(t)
    ensures |s| == 10
  {
    Pad4(t.year) + "-" + Pad2(t.month) + "-" + Pad2(t.day)
  }

  /** The number written by two decimal digits. */
  function TwoDigits(hi: char, lo: char): int
  {
    10 * (hi as int - '0' as int) + (lo as int - '0' as int)
  }

  /** Reads a `YYYY-MM-DD` text back into its year, month and day. */
  function ParseDay(s: string): (int, int, int)
    requires |s| == 10
  {
    (100 * TwoDigits(s[0], s[1]) + TwoDigits(s[2], s[3]), TwoDigits(s[5], s[6]), TwoDigits(s[8], s[9]))
  }

  lemma Pad2Value(n: int)
    requires 0 <= n < 100
    ensures TwoDigits(Pad2(n)[0], Pad2(n)[1]) == n
  {
  }

  /** Reading the rendering back gives the day: the rendering loses nothing but the time. */
  lemma ParseDayString(t: Timestamp)
    requires Valid(t)
    ensures ParseDay(DayString(t)) == (t.year, t.month, t.day)
  {
    Pad2Value(t.year / 100);
    Pad2Value(t.year % 100);
    Pad2Value(t.month);
    Pad2Value(t.day);
  }

  /** Two timestamps render alike exactly when they fall on the same day. */
  lemma DayStringSameDay(t: Timestamp, u: Timestamp)
    requires Valid(t) && Valid(u)
    ensures DayString(t) == DayString(u) <==> t.year == u.year && t.month == u.month && t.day == u.day
  {
    ParseDayString(t);
    ParseDayString(u);
  }

  // ---------------------------------------------------------------------------------------
  // `Timestamp.dayofweek`

  /** Days from 1970-01-01 to the given day of the proleptic Gregorian calendar, counting
      in 400-year eras of years that start in March. */
  function DaysFromCivil(y: int, m: int, d: int): int
    requires 1 <= m <= 12
  {
    var y1 := if m <= 2 then y - 1 else y;
    var era := y1 / 400;
    var yoe := y1 - era * 400;
    var mp := if m > 2 then m - 3 else m + 9;
    var doy := (153 * mp + 2) / 5 + d - 1;
    var doe := yoe * 365 + yoe / 4 - yoe / 100 + doy;
    era * 146097 + doe - 719468
  }

  /** `dayofweek`: Monday is 0 and Sunday 6; 1970-01-01 was a Thursday. */
  function DayOfWeek(y: int, m: int, d: int): (w: int)
    requires 1 <= m <= 12
    ensures 0 <= w < 7
  {
    (DaysFromCivil(y, m, d) + 3) % 7
  }

  /** The day after a given day. */
  function NextDay(y: int, m: int, d: int): (int, int, int)
    requires ValidDate(y, m, d)
  {
    if d < DaysInMonth(y, m) then (y, m, d + 1)
    else if m < 12 then (y, m + 1, 1)
    else (y + 1, 1, 1)
  }

  /** The days from March of `y1` up to the end of February of `y1 + 1` as counted from the
      start of the era. */
  function YearStart(y1: int): int
  {
    var era := y1 / 400;
    var yoe := y1 - era * 400;
    era * 146097 + yoe * 365 + yoe / 4 - yoe / 100
  }

  /** A March-to-February year ending in February of `y` has 366 days exactly for a leap `y`. */
  lemma YearStartStep(y: int)
    ensures YearStart(y) - YearStart(y - 1) == if LeapYear(y) then 366 else 365
  {
    var a := y - 1;
    var era := a / 400;
    var yoe := a - era * 400;
    assert 0 <= yoe < 400;
    if yoe == 399 {
      EraBoundary(y, era);
    } else {
      WithinEra(y, era, yoe);
      StepDiv4(yoe);
      StepDiv100(yoe);
      assert LeapYear(y) <==> (yoe + 1) % 4 == 0 && (yoe + 1) % 100 != 0;
    }
  }

  lemma EraBoundary(y: int, era: int)
    requires y - 1 == era * 400 + 399
    ensures y / 400 == era + 1 && y - (era + 1) * 400 == 0 && LeapYear(y)
  {
    ModUnique400(y, era + 1, 0);
    ModUnique4(y, 100 * (era + 1), 0);
  }

  lemma WithinEra(y: int, era: int, yoe: int)
    requires 0 <= yoe < 399 && y - 1 == era * 400 + yoe
    ensures y / 400 == era && y - era * 400 == yoe + 1
    ensures LeapYear(y) <==> (yoe + 1) % 4 == 0 && (yoe + 1) % 100 != 0
  {
    var r := yoe + 1;
    ModUnique400(y, era, r);
    ModUnique4(y, 100 * era + r / 4, r % 4);
    ModUnique100(y, 4 * era + r / 100, r % 100);
  }

  /** Division by a constant: a remainder in range fixes the quotient and the remainder. */
  lemma ModUnique4(y: int, t: int, s: int)
    requires y == 4 * t + s && 0 <= s < 4
    ensures y / 4 == t && y % 4 == s
  {
  }

  lemma ModUnique7(y: int, t: int, s: int)
    requires y == 7 * t + s && 0 <= s < 7
    ensures y % 7 == s
  {
  }

  lemma ModUnique100(y: int, t: int, s: int)
    requires y == 100 * t + s && 0 <= s < 100
    ensures y / 100 == t && y % 100 == s
  {
  }

  lemma ModUnique400(y: int, t: int, s: int)
    requires y == 400 * t + s && 0 <= s < 400
    ensures y / 400 == t && y % 400 == s
  {
  }

  lemma StepDiv4(k: int)
    requires 0 <= k
    ensures (k + 1) / 4 - k / 4 == if (k + 1) % 4 == 0 then 1 else 0
  {
    var a, r := k / 4, k % 4;
    if r == 3 {
      ModUnique4(k + 1, a + 1, 0);
    } else {
      ModUnique4(k + 1, a, r + 1);
    }
  }

  lemma StepDiv100(k: int)
    requires 0 <= k
    ensures (k + 1) / 100 - k / 100 == if (k + 1) % 100 == 0 then 1 else 0
  {
    var a, r := k / 100, k % 100;
    if r == 99 {
      ModUnique100(k + 1, a + 1, 0);
    } else {
      ModUnique100(k + 1, a, r + 1);
    }
  }

  /** The weekday after `x % 7`. */
  lemma NextWeekday(x: int)
    ensures (x + 1) % 7 == (x % 7 + 1) % 7
  {
    var q, r := x / 7, x % 7;
    if r == 6 {
      ModUnique7(x + 1, q + 1, 0);
    } else {
      ModUnique7(x + 1, q, r + 1);
    }
  }

  /** The days before the first of each month of a March-to-February year. */
  function MonthStart(mp: int): int
  {
    (153 * mp + 2) / 5
  }

  lemma MonthStarts()
    ensures MonthStart(0) == 0 && MonthStart(1) == 31 && MonthStart(2) == 61 && MonthStart(3) == 92
    ensures MonthStart(4) == 122 && MonthStart(5) == 153 && MonthStart(6) == 184 && MonthStart(7) == 214
    ensures MonthStart(8) == 245 && MonthStart(9) == 275 && MonthStart(10) == 306 && MonthStart(11) == 337
  {
  }

  /** `DaysFromCivil` as the start of the March-to-February year, the month and the day. */
  lemma DaysFromCivilParts(y: int, m: int, d: int)
    requires 1 <= m <= 12
    ensures DaysFromCivil(y, m, d)
         == YearStart(if m <= 2 then y - 1 else y) + MonthStart(if m > 2 then m - 3 else m + 9) + d - 1 - 719468
  {
  }

  /** The day count agrees with the month lengths: the next day is always one day later. */
  lemma DaysFromCivilConsecutive(y: int, m: int, d: int)
    requires ValidDate(y, m, d)
    ensures var (y2, m2, d2) := NextDay(y, m, d);
      1 <= m2 <= 12 && DaysFromCivil(y2, m2, d2) == DaysFromCivil(y, m, d) + 1
  {
    var (y2, m2, d2) := NextDay(y, m, d);
    MonthStarts();
    DaysFromCivilParts(y, m, d);
    DaysFromCivilParts(y2, m2, d2);
    if d == DaysInMonth(y, m) && m == 2 {
      YearStartStep(y);
    }
  }

  /** The count starts at 1970-01-01, a Thursday. */
  lemma EpochIsThursday()
    ensures DaysFromCivil(1970, 1, 1) == 0 && DayOfWeek(1970, 1, 1) == 3
  {
    assert 1969 / 400 == 4 && 369 / 4 == 92 && 369 / 100 == 3 && (153 * 10 + 2) / 5 == 306;
  }

  /** Consecutive days have consecutive weekdays, Sunday followed by Monday. */
  lemma WeekdayAdvances(y: int, m: int, d: int)
    requires ValidDate(y, m, d)
    ensures var (y2, m2, d2) := NextDay(y, m, d);
      1 <= m2 <= 12 && DayOfWeek(y2, m2, d2) == (DayOfWeek(y, m, d) + 1) % 7
  {
    DaysFromCivilConsecutive(y, m, d);
    NextWeekday(DaysFromCivil(y, m, d) + 3);
  }

  // ---------------------------------------------------------------------------------------
  // The two classifications

  /** The 2026 New Year holiday as the source lists it. */
  const Holidays: seq<string> := ["2026-01-01", "2026-01-02", "2026-01-03"]

  /** `get_day_type`: a listed holiday first, then Saturday or Sunday, then a working day. */
  function GetDayType(t: Timestamp): DayType
    requires Valid(t)
  {
    if DayString(t) in Holidays then Holiday
    else if DayOfWeek(t.year, t.month, t.day) >= 5 then Weekend
    else Workday
  }

  /** `get_marketing_event`. */
  function GetMarketingEvent(t: Timestamp): MarketingEvent
    requires Valid(t)
  {
    if DayString(t) == "2025-12-25" then Christmas
    else if DayString(t) == "2026-01-01" then NewYear
    else Normal
  }

  /** The renderings of the days the two classifications list. */
  lemma ListedDayStrings()
    ensures DayString(Timestamp(2026, 1, 1, 0, 0, 0)) == "2026-01-01"
    ensures DayString(Timestamp(2026, 1, 2, 0, 0, 0)) == "2026-01-02"
    ensures DayString(Timestamp(2026, 1, 3, 0, 0, 0)) == "2026-01-03"
    ensures DayString(Timestamp(2025, 12, 25, 0, 0, 0)) == "2025-12-25"
  {
  }

  /** The listed holidays are 1 to 3 January 2026. */
  lemma ListedHoliday(t: Timestamp)
    requires Valid(t)
    ensures DayString(t) in Holidays <==> t.year == 2026 && t.month == 1 && 1 <= t.day <= 3
  {
    assert DayString(t) in Holidays <==>
      DayString(t) == "2026-01-01" || DayString(t) == "2026-01-02" || DayString(t) == "2026-01-03";
    ListedDayStrings();
    DayStringSameDay(t, Timestamp(2026, 1, 1, 0, 0, 0));
    DayStringSameDay(t, Timestamp(2026, 1, 2, 0, 0, 0));
    DayStringSameDay(t, Timestamp(2026, 1, 3, 0, 0, 0));
  }

  /** The label of each day: `Holiday` for 1 to 3 January 2026 whatever the weekday, else
      `Weekend` for Saturday and Sunday, else `Workday`. */
  lemma DayTypeMeaning(t: Timestamp)
    requires Valid(t)
    ensures var newYear := t.year == 2026 && t.month == 1 && 1 <= t.day <= 3;
      && (GetDayType(t) == Holiday <==> newYear)
      && (GetDayType(t) == Weekend <==> !newYear && DayOfWeek(t.year, t.month, t.day) >= 5)
      && (GetDayType(t) == Workday <==> !newYear && DayOfWeek(t.year, t.month, t.day) < 5)
  {
    ListedHoliday(t);
  }

  /** `get_marketing_event` names Christmas 2025 and New Year's Day 2026 and nothing else. */
  lemma MarketingEventMeaning(t: Timestamp)
    requires Valid(t)
    ensures GetMarketingEvent(t) == Christmas <==> t.year == 2025 && t.month == 12 && t.day == 25
    ensures GetMarketingEvent(t) == NewYear <==> t.year == 2026 && t.month == 1 && t.day == 1
  {
    ListedDayStrings();
    DayStringSameDay(t, Timestamp(2025, 12, 25, 0, 0, 0));
    DayStringSameDay(t, Timestamp(2026, 1, 1, 0, 0, 0));
  }

  /** Only the calendar day matters, not the time of day. */
  lemma DayTypeIgnoresTime(t: Timestamp, u: Timestamp)
    requires Valid(t) && Valid(u) && t.year == u.year && t.month == u.month && t.day == u.day
    ensures GetDayType(t) == GetDayType(u)
    ensures GetMarketingEvent(t) == GetMarketingEvent(u)
  {
    DayStringSameDay(t, u);
  }

  /** 3 January 2026 is a Saturday and still a `Holiday`, because the holiday list is checked
      before the weekend; the next day is a `Weekend` and the Monday after it a `Workday`. */
  lemma HolidayBeforeWeekend()
    ensures DayOfWeek(2026, 1, 3) == 5 && GetDayType(Timestamp(2026, 1, 3, 12, 0, 0)) == Holiday
    ensures GetDayType(Timestamp(2026, 1, 4, 9, 30, 0)) == Weekend
    ensures GetDayType(Timestamp(2026, 1, 5, 9, 30, 0)) == Workday
  {
    assert 2025 / 400 == 5 && 25 / 4 == 6 && 25 / 100 == 0 && (153 * 10 + 2) / 5 == 306;
    assert DaysFromCivil(2026, 1, 3) == 20456;
    assert DayString(Timestamp(2026, 1, 3, 12, 0, 0)) == "2026-01-03";
    DayTypeMeaning(Timestamp(2026, 1, 4, 9, 30, 0));
    DayTypeMeaning(Timestamp(2026, 1, 5, 9, 30, 0));
  }
}
