/** The proleptic Gregorian calendar of Python's datetime, in UTC, to the second:
    years 1 to 9999, with arithmetic that fails beyond them. */
module Calendar {
  import opened Collections

  const MAX_YEAR := 9999

  datatype DateTime = DateTime(year: int, month: int, day: int, hour: int, minute: int, second: int)

  predicate IsLeap(y: int) {
    y % 4 == 0 && (y % 100 != 0 || y % 400 == 0)
  }

  function DaysInMonth(y: int, m: int): (n: int)
    ensures 28 <= n <= 31
  {
    if m == 2 then (if IsLeap(y) then 29 else 28)
    else if m == 4 || m == 6 || m == 9 || m == 11 then 30
    else 31
  }

  predicate Valid(c: DateTime) {
    && 1 <= c.year <= MAX_YEAR && 1 <= c.month <= 12 && 1 <= c.day <= DaysInMonth(c.year, c.month)
    && 0 <= c.hour < 24 && 0 <= c.minute < 60 && 0 <= c.second < 60
  }

  // ---------- the time line ----------

  function DaysBeforeYear(y: int): int {
    (y - 1) * 365 + (y - 1) / 4 - (y - 1) / 100 + (y - 1) / 400
  }

  function DaysBeforeMonth(y: int, m: int): int
    requires 1 <= m <= 13
    decreases m
  {
    if m == 1 then 0 else DaysBeforeMonth(y, m - 1) + DaysInMonth(y, m - 1)
  }

  /** `date.toordinal`: the number of the day, 1 January of year 1 being day 1. */
  function Ordinal(c: DateTime): int
    requires 1 <= c.month <= 12
  {
    DaysBeforeYear(c.year) + DaysBeforeMonth(c.year, c.month) + c.day
  }

  const DAY := 86400

  function Seconds(c: DateTime): int
    requires 1 <= c.month <= 12
  {
    Ordinal(c) * DAY + c.hour * 3600 + c.minute * 60 + c.second
  }

  /** `date.weekday`: Monday is 0. */
  function Weekday(c: DateTime): (w: int)
    requires 1 <= c.month <= 12
    ensures 0 <= w < 7
  {
    (Ordinal(c) + 6) % 7
  }

  /** The order of the fields: year first, second last. */
  predicate DateBefore(a: DateTime, b: DateTime) {
    || a.year < b.year
    || (a.year == b.year && a.month < b.month)
    || (a.year == b.year && a.month == b.month && a.day < b.day)
  }

  predicate SameDate(a: DateTime, b: DateTime) {
    a.year == b.year && a.month == b.month && a.day == b.day
  }

  predicate Before(a: DateTime, b: DateTime) {
    || DateBefore(a, b)
    || (SameDate(a, b) && a.hour < b.hour)
    || (SameDate(a, b) && a.hour == b.hour && a.minute < b.minute)
    || (SameDate(a, b) && a.hour == b.hour && a.minute == b.minute && a.second < b.second)
  }

  predicate NotAfter(a: DateTime, b: DateTime) {
    a == b || Before(a, b)
  }

  lemma YearLength(y: int)
    ensures DaysBeforeYear(y + 1) == DaysBeforeYear(y) + if IsLeap(y) then 366 else 365
    ensures DaysBeforeMonth(y, 13) == if IsLeap(y) then 366 else 365
  {
    hide DaysBeforeMonth, DaysInMonth;
    Quotient(y, 4);
    Quotient(y, 100);
    Quotient(y, 400);
    Centuries(y);
    DaysBeforeMonths(y);
  }

  lemma Centuries(y: int)
    ensures y % 100 == 0 ==> y % 4 == 0
    ensures y % 400 == 0 ==> y % 100 == 0
  {
    if y % 100 == 0 {
      var q := y / 100;
      assert y == 100 * q;
      Multiples(25 * q);
    }
    if y % 400 == 0 {
      var q := y / 400;
      assert y == 400 * q;
      Multiples(4 * q);
    }
  }

  lemma Multiples(q: int)
    ensures (4 * q) % 4 == 0 && (100 * q) % 100 == 0
  {
  }

  /** The quotient steps up exactly at the multiples of `k`. */
  lemma Quotient(y: int, k: int)
    requires k == 4 || k == 100 || k == 400
    ensures y / k == (y - 1) / k + if y % k == 0 then 1 else 0
  {
  }

  lemma {:induction false} DaysBeforeMonths(y: int)
    ensures var l := if IsLeap(y) then 1 else 0;
            && DaysBeforeMonth(y, 2) == 31 && DaysBeforeMonth(y, 3) == 59 + l
            && DaysBeforeMonth(y, 4) == 90 + l && DaysBeforeMonth(y, 5) == 120 + l
            && DaysBeforeMonth(y, 6) == 151 + l && DaysBeforeMonth(y, 7) == 181 + l
            && DaysBeforeMonth(y, 8) == 212 + l && DaysBeforeMonth(y, 9) == 243 + l
            && DaysBeforeMonth(y, 10) == 273 + l && DaysBeforeMonth(y, 11) == 304 + l
            && DaysBeforeMonth(y, 12) == 334 + l && DaysBeforeMonth(y, 13) == 365 + l
  {
    assert DaysBeforeMonth(y, 1) == 0;
    assert DaysBeforeMonth(y, 2) == 31;
    assert DaysBeforeMonth(y, 4) == DaysBeforeMonth(y, 3) + 31;
    assert DaysBeforeMonth(y, 6) == DaysBeforeMonth(y, 5) + 31;
    assert DaysBeforeMonth(y, 8) == DaysBeforeMonth(y, 7) + 31;
    assert DaysBeforeMonth(y, 10) == DaysBeforeMonth(y, 9) + 30;
    assert DaysBeforeMonth(y, 12) == DaysBeforeMonth(y, 11) + 30;
  }

  lemma {:induction false} YearsMonotone(y: int, z: int)
    requires y <= z
    ensures DaysBeforeYear(y) <= DaysBeforeYear(z)
    decreases z - y
  {
    if y < z {
      YearLength(y);
      YearsMonotone(y + 1, z);
    }
  }

  lemma {:induction false} MonthsMonotone(y: int, m: int, n: int)
    requires 1 <= m <= n <= 13
    ensures DaysBeforeMonth(y, m) <= DaysBeforeMonth(y, n)
    decreases n - m
  {
    if m < n {
      MonthsMonotone(y, m + 1, n);
    }
  }

  lemma EarlierDateEarlierDay(a: DateTime, b: DateTime)
    requires Valid(a) && Valid(b) && DateBefore(a, b)
    ensures Ordinal(a) < Ordinal(b)
  {
    hide DaysBeforeYear;
    if a.year < b.year {
      MonthsMonotone(a.year, a.month + 1, 13);
      MonthsMonotone(b.year, 1, b.month);
      YearLength(a.year);
      YearsMonotone(a.year + 1, b.year);
    } else if a.month < b.month {
      MonthsMonotone(a.year, a.month + 1, b.month);
    }
  }

  /** The order of the fields is the order in time. */
  lemma BeforeIsEarlier(a: DateTime, b: DateTime)
    requires Valid(a) && Valid(b)
    ensures Before(a, b) <==> Seconds(a) < Seconds(b)
    ensures a == b <==> Seconds(a) == Seconds(b)
  {
    hide DaysBeforeYear, DaysBeforeMonth;
    if DateBefore(a, b) {
      EarlierDateEarlierDay(a, b);
    } else if DateBefore(b, a) {
      EarlierDateEarlierDay(b, a);
    }
  }

  // ---------- arithmetic ----------

  /** Midnight of the day after, unless the calendar ends. */
  function DayAfter(c: DateTime): Option<DateTime> {
    if c.day < DaysInMonth(c.year, c.month) then Some(DateTime(c.year, c.month, c.day + 1, 0, 0, 0))
    else if c.month < 12 then Some(DateTime(c.year, c.month + 1, 1, 0, 0, 0))
    else if c.year < MAX_YEAR then Some(DateTime(c.year + 1, 1, 1, 0, 0, 0))
    else None
  }

  /** Adding one day, hour, minute or second. */
  function PlusDay(c: DateTime): Option<DateTime> {
    match DayAfter(c)
    case None => None
    case Some(d) => Some(d.(hour := c.hour, minute := c.minute, second := c.second))
  }

  function PlusHour(c: DateTime): Option<DateTime> {
    if c.hour < 23 then Some(c.(hour := c.hour + 1)) else
      match DayAfter(c)
      case None => None
      case Some(d) => Some(d.(minute := c.minute, second := c.second))
  }

  function PlusMinute(c: DateTime): Option<DateTime> {
    if c.minute < 59 then Some(c.(minute := c.minute + 1)) else
      match PlusHour(c)
      case None => None
      case Some(d) => Some(d.(minute := 0))
  }

  function PlusSecond(c: DateTime): Option<DateTime> {
    if c.second < 59 then Some(c.(second := c.second + 1)) else
      match PlusMinute(c)
      case None => None
      case Some(d) => Some(d.(second := 0))
  }

  const LAST := DateTime(MAX_YEAR, 12, 31, 23, 59, 59)

  lemma DayAfterIsNext(c: DateTime)
    requires Valid(c)
    ensures match DayAfter(c)
            case Some(d) =>
              Valid(d) && d.hour == 0 && d.minute == 0 && d.second == 0 && Ordinal(d) == Ordinal(c) + 1
            case None => Ordinal(c) == Ordinal(LAST)
  {
    hide DaysBeforeYear;
    YearLength(c.year);
    assert DaysBeforeMonth(c.year, c.month + 1) == DaysBeforeMonth(c.year, c.month) + DaysInMonth(c.year, c.month);
    if DayAfter(c).None? {
      assert SameDate(c, LAST);
    }
  }

  /** The weekday moves on by one each day, whatever month or year begins. */
  lemma WeekdayOfNextDay(c: DateTime)
    requires Valid(c)
    ensures DayAfter(c).Some? ==> Weekday(DayAfter(c).value) == (Weekday(c) + 1) % 7
  {
    hide Ordinal, DayAfter;
    DayAfterIsNext(c);
  }

  /** Known days of the Gregorian calendar, which tie the counts to its dates. */
  lemma KnownDays(hour: int, minute: int, second: int)
    ensures Ordinal(DateTime(1, 1, 1, hour, minute, second)) == 1
    ensures Ordinal(DateTime(1900, 3, 1, hour, minute, second)) == 693655
    ensures Ordinal(DateTime(2000, 3, 1, hour, minute, second)) == 730180
    ensures Ordinal(DateTime(2024, 1, 1, hour, minute, second)) == 738886
    ensures Weekday(DateTime(1, 1, 1, hour, minute, second)) == 0
    ensures Weekday(DateTime(2024, 1, 1, hour, minute, second)) == 0
  {
    hide DaysBeforeMonth, DaysInMonth;
    DaysBeforeMonths(1900);
    DaysBeforeMonths(2000);
    FirstMonth(1);
    FirstMonth(2024);
  }

  lemma {:induction false} FirstMonth(y: int)
    ensures DaysBeforeMonth(y, 1) == 0
  {
  }

  lemma By4(a: int, q: int, r: int)
    requires a == 4 * q + r && 0 <= r < 4
    ensures a % 4 == r
  {
  }

  lemma By100(a: int, q: int, r: int)
    requires a == 100 * q + r && 0 <= r < 100
    ensures a % 100 == r
  {
  }

  lemma By400(a: int, q: int, r: int)
    requires a == 400 * q + r && 0 <= r < 400
    ensures a % 400 == r
  {
  }

  /** The lengths of the months. Of the years of four centuries every fourth has a 29th of
      February, except the first of the second, third and fourth century. */
  lemma MonthLengths(q: int, century: int, k: int)
    requires 0 <= century < 4 && 0 <= k < 25
    ensures var y := 400 * q + 100 * century + 4 * k;
            && DaysInMonth(y, 2) == (if k == 0 && century != 0 then 28 else 29)
            && DaysInMonth(y + 1, 2) == DaysInMonth(y + 2, 2) == DaysInMonth(y + 3, 2) == 28
            && (forall m :: m in {1, 3, 5, 7, 8, 10, 12} ==> DaysInMonth(y, m) == 31)
            && (forall m :: m in {4, 6, 9, 11} ==> DaysInMonth(y, m) == 30)
  {
    var y, fours := 400 * q + 100 * century + 4 * k, 100 * q + 25 * century + k;
    By4(y, fours, 0);
    By4(y + 1, fours, 1);
    By4(y + 2, fours, 2);
    By4(y + 3, fours, 3);
    By100(y, 4 * q + century, 4 * k);
    By400(y, q, 100 * century + 4 * k);
  }

  /** `r` is the moment `n` seconds after `c`, or absent when that is past the calendar. */
  ghost predicate IsPlus(c: DateTime, n: int, r: Option<DateTime>)
    requires Valid(c)
  {
    match r
    case Some(d) => Valid(d) && Seconds(d) == Seconds(c) + n
    case None => Seconds(c) + n > Seconds(LAST)
  }

  lemma OrdinalIgnoresTime(c: DateTime, d: DateTime)
    requires SameDate(c, d) && 1 <= c.month <= 12
    ensures Ordinal(c) == Ordinal(d)
  {
  }

  /** Within a day, the time of day counts. */
  lemma SecondsWithinDay(c: DateTime, d: DateTime)
    requires SameDate(c, d) && 1 <= c.month <= 12
    ensures Seconds(d) == Seconds(c) + (d.hour - c.hour) * 3600 + (d.minute - c.minute) * 60 + d.second - c.second
  {
    hide Ordinal;
    OrdinalIgnoresTime(c, d);
  }

  lemma SecondsOfDay(c: DateTime)
    requires 1 <= c.month <= 12
    ensures Seconds(c) == Ordinal(c) * 86400 + c.hour * 3600 + c.minute * 60 + c.second
  {
  }

  /** The arithmetic fails only at the end of the last day. */
  lemma FailsAtEnd(c: DateTime)
    requires Valid(c)
    ensures DayAfter(c).None? || PlusHour(c).None? || PlusMinute(c).None? || PlusSecond(c).None? ==>
              Ordinal(c) == Ordinal(LAST)
    ensures PlusHour(c).None? ==> c.hour == 23
    ensures PlusMinute(c).None? ==> c.hour == 23 && c.minute == 59
    ensures PlusSecond(c).None? ==> c.hour == 23 && c.minute == 59 && c.second == 59
  {
    hide Ordinal, DayAfter;
    DayAfterIsNext(c);
  }

  lemma PlusDayIsPlus(c: DateTime)
    requires Valid(c)
    ensures IsPlus(c, DAY, PlusDay(c))
  {
    hide Ordinal, Seconds, DayAfter, DaysInMonth;
    DayAfterIsNext(c);
    FailsAtEnd(c);
    SecondsOfDay(c);
    SecondsOfDay(LAST);
    if d :| DayAfter(c) == Some(d) {
      SecondsOfDay(d);
      SecondsWithinDay(d, PlusDay(c).value);
    }
  }

  lemma PlusHourIsPlus(c: DateTime)
    requires Valid(c)
    ensures IsPlus(c, 3600, PlusHour(c))
  {
    hide Ordinal, Seconds, DayAfter, DaysInMonth;
    DayAfterIsNext(c);
    FailsAtEnd(c);
    SecondsOfDay(c);
    SecondsOfDay(LAST);
    if c.hour < 23 {
      SecondsWithinDay(c, PlusHour(c).value);
    } else if d :| DayAfter(c) == Some(d) {
      SecondsOfDay(d);
      SecondsWithinDay(d, PlusHour(c).value);
    }
  }

  lemma PlusMinuteIsPlus(c: DateTime)
    requires Valid(c)
    ensures IsPlus(c, 60, PlusMinute(c))
  {
    hide Ordinal, Seconds, PlusHour, DayAfter, DaysInMonth;
    PlusHourIsPlus(c);
    FailsAtEnd(c);
    HourCarries(c);
    SecondsOfDay(c);
    SecondsOfDay(LAST);
    if c.minute < 59 {
      SecondsWithinDay(c, PlusMinute(c).value);
    } else if d :| PlusHour(c) == Some(d) {
      SecondsWithinDay(d, PlusMinute(c).value);
    }
  }

  lemma HourCarries(c: DateTime)
    ensures PlusHour(c).Some? ==> PlusHour(c).value.minute == c.minute && PlusHour(c).value.second == c.second
    ensures PlusMinute(c).Some? ==> PlusMinute(c).value.second == c.second
  {
  }

  lemma PlusSecondIsPlus(c: DateTime)
    requires Valid(c)
    ensures IsPlus(c, 1, PlusSecond(c))
  {
    hide Ordinal, Seconds, PlusMinute, PlusHour, DayAfter, DaysInMonth;
    PlusMinuteIsPlus(c);
    FailsAtEnd(c);
    HourCarries(c);
    SecondsOfDay(c);
    SecondsOfDay(LAST);
    if c.second < 59 {
      SecondsWithinDay(c, PlusSecond(c).value);
    } else if d :| PlusMinute(c) == Some(d) {
      SecondsWithinDay(d, PlusSecond(c).value);
    }
  }
}
