/** When the cron search finds anything, and how far ahead it has to look. */
module CronHorizon {
  import opened Collections
  import opened Calendar
  import opened CronScheduling

  /** The fields as the parser leaves them: within the range of their position. */
  predicate Parsed(f: Fields) {
    && (forall v :: v in f.seconds ==> 0 <= v <= 59) && (forall v :: v in f.minutes ==> 0 <= v <= 59)
    && (forall v :: v in f.hours ==> 0 <= v <= 23) && (forall v :: v in f.days ==> 1 <= v <= 31)
    && (forall v :: v in f.months ==> 1 <= v <= 12) && (forall v :: v in f.weekdays ==> 0 <= v <= 6)
  }

  ghost predicate NonEmpty(s: set<int>) {
    exists v :: v in s
  }

  ghost predicate HasTimeAndMonth(f: Fields) {
    NonEmpty(f.seconds) && NonEmpty(f.minutes) && NonEmpty(f.hours) && NonEmpty(f.months)
  }

  /** The length of month `m` in a leap year. */
  function LongestMonth(m: int): int {
    DaysInMonth(2000, m)
  }

  /** Some date matches in some year: a weekday is admitted, or a day of month that
      one of the admitted months can have. */
  ghost predicate Satisfiable(f: Fields) {
    && HasTimeAndMonth(f)
    && (NonEmpty(f.weekdays) || exists m, d :: m in f.months && d in f.days && d <= LongestMonth(m))
  }

  /** Each weekday falls on one of the first seven days of each month. */
  lemma WeekdayInFirstWeek(y: int, m: int, w: int) returns (d: int)
    requires 1 <= m <= 12 && 0 <= w < 7
    ensures 1 <= d <= 7 && forall h, n, s :: Weekday(DateTime(y, m, d, h, n, s)) == w
  {
    hide DaysBeforeYear, DaysBeforeMonth;
    var base := DaysBeforeYear(y) + DaysBeforeMonth(y, m);
    d := 1 + (w - base) % 7;
    assert (base + 1 + 6) % 7 == base % 7;
    assert (base + d + 6) % 7 == w;
  }

  /** The first midnight of month `m` after `from` is at most 366 days away. */
  lemma MonthWithinYear(from: DateTime, m: int) returns (y: int)
    requires Valid(from) && from.year < MAX_YEAR && 1 <= m <= 12
    ensures y == from.year || y == from.year + 1
    ensures var first := DateTime(y, m, 1, 0, 0, 0);
            Valid(first) && Before(from, first) && Ordinal(first) - Ordinal(from) <= 366
  {
    hide DaysBeforeYear;
    y := if m > from.month then from.year else from.year + 1;
    DaysBeforeMonths(from.year);
    DaysBeforeMonths(y);
    YearLength(from.year);
  }

  /** The moments of one date that match, if its day does. */
  lemma MomentOf(f: Fields, y: int, m: int, d: int) returns (c: DateTime)
    requires Parsed(f) && HasTimeAndMonth(f) && m in f.months && 1 <= y <= MAX_YEAR && 1 <= d <= DaysInMonth(y, m)
    requires d in f.days || forall h, n, s :: Weekday(DateTime(y, m, d, h, n, s)) in f.weekdays
    ensures c.year == y && c.month == m && c.day == d && Valid(c) && Matches(f, c)
  {
    var h :| h in f.hours;
    var n :| n in f.minutes;
    var s :| s in f.seconds;
    c := DateTime(y, m, d, h, n, s);
  }

  /** When an admitted weekday exists, a match is less than 373 days away. */
  lemma MatchWithinHorizon(f: Fields, from: DateTime) returns (c: DateTime)
    requires Parsed(f) && HasTimeAndMonth(f) && NonEmpty(f.weekdays)
    requires Valid(from) && from.year < MAX_YEAR
    ensures Valid(c) && Matches(f, c) && Before(from, c) && Seconds(c) - Seconds(from) < 373 * DAY
  {
    hide Weekday, Matches;
    var m :| m in f.months;
    var w :| w in f.weekdays;
    var y := MonthWithinYear(from, m);
    var d := WeekdayInFirstWeek(y, m, w);
    c := MomentOf(f, y, m, d);
    var first := DateTime(y, m, 1, 0, 0, 0);
    assert NotAfter(first, c);
    BeforeIsOrder(from, first, c);
    assert Ordinal(c) == Ordinal(first) + d - 1;
  }

  /** With all fields non-empty the search succeeds within 373 days: the rule that a
      day may match through its weekday makes impossible days of month harmless. */
  lemma SearchHorizon(f: Fields, from: DateTime, r: Option<DateTime>)
    requires Parsed(f) && HasTimeAndMonth(f) && NonEmpty(f.days) && NonEmpty(f.weekdays)
    requires Valid(from) && from.year < MAX_YEAR && IsNext(f, from, r)
    ensures r.Some? && 0 < Seconds(r.value) - Seconds(from) < 373 * DAY
  {
    hide Before, Seconds, Matches;
    var c := MatchWithinHorizon(f, from);
    BeforeIsEarlier(from, c);
    if r.Some? {
      BeforeIsEarlier(from, r.value);
      BeforeIsEarlier(c, r.value);
    }
  }

  /** Every stretch of eight years holds a leap year. */
  lemma LeapYearAhead(y: int) returns (z: int)
    requires 1 <= y <= MAX_YEAR - 8
    ensures y < z <= y + 8 && IsLeap(z)
  {
    z := y + 4 - y % 4;
    if !IsLeap(z) {
      z := z + 4;
    }
  }

  /** The search succeeds exactly for the satisfiable fields, as long as a leap year
      is still to come before the calendar ends. */
  lemma SearchSucceedsIff(f: Fields, from: DateTime, r: Option<DateTime>)
    requires Parsed(f) && Valid(from) && from.year <= MAX_YEAR - 8 && IsNext(f, from, r)
    ensures r.Some? <==> Satisfiable(f)
  {
    hide Weekday;
    if r.Some? {
      var c := r.value;
      assert c.day in f.days ==> c.month in f.months && c.day <= LongestMonth(c.month);
    }
    if Satisfiable(f) {
      var c: DateTime;
      if NonEmpty(f.weekdays) {
        c := MatchWithinHorizon(f, from);
      } else {
        var m, d :| m in f.months && d in f.days && d <= LongestMonth(m);
        var y := LeapYearAhead(from.year);
        c := MomentOf(f, y, m, d);
      }
      assert Before(from, c) && Matches(f, c);
    }
  }
}
