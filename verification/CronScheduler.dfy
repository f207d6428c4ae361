/** The cron search: from one moment to the next that matches, skipping whole
    months, days, hours, minutes and seconds that cannot match. */
module CronScheduling {
  import opened Collections
  import opened Calendar

  /** The parsed fields: the admitted values of each part of the expression. */
  datatype Fields = Fields(seconds: set<int>, minutes: set<int>, hours: set<int>,
                           days: set<int>, months: set<int>, weekdays: set<int>)

  /** A day matches through its day of month or through its weekday. */
  predicate Matches(f: Fields, c: DateTime)
    requires Valid(c)
  {
    && c.month in f.months
    && (c.day in f.days || Weekday(c) in f.weekdays)
    && c.hour in f.hours && c.minute in f.minutes && c.second in f.seconds
  }

  // ---------- the skips ----------

  function NextMonth(c: DateTime): Option<DateTime> {
    if c.month + 1 <= 12 then Some(DateTime(c.year, c.month + 1, 1, 0, 0, 0))
    else if c.year + 1 <= MAX_YEAR then Some(DateTime(c.year + 1, 1, 1, 0, 0, 0))
    else None
  }

  function NextDay(c: DateTime): Option<DateTime> {
    match PlusDay(c)
    case None => None
    case Some(d) => Some(d.(hour := 0, minute := 0, second := 0))
  }

  function NextHour(c: DateTime): Option<DateTime> {
    match PlusHour(c)
    case None => None
    case Some(d) => Some(d.(minute := 0, second := 0))
  }

  function NextMinute(c: DateTime): Option<DateTime> {
    match PlusMinute(c)
    case None => None
    case Some(d) => Some(d.(second := 0))
  }

  function NextSecond(c: DateTime): Option<DateTime> {
    PlusSecond(c)
  }

  /** `x` lies in the stretch that a skip from `c` to `r` passes over. */
  ghost predicate Skipped(c: DateTime, r: Option<DateTime>, x: DateTime) {
    Valid(x) && NotAfter(c, x) && (r.Some? ==> Before(x, r.value))
  }

  ghost predicate Forward(c: DateTime, r: Option<DateTime>) {
    r.Some? ==> Valid(r.value) && Before(c, r.value)
  }

  /** A month skip passes over the rest of the month and nothing else. */
  lemma MonthSkip(c: DateTime, x: DateTime)
    requires Valid(c)
    ensures Forward(c, NextMonth(c))
    ensures Skipped(c, NextMonth(c), x) ==> x.year == c.year && x.month == c.month
  {
  }

  lemma DaySkip(c: DateTime, x: DateTime)
    requires Valid(c)
    ensures Forward(c, NextDay(c))
    ensures Skipped(c, NextDay(c), x) ==> SameDate(x, c)
  {
  }

  lemma HourSkip(c: DateTime, x: DateTime)
    requires Valid(c)
    ensures Forward(c, NextHour(c))
    ensures Skipped(c, NextHour(c), x) ==> SameDate(x, c) && x.hour == c.hour
  {
  }

  lemma MinuteSkip(c: DateTime, x: DateTime)
    requires Valid(c)
    ensures Forward(c, NextMinute(c))
    ensures Skipped(c, NextMinute(c), x) ==> SameDate(x, c) && x.hour == c.hour && x.minute == c.minute
  {
  }

  lemma SecondSkip(c: DateTime, x: DateTime)
    requires Valid(c)
    ensures Forward(c, NextSecond(c))
    ensures Skipped(c, NextSecond(c), x) ==> x == c
  {
  }

  // ---------- the search ----------

  /** One turn of the search loop: the skip it makes, unless `c` matches. */
  function Skip(f: Fields, c: DateTime): Option<DateTime>
    requires Valid(c) && !Matches(f, c)
  {
    if c.month !in f.months then NextMonth(c)
    else if !(c.day in f.days || Weekday(c) in f.weekdays) then NextDay(c)
    else if c.hour !in f.hours then NextHour(c)
    else if c.minute !in f.minutes then NextMinute(c)
    else NextSecond(c)
  }

  /** No skip passes over a match. */
  lemma SkipsNoMatch(f: Fields, c: DateTime, x: DateTime)
    requires Valid(c) && !Matches(f, c)
    ensures Forward(c, Skip(f, c))
    ensures Skipped(c, Skip(f, c), x) ==> !Matches(f, x)
  {
    hide NextMonth, NextDay, NextHour, NextMinute, NextSecond, Before;
    MonthSkip(c, x);
    DaySkip(c, x);
    HourSkip(c, x);
    MinuteSkip(c, x);
    SecondSkip(c, x);
    if Valid(x) && SameDate(x, c) {
      OrdinalIgnoresTime(c, x);
    }
  }

  /** `r` is the first match after `from`, or absent when there is none. */
  ghost predicate IsNext(f: Fields, from: DateTime, r: Option<DateTime>) {
    && (r.Some? ==> Valid(r.value) && Before(from, r.value) && Matches(f, r.value))
    && forall x :: Valid(x) && Before(from, x) && (r.Some? ==> Before(x, r.value)) ==> !Matches(f, x)
  }

  lemma BeforeIsOrder(a: DateTime, b: DateTime, c: DateTime)
    ensures Before(a, b) && Before(b, c) ==> Before(a, c)
    ensures !(Before(a, b) && Before(b, a))
    ensures a == b || Before(a, b) || Before(b, a)
  {
  }

  /** Nothing lies between a moment and the next second. */
  lemma NothingBetween(c: DateTime, x: DateTime)
    requires Valid(c) && Valid(x) && Before(c, x)
    ensures PlusSecond(c).Some?
    ensures var next := PlusSecond(c).value; NotAfter(next, x) && Valid(next) && Before(c, next)
  {
  }

  /** What one turn of the loop leaves: a later candidate, or none, and no match
      between `from` and it. */
  ghost predicate Searched(f: Fields, from: DateTime, r: Option<DateTime>) {
    && (r.Some? ==> Valid(r.value) && Before(from, r.value))
    && forall x :: Valid(x) && Before(from, x) && (r.Some? ==> Before(x, r.value)) ==> !Matches(f, x)
  }

  function Remaining(r: Option<DateTime>): int
    requires r.Some? ==> Valid(r.value)
  {
    match r
    case None => 0
    case Some(c) => 1 + Seconds(LAST) - Seconds(c)
  }

  lemma SearchStarts(f: Fields, from: DateTime)
    requires Valid(from)
    ensures Searched(f, from, PlusSecond(from))
  {
    PlusSecondIsPlus(from);
    if PlusSecond(from).Some? {
      BeforeIsEarlier(from, PlusSecond(from).value);
    }
    forall x | Valid(x) && Before(from, x)
      ensures PlusSecond(from).Some? && !Before(x, PlusSecond(from).value)
    {
      NothingBetween(from, x);
      BeforeIsOrder(x, PlusSecond(from).value, x);
    }
  }

  lemma SearchGoesOn(f: Fields, from: DateTime, c: DateTime)
    requires Searched(f, from, Some(c)) && !Matches(f, c)
    ensures Searched(f, from, Skip(f, c)) && 0 <= Remaining(Skip(f, c)) < Remaining(Some(c))
  {
    hide Before, Skip, Seconds, Matches;
    var r := Skip(f, c);
    SkipsNoMatch(f, c, c);
    assert Valid(LAST);
    NotAfterLast(c);
    if r.Some? {
      BeforeIsOrder(from, c, r.value);
      BeforeIsEarlier(c, r.value);
      NotAfterLast(r.value);
    }
    forall x | Valid(x) && Before(from, x) && (r.Some? ==> Before(x, r.value))
      ensures !Matches(f, x)
    {
      BeforeIsOrder(x, c, x);
      SkipsNoMatch(f, c, x);
    }
  }

  lemma NotAfterLast(c: DateTime)
    requires Valid(c)
    ensures Seconds(c) <= Seconds(LAST)
  {
    assert Valid(LAST) && NotAfter(c, LAST);
    BeforeIsEarlier(c, LAST);
  }

  class AdvancedCronScheduler {
    const fields: Fields

    constructor (fields: Fields)
      ensures this.fields == fields
    {
      this.fields := fields;
    }

    /** The first match after `from`; absent when the search runs past the last year,
        where the original raises. */
    method GetNextExecutionTime(from: DateTime) returns (r: Option<DateTime>)
      requires Valid(from)
      ensures IsNext(fields, from, r)
    {
      hide Before, Skip, Remaining, PlusSecond, NextMonth, NextDay, NextHour, NextMinute, NextSecond;
      var candidate := PlusSecond(from);
      SearchStarts(fields, from);
      while candidate.Some?
        invariant Searched(fields, from, candidate)
        decreases Remaining(candidate)
      {
        var c := candidate.value;
        if !Matches(fields, c) {
          SearchGoesOn(fields, from, c);
          SkipIs(fields, c);
        }
        if c.month !in fields.months {
          candidate := NextMonth(c);
          continue;
        }
        var dayValid := c.day in fields.days;
        var weekdayValid := Weekday(c) in fields.weekdays;
        if !(dayValid || weekdayValid) {
          candidate := NextDay(c);
          continue;
        }
        if c.hour !in fields.hours {
          candidate := NextHour(c);
          continue;
        }
        if c.minute !in fields.minutes {
          candidate := NextMinute(c);
          continue;
        }
        if c.second !in fields.seconds {
          candidate := NextSecond(c);
          continue;
        }
        return candidate;
      }
      r := None;
    }

    /** The next `n` matches, each searched from the one before; absent when one of
        the searches raises. */
    method GetNextNExecutions(n: int, from: DateTime) returns (r: Option<seq<DateTime>>)
      requires Valid(from)
      ensures n <= 0 ==> r == Some([])
      ensures n > 0 && r.Some? ==> |r.value| == n && Chain(fields, from, r.value)
      ensures r.None? ==>
                exists found :: |found| < n && Chain(fields, from, found) && IsNext(fields, LastOf(from, found), None)
    {
      if n <= 0 {
        return Some([]);
      }
      var executions: seq<DateTime> := [];
      var current := from;
      assert Chain(fields, from, executions);
      hide Chain, IsNext, Matches;
      for i := 0 to n
        invariant |executions| == i && Chain(fields, from, executions) && current == LastOf(from, executions)
      {
        var next := GetNextExecutionTime(current);
        if next.None? {
          return None;
        }
        ChainGrows(fields, from, executions, next.value);
        executions := executions + [next.value];
        current := next.value;
      }
      r := Some(executions);
    }
  }

  lemma ChainGrows(f: Fields, from: DateTime, list: seq<DateTime>, x: DateTime)
    requires Chain(f, from, list) && IsNext(f, LastOf(from, list), Some(x))
    ensures Chain(f, from, list + [x]) && Valid(x)
  {
    assert Valid(x);
    hide IsNext;
    var all := list + [x];
    forall i | 0 <= i < |all|
      ensures Valid(all[i]) && IsNext(f, LastOf(from, all[..i]), Some(all[i]))
    {
      assert all[..i] == list[..i];
    }
  }

  lemma SkipIs(f: Fields, c: DateTime)
    requires Valid(c) && !Matches(f, c)
    ensures Skip(f, c) ==
              if c.month !in f.months then NextMonth(c)
              else if !(c.day in f.days || Weekday(c) in f.weekdays) then NextDay(c)
              else if c.hour !in f.hours then NextHour(c)
              else if c.minute !in f.minutes then NextMinute(c)
              else NextSecond(c)
  {
  }

  function LastOf(from: DateTime, list: seq<DateTime>): DateTime {
    if list == [] then from else list[|list| - 1]
  }

  /** Each entry is the first match after the one before it. */
  ghost predicate Chain(f: Fields, from: DateTime, list: seq<DateTime>) {
    forall i :: 0 <= i < |list| ==> Valid(list[i]) && IsNext(f, LastOf(from, list[..i]), Some(list[i]))
  }

  // ---------- what the results are ----------

  /** The search is sound and minimal, in the arithmetic of time: whatever fraction
      of a second `from` carries, the result matches, is later than `from`, and no
      whole second in between matches; there is none at all if it is absent. */
  lemma NextIsEarliest(f: Fields, from: DateTime, micro: int, r: Option<DateTime>, x: DateTime)
    requires Valid(from) && 0 <= micro < 1000000 && IsNext(f, from, r) && Valid(x)
    ensures r.Some? ==> Matches(f, r.value) && Seconds(r.value) * 1000000 > Seconds(from) * 1000000 + micro
    ensures Seconds(x) * 1000000 > Seconds(from) * 1000000 + micro && (r.Some? ==> Seconds(x) < Seconds(r.value)) ==>
              !Matches(f, x)
  {
    hide Seconds, Before, Matches;
    BeforeIsEarlier(from, x);
    if r.Some? {
      BeforeIsEarlier(from, r.value);
      BeforeIsEarlier(x, r.value);
    }
  }

  lemma NextIsUnique(f: Fields, from: DateTime, r: Option<DateTime>, q: Option<DateTime>)
    requires IsNext(f, from, r) && IsNext(f, from, q)
    ensures r == q
  {
    hide Before, Matches;
    if r.Some? && q.Some? {
      BeforeIsOrder(r.value, q.value, r.value);
    }
  }

  lemma ChainPrefix(f: Fields, from: DateTime, list: seq<DateTime>)
    requires Chain(f, from, list) && list != []
    ensures var init := list[..|list| - 1];
            Chain(f, from, init) && IsNext(f, LastOf(from, init), Some(list[|list| - 1]))
  {
    hide IsNext, LastOf;
    var init := list[..|list| - 1];
    forall i | 0 <= i < |init|
      ensures Valid(init[i]) && IsNext(f, LastOf(from, init[..i]), Some(init[i]))
    {
      assert init[..i] == list[..i] && init[i] == list[i];
    }
  }

  lemma {:induction false} ChainIncreases(f: Fields, from: DateTime, list: seq<DateTime>)
    requires Chain(f, from, list)
    ensures forall i :: 0 <= i < |list| ==> Valid(list[i]) && Matches(f, list[i]) && Before(from, list[i])
    ensures forall i, j :: 0 <= i < j < |list| ==> Before(list[i], list[j])
  {
    hide Before, Matches, Chain;
    if list != [] {
      var init, last := list[..|list| - 1], list[|list| - 1];
      ChainPrefix(f, from, list);
      ChainIncreases(f, from, init);
      BeforeIsOrder(from, LastOf(from, init), last);
      forall i | 0 <= i < |init|
        ensures Before(init[i], last)
      {
        BeforeIsOrder(init[i], LastOf(from, init), last);
      }
    }
  }

  lemma {:induction false} ChainIsComplete(f: Fields, from: DateTime, list: seq<DateTime>, x: DateTime)
    requires Chain(f, from, list)
    requires Valid(x) && Matches(f, x) && Before(from, x) && NotAfter(x, LastOf(from, list))
    ensures x in list
  {
    hide Before, Matches, Chain;
    BeforeIsOrder(from, x, from);
    var init, last := list[..|list| - 1], list[|list| - 1];
    ChainPrefix(f, from, list);
    if x != last {
      BeforeIsOrder(LastOf(from, init), x, last);
      ChainIsComplete(f, from, init, x);
      assert x in init ==> x in list;
    }
  }

  /** The list of `n` executions is exactly the first `n` matches after `from`: it
      strictly increases, every entry matches, and every match after `from` that is
      not after its last entry is in it. */
  lemma ChainListsMatches(f: Fields, from: DateTime, list: seq<DateTime>, x: DateTime)
    requires Chain(f, from, list)
    ensures forall i, j :: 0 <= i < j < |list| ==> Before(list[i], list[j])
    ensures forall i :: 0 <= i < |list| ==> Valid(list[i]) && Matches(f, list[i]) && Before(from, list[i])
    ensures Valid(x) && Matches(f, x) && Before(from, x) && NotAfter(x, LastOf(from, list)) ==> x in list
  {
    hide Before, Matches, Chain;
    ChainIncreases(f, from, list);
    if Valid(x) && Matches(f, x) && Before(from, x) && NotAfter(x, LastOf(from, list)) {
      ChainIsComplete(f, from, list, x);
    }
  }

  /** A list cut short by the end of the calendar holds every match there is. */
  lemma CutShortListIsComplete(f: Fields, from: DateTime, list: seq<DateTime>, x: DateTime)
    requires Valid(from) && Chain(f, from, list) && IsNext(f, LastOf(from, list), None)
    ensures Valid(x) && Matches(f, x) && Before(from, x) ==> x in list
  {
    hide Before, Matches;
    ChainListsMatches(f, from, list, x);
    BeforeIsOrder(LastOf(from, list), x, x);
  }
}
