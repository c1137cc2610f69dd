/** cronSchedule.next: the next firing time, found by jumping over months, days and hours that cannot match. */
module CronNext {
  import opened Prelude
  import opened Calendar

  const NS_PER_MINUTE := 60_000_000_000
  const HORIZON := 4 * 365 * DAY

  datatype Schedule = Schedule(
    minute: seq<int>, hour: seq<int>, dayOfMonth: seq<int>, month: seq<int>, dayOfWeek: seq<int>)

  /** All five fields; day of month and day of week must both match. */
  predicate Matches(s: Schedule, t: int) {
    && MonthOf(t) in s.month
    && DayOfMonthOf(t) in s.dayOfMonth && WeekdayOf(t) in s.dayOfWeek
    && HourOf(t) in s.hour
    && MinuteOf(t) in s.minute
  }

  /** The first whole minute after an instant given in nanoseconds since day 0. */
  function FirstMinuteAfter(from: int): (t: int)
    ensures (t - 1) * 60_000_000_000 <= from < t * 60_000_000_000
  {
    from / NS_PER_MINUTE + 1
  }

  /** Naive minute-by-minute search: the least matching minute of the window, or its end. */
  ghost predicate NaiveNext(s: Schedule, start: int, r: int) {
    && start <= r <= start + HORIZON
    && (r < start + HORIZON ==> Matches(s, r))
    && forall u :: start <= u < r ==> !Matches(s, u)
  }

  method Contains(vals: seq<int>, v: int) returns (found: bool)
    ensures found <==> v in vals
  {
    for i := 0 to |vals|
      invariant v !in vals[..i]
    {
      if vals[i] == v {
        return true;
      }
    }
    return false;
  }

  lemma SameDay(t: int, u: int)
    requires t <= u < (DayOf(t) + 1) * DAY
    ensures DayOf(u) == DayOf(t)
  {
  }

  lemma SameHour(t: int, u: int)
    requires t <= u < (t / 60 + 1) * 60
    ensures DayOf(u) == DayOf(t) && HourOf(u) == HourOf(t)
  {
    hide DayOf, HourOf;
    TimeParts(t);
    MinuteParts(DayOf(t), HourOf(t), t % 60 + u - t);
  }

  lemma TimeParts(t: int)
    ensures t == DayOf(t) * DAY + HourOf(t) * 60 + t % 60 && 0 <= HourOf(t) < 24
  {
  }

  lemma MinuteParts(n: int, h: int, m: int)
    requires 0 <= h < 24 && 0 <= m < 60
    ensures var t := n * DAY + h * 60 + m; DayOf(t) == n && HourOf(t) == h && MinuteOf(t) == m
  {
    var t := n * DAY + h * 60 + m;
    DivUnique(t, DAY, n, h * 60 + m);
    DivUnique(h * 60 + m, 60, h, m);
    DivUnique(t, 60, n * 24 + h, m);
  }

  /** The jumping search, on times in UTC as minutes since day 0. */
  method Next(s: Schedule, from: int) returns (r: int)
    ensures NaiveNext(s, FirstMinuteAfter(from), r)
    ensures r * 60_000_000_000 > from
  {
    hide MonthOf, DayOfMonthOf, WeekdayOf, HourOf, MinuteOf, NextMonth;
    var t := FirstMinuteAfter(from);
    ghost var start := t;
    var limit := t + HORIZON;
    while t < limit
      invariant start <= t
      invariant forall u :: start <= u < t ==> !Matches(s, u)
      decreases limit - t
    {
      var ok := Contains(s.month, MonthOf(t));
      if !ok {
        NextMonthSkips(t);
        t := NextMonth(t);
        continue;
      }
      ok := Contains(s.dayOfMonth, DayOfMonthOf(t));
      if ok {
        ok := Contains(s.dayOfWeek, WeekdayOf(t));
      }
      if !ok {
        SkipDay(s, t);
        t := (DayOf(t) + 1) * DAY;
        continue;
      }
      ok := Contains(s.hour, HourOf(t));
      if !ok {
        SkipHour(s, t);
        t := (t / 60 + 1) * 60;
        continue;
      }
      ok := Contains(s.minute, MinuteOf(t));
      if !ok {
        t := t + 1;
        continue;
      }
      return t;
    }
    return limit;
  }

  lemma SkipDay(s: Schedule, t: int)
    requires DayOfMonthOf(t) !in s.dayOfMonth || WeekdayOf(t) !in s.dayOfWeek
    ensures (DayOf(t) + 1) * DAY > t
    ensures forall u :: t <= u < (DayOf(t) + 1) * DAY ==> !Matches(s, u)
  {
    forall u | t <= u < (DayOf(t) + 1) * DAY
      ensures !Matches(s, u)
    {
      SameDay(t, u);
    }
  }

  lemma SkipHour(s: Schedule, t: int)
    requires HourOf(t) !in s.hour
    ensures (t / 60 + 1) * 60 > t
    ensures forall u :: t <= u < (t / 60 + 1) * 60 ==> !Matches(s, u)
  {
    forall u | t <= u < (t / 60 + 1) * 60
      ensures !Matches(s, u)
    {
      SameHour(t, u);
    }
  }

  /** The answer is unique, and it matches exactly when some minute up to the end of the window does. */
  lemma NextIsDetermined(s: Schedule, start: int, r: int, r': int)
    requires NaiveNext(s, start, r) && NaiveNext(s, start, r')
    ensures r == r'
    ensures Matches(s, r) <==> exists u :: start <= u <= start + HORIZON && Matches(s, u)
  {
  }

  // ---------------------------------------------------------------- which schedules always fire

  /** Fields as the parser delivers them, with the weekday unrestricted. */
  predicate AnyWeekday(s: Schedule) {
    && (forall w :: 0 <= w < 7 ==> w in s.dayOfWeek)
    && (exists h :: 0 <= h < 24 && h in s.hour)
    && (exists m :: 0 <= m < 60 && m in s.minute)
  }

  /** Some selected date exists in every year. */
  predicate HasYearlyDate(s: Schedule) {
    exists m, d :: 1 <= m <= 12 && m in s.month && 1 <= d <= DaysIn(2023, m) && d in s.dayOfMonth
  }

  lemma DateWithinTwoYears(start: int, m: int, d: int) returns (n: int)
    requires 1 <= m <= 12 && 1 <= d <= DaysIn(2023, m)
    ensures start < n <= start + 731
    ensures Civil(n).month == m && Civil(n).day == d
  {
    hide Civil, DaysBeforeYear, DaysBeforeMonth;
    var y := Civil(start).year + 1;
    DayNumberOfCivil(start);
    WithinYear(Civil(start));
    var date := Date(y, m, d);
    assert ValidDate(date);
    WithinYear(date);
    CivilOfDayNumber(date);
    YearLength(y);
    YearLength(y - 1);
    n := DayNumber(date);
  }

  /** A minute of the last selected date that only leap years have. */
  lemma OnlyLeapDays(s: Schedule, t: int)
    requires !HasYearlyDate(s) && Matches(s, t)
    ensures Civil(DayOf(t)).month == 2 && Civil(DayOf(t)).day == 29 && Leap(Civil(DayOf(t)).year)
  {
    hide Civil;
    var d := Civil(DayOf(t));
    assert d.day > DaysIn(2023, d.month);
  }

  // The common year 2100 leaves almost eight years between two leap days.
  const LATE_FEBRUARY_2096 := Date(2096, 2, 29)

  lemma NoLeapDayUntil2104(n: int)
    requires DayNumber(LATE_FEBRUARY_2096) < n <= DayNumber(LATE_FEBRUARY_2096) + 1461
    ensures !(Civil(n).month == 2 && Civil(n).day == 29)
  {
    hide Civil;
    var d := Civil(n);
    DayNumberOfCivil(n);
    if d.month == 2 && d.day == 29 {
      if d.year <= 2096 {
        YearsAscend(d.year, 2096);
      } else if d.year >= 2104 {
        YearsAscend(2104, d.year);
      }
    }
  }

  /**
   * With the weekday unrestricted, next returns a firing time from every starting point exactly when some
   * selected date exists in every year. A schedule confined to 29 February fails: the horizon of 4*365
   * days does not reach from one leap day to the next.
   */
  lemma AlwaysFiresIff(s: Schedule)
    requires AnyWeekday(s)
    ensures HasYearlyDate(s) <==> forall start, r :: NaiveNext(s, start, r) ==> Matches(s, r)
  {
    if HasYearlyDate(s) {
      forall start, r | NaiveNext(s, start, r)
        ensures Matches(s, r)
      {
        FiresWithinWindow(s, start, r);
      }
    } else {
      MissedLeapDay(s);
    }
  }

  lemma FiresWithinWindow(s: Schedule, start: int, r: int)
    requires AnyWeekday(s) && HasYearlyDate(s) && NaiveNext(s, start, r)
    ensures Matches(s, r)
  {
    hide Civil;
    var m, d :| 1 <= m <= 12 && m in s.month && 1 <= d <= DaysIn(2023, m) && d in s.dayOfMonth;
    var n := DateWithinTwoYears(DayOf(start), m, d);
    var hh :| 0 <= hh < 24 && hh in s.hour;
    var mm :| 0 <= mm < 60 && mm in s.minute;
    var u := n * DAY + hh * 60 + mm;
    MinuteParts(n, hh, mm);
    assert Matches(s, u);
    assert start <= u < start + HORIZON;
  }

  lemma MissedLeapDay(s: Schedule)
    requires !HasYearlyDate(s)
    ensures exists start, r :: NaiveNext(s, start, r) && !Matches(s, r)
  {
    hide Civil, DayNumber;
    var start := (DayNumber(LATE_FEBRUARY_2096) + 1) * DAY;
    var r := start + HORIZON;
    forall u | start <= u <= r
      ensures !Matches(s, u)
    {
      if Matches(s, u) {
        OnlyLeapDays(s, u);
        NoLeapDayUntil2104(DayOf(u));
      }
    }
    assert NaiveNext(s, start, r);
  }
}
