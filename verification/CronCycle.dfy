/** Which schedules always find a firing time within the four-year horizon: a check over one 400-year cycle of the calendar. */
module CronCycle {
  import opened Prelude
  import opened Calendar
  import opened CronNext

  // Days in 400 years, a whole number of weeks.
  const CYCLE := 146097
  const SPAN := 1460

  predicate DayMatches(s: Schedule, n: int) {
    Civil(n).month in s.month && Civil(n).day in s.dayOfMonth && (n + 1) % 7 in s.dayOfWeek
  }

  predicate TimeMatches(s: Schedule, m: int) {
    0 <= m < DAY && m / 60 in s.hour && m % 60 in s.minute
  }

  lemma MatchesSplits(s: Schedule, n: int, m: int)
    requires 0 <= m < DAY
    ensures Matches(s, n * DAY + m) <==> DayMatches(s, n) && TimeMatches(s, m)
  {
    hide Civil;
    assert m == m / 60 * 60 + m % 60;
    MinuteParts(n, m / 60, m % 60);
  }

  /** The calendar and the weekdays repeat after 400 years. */
  lemma CalendarRepeats(n: int, k: int)
    ensures Civil(n + k * CYCLE) == Date(Civil(n).year + 400 * k, Civil(n).month, Civil(n).day)
    ensures (n + k * CYCLE + 1) % 7 == (n + 1) % 7
  {
    hide Civil, DaysBeforeYear, DaysBeforeMonth, Leap;
    var d := Civil(n);
    var later := Date(d.year + 400 * k, d.month, d.day);
    DayNumberOfCivil(n);
    YearsRepeat(d.year, k);
    assert ValidDate(later);
    SameMonths(d.year, d.year + 400 * k, d.month);
    assert DayNumber(later) == n + k * CYCLE;
    CivilOfDayNumber(later);
    Shifted(n + 1, 7, 20871 * k);
    assert 7 * (20871 * k) == k * CYCLE;
  }

  lemma SameMonths(y: int, z: int, m: int)
    requires Leap(y) == Leap(z)
    ensures DaysBeforeMonth(y, m) == DaysBeforeMonth(z, m)
  {
  }

  lemma Shifted(y: int, d: int, q: int)
    requires d > 0
    ensures (y + d * q) / d == y / d + q && (y + d * q) % d == y % d
  {
    assert y == y / d * d + y % d;
    assert (y / d + q) * d == y / d * d + d * q;
    DivUnique(y + d * q, d, y / d + q, y % d);
  }

  lemma YearsRepeat(y: int, k: int)
    ensures Leap(y + 400 * k) == Leap(y)
    ensures DaysBeforeYear(y + 400 * k) == DaysBeforeYear(y) + k * CYCLE
  {
    var x := y - 1;
    Shifted(y, 4, 100 * k);
    Shifted(y, 100, 4 * k);
    Shifted(y, 400, k);
    Shifted(x, 4, 100 * k);
    Shifted(x, 100, 4 * k);
    Shifted(x, 400, k);
    assert y + 400 * k - 1 == x + 400 * k;
  }

  lemma DayMatchesRepeats(s: Schedule, n: int, k: int)
    ensures DayMatches(s, n + k * CYCLE) == DayMatches(s, n)
  {
    hide Civil;
    CalendarRepeats(n, k);
  }

  /**
   * Whatever minute of day d the search starts in, it meets a firing time within the horizon: on a day
   * between, or on d itself late enough, or on the last day early enough.
   */
  predicate DayCovered(s: Schedule, d: int) {
    || (exists n :: d < n < d + SPAN && DayMatches(s, n))
    || (DayMatches(s, d) && DayMatches(s, d + SPAN))
    || (DayMatches(s, d) && TimeMatches(s, DAY - 1))
    || (DayMatches(s, d + SPAN) && TimeMatches(s, 0))
  }

  lemma DayCoveredRepeats(s: Schedule, d: int, k: int)
    ensures DayCovered(s, d) ==> DayCovered(s, d + k * CYCLE)
  {
    hide DayMatches, TimeMatches;
    DayMatchesRepeats(s, d, k);
    DayMatchesRepeats(s, d + SPAN, k);
    if n :| d < n < d + SPAN && DayMatches(s, n) {
      DayMatchesRepeats(s, n, k);
      assert DayMatches(s, n + k * CYCLE);
    }
  }

  ghost predicate AlwaysFires(s: Schedule) {
    forall start, r :: NaiveNext(s, start, r) ==> Matches(s, r)
  }

  /** A day that is not covered has a minute from which the search runs into its limit. */
  lemma UncoveredDayMisses(s: Schedule, d: int)
    requires !DayCovered(s, d)
    ensures !AlwaysFires(s)
  {
    hide DayMatches, TimeMatches, Matches;
    // late on a firing day, early otherwise
    var m := if DayMatches(s, d) then DAY - 1 else 0;
    var start := d * DAY + m;
    forall u | start <= u <= start + HORIZON
      ensures !Matches(s, u)
    {
      var n, v := u / DAY, u % DAY;
      MatchesSplits(s, n, v);
      DaysBetween(d, m, u);
      assert n == d ==> v >= m;
      assert n == d + SPAN ==> v <= m;
    }
    assert NaiveNext(s, start, start + HORIZON);
  }

  lemma DaysBetween(d: int, m: int, u: int)
    requires 0 <= m < DAY && d * DAY + m <= u <= d * DAY + m + HORIZON
    ensures var n, v := u / DAY, u % DAY;
            && u == n * DAY + v && 0 <= v < DAY && d <= n <= d + SPAN
            && (n == d ==> v >= m) && (n == d + SPAN ==> v <= m)
  {
  }

  /** A firing minute inside the window makes the search succeed. */
  lemma FiresInWindow(s: Schedule, start: int, r: int, n: int, v: int)
    requires NaiveNext(s, start, r) && DayMatches(s, n) && TimeMatches(s, v)
    requires var d, m := start / DAY, start % DAY;
             d <= n <= d + SPAN && (n == d ==> v >= m) && (n == d + SPAN ==> v <= m)
    ensures Matches(s, r)
  {
    hide DayMatches, Matches;
    MatchesSplits(s, n, v);
    assert start <= n * DAY + v <= start + HORIZON;
    NextIsDetermined(s, start, r, r);
  }

  lemma CoveredDayFires(s: Schedule, start: int, r: int, t: int)
    requires NaiveNext(s, start, r) && DayCovered(s, start / DAY) && TimeMatches(s, t)
    ensures Matches(s, r)
  {
    hide DayMatches, Matches, NaiveNext;
    var d, m := start / DAY, start % DAY;
    if n :| d < n < d + SPAN && DayMatches(s, n) {
      FiresInWindow(s, start, r, n, t);
    } else if DayMatches(s, d) && DayMatches(s, d + SPAN) {
      FiresInWindow(s, start, r, if t >= m then d else d + SPAN, t);
    } else if DayMatches(s, d) && TimeMatches(s, DAY - 1) {
      FiresInWindow(s, start, r, d, DAY - 1);
    } else {
      FiresInWindow(s, start, r, d + SPAN, 0);
    }
  }

  lemma NoTimeNeverFires(s: Schedule)
    requires forall t :: !TimeMatches(s, t)
    ensures !AlwaysFires(s)
  {
    hide DayMatches, TimeMatches, Matches;
    forall u | 0 <= u <= HORIZON
      ensures !Matches(s, u)
    {
      MatchesSplits(s, u / DAY, u % DAY);
    }
    assert NaiveNext(s, 0, HORIZON);
  }

  /**
   * For every schedule: next returns a firing time from every starting point exactly when the schedule
   * selects some time of day and every day of one 400-year cycle is covered.
   */
  lemma AlwaysFiresOverCycle(s: Schedule)
    ensures (forall start, r :: NaiveNext(s, start, r) ==> Matches(s, r)) <==>
              (exists t :: TimeMatches(s, t)) && (forall d :: 0 <= d < CYCLE ==> DayCovered(s, d))
  {
    hide DayCovered, TimeMatches, Matches, NaiveNext;
    if d :| 0 <= d < CYCLE && !DayCovered(s, d) {
      UncoveredDayMisses(s, d);
    } else if t :| TimeMatches(s, t) {
      forall start, r | NaiveNext(s, start, r)
        ensures Matches(s, r)
      {
        var d := start / DAY;
        DayCoveredRepeats(s, d % CYCLE, d / CYCLE);
        assert d % CYCLE + d / CYCLE * CYCLE == d;
        CoveredDayFires(s, start, r, t);
      }
    } else {
      NoTimeNeverFires(s);
    }
  }

  // ---------------------------------------------------------------- a schedule with a weekday that misses

  // 0 0 1 1 1: midnight of a 1 January that is a Monday
  const MONDAY_NEW_YEAR := Schedule([0], [0], [1], [1], [1])
  // 2018-01-01, the last such Monday before 2024
  const NEW_YEAR_2018 := DayNumber(Date(2018, 1, 1))

  lemma NoMondayNewYear(n: int)
    requires NEW_YEAR_2018 < n <= NEW_YEAR_2018 + SPAN
    ensures !DayMatches(MONDAY_NEW_YEAR, n)
  {
    hide Civil;
    var d := Civil(n);
    DayNumberOfCivil(n);
    if d.month == 1 && d.day == 1 {
      if d.year <= 2018 {
        YearsAscend(d.year, 2018);
      } else if d.year >= 2022 {
        YearsAscend(2022, d.year);
      }
      assert d.year == 2019 || d.year == 2020 || d.year == 2021;
    }
  }

  /** Restricting the weekday can miss too: from just after midnight of 2018-01-01 the next Monday new year is six years off. */
  lemma MondayNewYearMisses()
    ensures !DayCovered(MONDAY_NEW_YEAR, NEW_YEAR_2018)
    ensures exists start, r :: NaiveNext(MONDAY_NEW_YEAR, start, r) && !Matches(MONDAY_NEW_YEAR, r)
  {
    hide DayMatches, Matches, NaiveNext;
    forall n | NEW_YEAR_2018 < n <= NEW_YEAR_2018 + SPAN
      ensures !DayMatches(MONDAY_NEW_YEAR, n)
    {
      NoMondayNewYear(n);
    }
    UncoveredDayMisses(MONDAY_NEW_YEAR, NEW_YEAR_2018);
  }
}
