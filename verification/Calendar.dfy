/**
 * The proleptic Gregorian calendar in UTC. Days are numbered from 0001-01-01 (a Monday), Go's zero time.
 * Civil is defined by stepping from one day to the next; DayNumber is the closed form; each inverts the other.
 */
module Calendar {
  import opened Prelude

  datatype Date = Date(year: int, month: int, day: int)

  predicate Leap(y: int) {
    y % 4 == 0 && (y % 100 != 0 || y % 400 == 0)
  }

  function DaysIn(y: int, m: int): (n: nat)
    ensures 28 <= n <= 31
  {
    if m == 2 then (if Leap(y) then 29 else 28)
    else if m == 4 || m == 6 || m == 9 || m == 11 then 30
    else 31
  }

  predicate ValidDate(d: Date) {
    1 <= d.month <= 12 && 1 <= d.day <= DaysIn(d.year, d.month)
  }

  function NextDay(d: Date): (r: Date)
    requires ValidDate(d)
    ensures ValidDate(r)
  {
    if d.day < DaysIn(d.year, d.month) then Date(d.year, d.month, d.day + 1)
    else if d.month < 12 then Date(d.year, d.month + 1, 1)
    else Date(d.year + 1, 1, 1)
  }

  function PrevDay(d: Date): (r: Date)
    requires ValidDate(d)
    ensures ValidDate(r)
  {
    if d.day > 1 then Date(d.year, d.month, d.day - 1)
    else if d.month > 1 then Date(d.year, d.month - 1, DaysIn(d.year, d.month - 1))
    else Date(d.year - 1, 12, 31)
  }

  /** The date of day number n. */
  function Civil(n: int): (d: Date)
    ensures ValidDate(d)
    decreases if n < 0 then -n else n
  {
    if n == 0 then Date(1, 1, 1)
    else if n > 0 then NextDay(Civil(n - 1))
    else PrevDay(Civil(n + 1))
  }

  function DaysBeforeYear(y: int): int {
    365 * (y - 1) + (y - 1) / 4 - (y - 1) / 100 + (y - 1) / 400
  }

  function DaysBeforeMonth(y: int, m: int): int {
    var leap := if Leap(y) then 1 else 0;
    if m <= 1 then 0 else if m == 2 then 31 else if m == 3 then 59 + leap else if m == 4 then 90 + leap
    else if m == 5 then 120 + leap else if m == 6 then 151 + leap else if m == 7 then 181 + leap
    else if m == 8 then 212 + leap else if m == 9 then 243 + leap else if m == 10 then 273 + leap
    else if m == 11 then 304 + leap else if m == 12 then 334 + leap else 365 + leap
  }

  function DayNumber(d: Date): int {
    DaysBeforeYear(d.year) + DaysBeforeMonth(d.year, d.month) + d.day - 1
  }

  lemma FloorStep(y: int, k: int)
    requires k > 1
    ensures y / k - (y - 1) / k == if y % k == 0 then 1 else 0
  {
    var q, r := y / k, y % k;
    assert y == q * k + r;
    if r == 0 {
      assert y - 1 == (q - 1) * k + (k - 1);
      DivUnique(y - 1, k, q - 1, k - 1);
    } else {
      DivUnique(y - 1, k, q, r - 1);
    }
  }

  lemma YearLength(y: int)
    ensures DaysBeforeYear(y + 1) - DaysBeforeYear(y) == if Leap(y) then 366 else 365
  {
    FloorStep(y, 4);
    FloorStep(y, 100);
    FloorStep(y, 400);
  }

  lemma MonthLength(y: int, m: int)
    requires 1 <= m <= 12
    ensures DaysBeforeMonth(y, m + 1) - DaysBeforeMonth(y, m) == DaysIn(y, m)
  {
  }

  lemma NextDayNumber(d: Date)
    requires ValidDate(d)
    ensures DayNumber(NextDay(d)) == DayNumber(d) + 1
  {
    MonthLength(d.year, d.month);
    YearLength(d.year);
  }

  lemma PrevDayNumber(d: Date)
    requires ValidDate(d)
    ensures DayNumber(PrevDay(d)) == DayNumber(d) - 1
  {
    if d.month > 1 {
      MonthLength(d.year, d.month - 1);
    }
    YearLength(d.year - 1);
  }

  lemma {:induction false} DayNumberOfCivil(n: int)
    ensures DayNumber(Civil(n)) == n
    decreases if n < 0 then -n else n
  {
    if n > 0 {
      DayNumberOfCivil(n - 1);
      NextDayNumber(Civil(n - 1));
    } else if n < 0 {
      DayNumberOfCivil(n + 1);
      PrevDayNumber(Civil(n + 1));
    }
  }

  lemma {:induction false} YearsAscend(a: int, b: int)
    requires a <= b
    ensures DaysBeforeYear(a) + 365 * (b - a) <= DaysBeforeYear(b)
    decreases b - a
  {
    if a < b {
      YearsAscend(a, b - 1);
      YearLength(b - 1);
    }
  }

  lemma WithinYear(d: Date)
    requires ValidDate(d)
    ensures DaysBeforeYear(d.year) <= DayNumber(d) < DaysBeforeYear(d.year + 1)
  {
    YearLength(d.year);
  }

  lemma MonthsAscend(y: int, a: int, b: int)
    requires 1 <= a < b <= 12
    ensures DaysBeforeMonth(y, a) + DaysIn(y, a) <= DaysBeforeMonth(y, b)
  {
  }

  lemma SameYearInjective(a: Date, b: Date)
    requires ValidDate(a) && ValidDate(b) && a.year == b.year && DayNumber(a) == DayNumber(b)
    ensures a == b
  {
    hide DaysBeforeYear, DaysBeforeMonth, DaysIn;
    if a.month < b.month {
      MonthsAscend(a.year, a.month, b.month);
    } else if b.month < a.month {
      MonthsAscend(a.year, b.month, a.month);
    }
  }

  lemma DayNumberInjective(a: Date, b: Date)
    requires ValidDate(a) && ValidDate(b) && DayNumber(a) == DayNumber(b)
    ensures a == b
  {
    hide DaysBeforeYear, DayNumber, DaysIn;
    WithinYear(a);
    WithinYear(b);
    if a.year < b.year {
      YearsAscend(a.year + 1, b.year);
    } else if b.year < a.year {
      YearsAscend(b.year + 1, a.year);
    } else {
      SameYearInjective(a, b);
    }
  }

  /** Every valid date is the date of its day number. */
  lemma CivilOfDayNumber(d: Date)
    requires ValidDate(d)
    ensures Civil(DayNumber(d)) == d
  {
    DayNumberOfCivil(DayNumber(d));
    DayNumberInjective(Civil(DayNumber(d)), d);
  }

  /**
   * Day numbers agree with the usual closed formula for the Gregorian calendar, which has no table of month
   * lengths: (367*m - 362)/12 days before month m, less one or two after February.
   */
  lemma GregorianFormula(d: Date)
    requires ValidDate(d)
    ensures var y, m := d.year, d.month;
            var leap := y % 4 == 0 && (y % 100 != 0 || y % 400 == 0);
            DayNumber(d) == 365 * (y - 1) + (y - 1) / 4 - (y - 1) / 100 + (y - 1) / 400
                            + (367 * m - 362) / 12 - (if m <= 2 then 0 else if leap then 1 else 2) + d.day - 1
  {
  }

  /** The length of a month by the same formula: the distance between two firsts. */
  lemma MonthLengths(y: int, m: int, n: int)
    requires 1 <= m <= 12
    ensures var leap := y % 4 == 0 && (y % 100 != 0 || y % 400 == 0);
            var early := if m != 2 then 0 else if leap then 1 else 2;
            var next := if m == 12 then (367 * m - 362) / 12 + 31 else (367 * (m + 1) - 362) / 12;
            ValidDate(Date(y, m, n)) <==> 1 <= n <= next - (367 * m - 362) / 12 - early
  {
  }

  // ---------------------------------------------------------------- clock time, in minutes since day 0

  /** The Unix epoch was a Thursday. */
  lemma UnixEpoch(n: int)
    ensures Civil(n) == Date(1970, 1, 1) <==> n == 719162
    ensures n == 719162 ==> WeekdayOf(n * DAY) == 4
  {
    hide Civil;
    CivilOfDayNumber(Date(1970, 1, 1));
    DayNumberOfCivil(n);
  }

  const DAY := 1440

  function DayOf(t: int): int { t / DAY }

  function MonthOf(t: int): int { Civil(DayOf(t)).month }

  function DayOfMonthOf(t: int): int { Civil(DayOf(t)).day }

  /** 0 is Sunday. */
  function WeekdayOf(t: int): int { (DayOf(t) + 1) % 7 }

  function HourOf(t: int): int { t % DAY / 60 }

  function MinuteOf(t: int): int { t % 60 }

  function FirstOfNextMonth(d: Date): (f: Date)
    requires ValidDate(d)
    ensures ValidDate(f)
  {
    if d.month == 12 then Date(d.year + 1, 1, 1) else Date(d.year, d.month + 1, 1)
  }

  /** time.Date(y, m+1, 1, 0, 0, 0, 0, UTC), which carries month 13 into the next year. */
  function NextMonth(t: int): int {
    DayNumber(FirstOfNextMonth(Civil(DayOf(t)))) * DAY
  }

  lemma MonthSpan(d: Date)
    requires ValidDate(d)
    ensures DayNumber(FirstOfNextMonth(d)) == DayNumber(d) - d.day + 1 + DaysIn(d.year, d.month)
  {
    MonthLength(d.year, d.month);
    YearLength(d.year);
  }

  lemma RestOfMonth(n: int, k: int)
    requires n <= k < DayNumber(FirstOfNextMonth(Civil(n)))
    ensures Civil(k).month == Civil(n).month
  {
    hide DaysIn, Civil;
    var d := Civil(n);
    DayNumberOfCivil(n);
    MonthSpan(d);
    var e := Date(d.year, d.month, d.day + k - n);
    assert DayNumber(e) == DayNumber(d) + k - n;
    CivilOfDayNumber(e);
  }

  /** Jumping to the first of the next month skips the rest of the current month and nothing else. */
  lemma NextMonthSkips(t: int)
    ensures NextMonth(t) > t
    ensures forall u :: t <= u < NextMonth(t) ==> MonthOf(u) == MonthOf(t)
    ensures MonthOf(NextMonth(t)) != MonthOf(t)
  {
    hide Civil, DayNumber;
    var n := DayOf(t);
    var first := DayNumber(FirstOfNextMonth(Civil(n)));
    DayNumberOfCivil(n);
    MonthSpan(Civil(n));
    assert n < first;
    forall u | t <= u < NextMonth(t)
      ensures MonthOf(u) == MonthOf(t)
    {
      RestOfMonth(n, DayOf(u));
    }
    CivilOfDayNumber(FirstOfNextMonth(Civil(n)));
    DivUnique(NextMonth(t), DAY, first, 0);
  }
}
