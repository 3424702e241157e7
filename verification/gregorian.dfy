/** The proleptic Gregorian calendar as JavaScript's local-time `Date`
    getters see it: a full year, a month numbered 0..11 (`getMonth`), a day
    of the month (`getDate`) and a weekday numbered 0..6 from Sunday
    (`getDay`). Days are counted from 1 January of year 1, a Monday. */
module Gregorian {

  type Month = m: int | 0 <= m < 12
  type Weekday = w: int | 0 <= w < 7

  predicate IsLeapYear(y: int)
  {
    y % 4 == 0 && (y % 100 != 0 || y % 400 == 0)
  }

  function DaysInMonth(y: int, m: Month): int
  {
    if m == 1 then (if IsLeapYear(y) then 29 else 28)
    else if m == 3 || m == 5 || m == 8 || m == 10 then 30
    else 31
  }

  /** A calendar day; `day` may lie outside its month, as the argument of
      `setDate` may. */
  datatype Date = Date(year: int, month: Month, day: int)

  predicate IsValid(d: Date)
  {
    1 <= d.day <= DaysInMonth(d.year, d.month)
  }

  /** A day that a `Date` object can report through its getters. */
  type CalendarDate = d: Date | IsValid(d) witness Date(1970, 0, 1)

  function DaysBeforeYear(y: int): int
  {
    365 * (y - 1) + (y - 1) / 4 - (y - 1) / 100 + (y - 1) / 400
  }

  function DaysBeforeMonth(y: int, m: Month): int
  {
    var common :=
      if m == 0 then 0 else if m == 1 then 31 else if m == 2 then 59
      else if m == 3 then 90 else if m == 4 then 120 else if m == 5 then 151
      else if m == 6 then 181 else if m == 7 then 212 else if m == 8 then 243
      else if m == 9 then 273 else if m == 10 then 304 else 334;
    common + (if m >= 2 && IsLeapYear(y) then 1 else 0)
  }

  /** The number of the first day of month m of year y. */
  function MonthStart(y: int, m: Month): int
  {
    DaysBeforeYear(y) + DaysBeforeMonth(y, m)
  }

  /** The serial number of a day, counting days out of the month's range
      onward from its first day as `Date` arithmetic does. */
  function DayNumber(d: Date): int
  {
    MonthStart(d.year, d.month) + d.day - 1
  }

  /** `getDay()`: 0 is Sunday, 6 is Saturday. */
  function DayOfWeek(d: Date): Weekday
  {
    (DayNumber(d) + 1) % 7
  }

  function NextMonth(y: int, m: Month): (int, Month)
  {
    if m == 11 then (y + 1, 0) else (y, m + 1)
  }

  function PrevMonth(y: int, m: Month): (int, Month)
  {
    if m == 0 then (y - 1, 11) else (y, m - 1)
  }

  /** Stepping from y - 1 to y, the quotient by k grows by one exactly when
      k divides y. */
  lemma QuotientStep(y: int, k: int)
    requires k == 4 || k == 100 || k == 400
    ensures y / k - (y - 1) / k == if y % k == 0 then 1 else 0
  {
    if k == 4 {
      assert y / 4 - (y - 1) / 4 == if y % 4 == 0 then 1 else 0;
    } else if k == 100 {
      assert y / 100 - (y - 1) / 100 == if y % 100 == 0 then 1 else 0;
    } else {
      assert y / 400 - (y - 1) / 400 == if y % 400 == 0 then 1 else 0;
    }
  }

  lemma MultipleOf4(y: int, t: int)
    requires y == 4 * t
    ensures y % 4 == 0
  {
  }

  lemma MultipleOf100(y: int, t: int)
    requires y == 100 * t
    ensures y % 100 == 0 && y % 4 == 0
  {
    MultipleOf4(y, 25 * t);
  }

  lemma CenturyDivisibility(y: int)
    ensures y % 400 == 0 ==> y % 100 == 0
    ensures y % 100 == 0 ==> y % 4 == 0
  {
    if y % 400 == 0 {
      MultipleOf100(y, 4 * (y / 400));
    }
    if y % 100 == 0 {
      MultipleOf4(y, 25 * (y / 100));
    }
  }

  /** A year has 366 days exactly when it is a leap year. */
  lemma YearLength(y: int)
    ensures DaysBeforeYear(y + 1) - DaysBeforeYear(y) == if IsLeapYear(y) then 366 else 365
  {
    QuotientStep(y, 4);
    QuotientStep(y, 100);
    QuotientStep(y, 400);
    CenturyDivisibility(y);
  }

  /** Months follow one another without gaps across year ends. */
  lemma {:induction false} MonthStep(y: int, m: Month)
    ensures MonthStart(NextMonth(y, m).0, NextMonth(y, m).1) == MonthStart(y, m) + DaysInMonth(y, m)
  {
    if m == 11 {
      YearLength(y);
    }
  }

  /** The day `new Date(y, m, n)` denotes: an out-of-range day of the month
      carries into the following or the preceding months. */
  function Normalize(y: int, m: Month, n: int): CalendarDate
    decreases if n < 1 then 64 - n else n
  {
    if n < 1 then
      var (py, pm) := PrevMonth(y, m);
      Normalize(py, pm, n + DaysInMonth(py, pm))
    else if n <= DaysInMonth(y, m) then
      Date(y, m, n)
    else
      var (ny, nm) := NextMonth(y, m);
      Normalize(ny, nm, n - DaysInMonth(y, m))
  }

  /** Carrying an out-of-range day into other months keeps its serial
      number. */
  lemma {:induction false} NormalizeDayNumber(y: int, m: Month, n: int)
    ensures DayNumber(Normalize(y, m, n)) == MonthStart(y, m) + n - 1
    decreases if n < 1 then 64 - n else n
  {
    if n < 1 {
      var (py, pm) := PrevMonth(y, m);
      assert NextMonth(py, pm) == (y, m);
      MonthStep(py, pm);
      assert Normalize(y, m, n) == Normalize(py, pm, n + DaysInMonth(py, pm));
      NormalizeDayNumber(py, pm, n + DaysInMonth(py, pm));
    } else if n > DaysInMonth(y, m) {
      var (ny, nm) := NextMonth(y, m);
      MonthStep(y, m);
      assert Normalize(y, m, n) == Normalize(ny, nm, n - DaysInMonth(y, m));
      NormalizeDayNumber(ny, nm, n - DaysInMonth(y, m));
    }
  }

  /** A positive day only ever carries forward, into a month that starts
      no earlier, and lands on a day of the month no larger. */
  lemma {:induction false} NormalizeForward(y: int, m: Month, n: int)
    requires n >= 1
    ensures Normalize(y, m, n).day <= n
    ensures MonthStart(Normalize(y, m, n).year, Normalize(y, m, n).month) >= MonthStart(y, m)
    decreases n
  {
    if n > DaysInMonth(y, m) {
      var (ny, nm) := NextMonth(y, m);
      MonthStep(y, m);
      NormalizeForward(ny, nm, n - DaysInMonth(y, m));
    }
  }

  /** `d.setDate(n)`: the n-th day counted from the first day of d's month. */
  function SetDate(d: Date, n: int): CalendarDate
  {
    Normalize(d.year, d.month, n)
  }

  /** `setDate(n)` moves a date by n minus its day of the month, and a
      positive n never moves it into an earlier month. */
  lemma SetDateDayNumber(d: Date, n: int)
    ensures DayNumber(SetDate(d, n)) == DayNumber(d) - d.day + n
    ensures n >= 1 ==>
      SetDate(d, n).day <= n && DayNumber(SetDate(d, n)) - SetDate(d, n).day >= DayNumber(d) - d.day
  {
    NormalizeDayNumber(d.year, d.month, n);
    if n >= 1 {
      NormalizeForward(d.year, d.month, n);
    }
  }

  /** Setting a day that overshoots d's month by at most 28 days lands in
      the next month, never further. */
  lemma SetDateIntoNextMonth(d: CalendarDate, n: int)
    requires d.day <= n <= DaysInMonth(d.year, d.month) + 28
    ensures n <= DaysInMonth(d.year, d.month) ==> SetDate(d, n) == Date(d.year, d.month, n)
    ensures n > DaysInMonth(d.year, d.month) ==>
      var (ny, nm) := NextMonth(d.year, d.month);
      SetDate(d, n) == Date(ny, nm, n - DaysInMonth(d.year, d.month))
  {
    var dim := DaysInMonth(d.year, d.month);
    if n > dim {
      var (ny, nm) := NextMonth(d.year, d.month);
      assert DaysInMonth(ny, nm) >= 28;
      assert Normalize(ny, nm, n - dim) == Date(ny, nm, n - dim);
      assert SetDate(d, n) == Normalize(ny, nm, n - dim);
    }
  }

  /** Moving a day number by k moves its weekday by k. */
  lemma WeekdayShift(x: int, k: nat)
    ensures (x + k + 1) % 7 == ((x + 1) % 7 + k) % 7
  {
  }

  /** A day k days after another falls k weekdays later. */
  lemma DayOfWeekShift(a: Date, b: Date, k: nat)
    requires DayNumber(b) == DayNumber(a) + k
    ensures DayOfWeek(b) == (DayOfWeek(a) + k) % 7
  {
    WeekdayShift(DayNumber(a), k);
  }

  /** Calendar order: earlier year, or earlier month of the same year, or
      earlier day of the same month. */
  predicate Precedes(a: Date, b: Date)
  {
    || a.year < b.year
    || (a.year == b.year && a.month < b.month)
    || (a.year == b.year && a.month == b.month && a.day < b.day)
  }

  /** Each year starts at least 365 days after any earlier one. */
  lemma {:induction false} YearsApart(y1: int, y2: int)
    requires y1 <= y2
    ensures DaysBeforeYear(y2) - DaysBeforeYear(y1) >= 365 * (y2 - y1)
    decreases y2 - y1
  {
    if y1 < y2 {
      YearLength(y2 - 1);
      YearsApart(y1, y2 - 1);
    }
  }

  /** A later month of the same year starts after the whole of an earlier
      month. */
  lemma {:induction false} MonthsApart(y: int, m1: Month, m2: Month)
    requires m1 < m2
    ensures MonthStart(y, m2) >= MonthStart(y, m1) + DaysInMonth(y, m1)
    decreases m2 - m1
  {
    MonthStep(y, m2 - 1);
    if m1 < m2 - 1 {
      MonthsApart(y, m1, m2 - 1);
      assert DaysInMonth(y, m2 - 1) >= 28;
    }
  }

  /** Every day of year y comes before the first day of year y + 1. */
  lemma WithinYear(d: CalendarDate)
    ensures DaysBeforeYear(d.year) <= DayNumber(d) < DaysBeforeYear(d.year + 1)
  {
    if d.month < 11 {
      MonthsApart(d.year, d.month, 11);
    }
    MonthStep(d.year, 11);
  }

  lemma PrecedesBefore(a: CalendarDate, b: CalendarDate)
    requires Precedes(a, b)
    ensures DayNumber(a) < DayNumber(b)
  {
    if a.year < b.year {
      WithinYear(a);
      WithinYear(b);
      YearsApart(a.year + 1, b.year);
    } else if a.month < b.month {
      MonthsApart(a.year, a.month, b.month);
    }
  }

  /** Day numbers put valid dates in calendar order, and distinct valid
      dates get distinct numbers. */
  lemma DateOrder(a: CalendarDate, b: CalendarDate)
    ensures DayNumber(a) < DayNumber(b) <==> Precedes(a, b)
    ensures DayNumber(a) == DayNumber(b) <==> a == b
  {
    if Precedes(a, b) {
      PrecedesBefore(a, b);
    } else if Precedes(b, a) {
      PrecedesBefore(b, a);
    }
  }

  /** Anchor of the weekday numbering: 1 January 1970 was a Thursday. */
  lemma UnixEpochIsThursday()
    ensures DayOfWeek(Date(1970, 0, 1)) == 4
  {
  }
}
