/** Proleptic Gregorian calendar on day numbers.

    A day is a natural number: day 0 is 0001-01-01, day 1 is 0001-01-02, and so on.
    Month lengths and the leap-year rule are those of section 5.7 and Appendix C of
    RFC 3339. `MakeDay` models JavaScript's normalising date arithmetic, which lets
    the month index and the day run out of range and carries the excess into the
    neighbouring months and years; `NewDate` is the constructor
    `new Date(year, monthIndex, day)`, which first reads a year of 0 to 99 as
    1900 + year. */
module Calendar {

  /** Day number of a calendar date (0 = 0001-01-01). */
  type Day = nat

  const MillisPerMinute: nat := 60000
  const MillisPerDay: nat := 86400000

  /** The day of a timestamp counted in milliseconds from the start of day 0, as
      `toISOString().split('T')[0]` reads it. */
  function DayOf(t: nat): Day {
    t / MillisPerDay
  }

  datatype Date = Date(year: int, month: int, day: int)

  predicate IsLeapYear(y: int) {
    y % 4 == 0 && (y % 100 != 0 || y % 400 == 0)
  }

  function DaysInYear(y: int): int {
    if IsLeapYear(y) then 366 else 365
  }

  /** Number of days in month `m` (1..12) of year `y`. */
  function DaysInMonth(y: int, m: int): (n: int)
    requires 1 <= m <= 12
    ensures 28 <= n <= 31
    ensures n == 31 <==> m in {1, 3, 5, 7, 8, 10, 12}
    ensures n == 30 <==> m in {4, 6, 9, 11}
    ensures n == 29 <==> m == 2 && IsLeapYear(y)
  {
    if m == 2 then (if IsLeapYear(y) then 29 else 28)
    else if m == 4 || m == 6 || m == 9 || m == 11 then 30
    else 31
  }

  predicate ValidDate(d: Date) {
    1 <= d.year && 1 <= d.month <= 12 && 1 <= d.day <= DaysInMonth(d.year, d.month)
  }

  /** Days in the years 1 .. y-1. */
  function DaysBeforeYear(y: int): nat
    requires y >= 1
  {
    if y == 1 then 0 else DaysBeforeYear(y - 1) + DaysInYear(y - 1)
  }

  /** Days in the months 1 .. m-1 of year y (m = 13 gives the whole year). */
  function DaysBeforeMonth(y: int, m: int): int
    requires 1 <= m <= 13
  {
    [0, 31, 59, 90, 120, 151, 181, 212, 243, 273, 304, 334, 365][m - 1]
    + (if IsLeapYear(y) && m > 2 then 1 else 0)
  }

  lemma DaysBeforeYearStep(y: int)
    requires y >= 1
    ensures DaysBeforeYear(y + 1) == DaysBeforeYear(y) + DaysInYear(y)
  {
  }

  lemma DaysBeforeMonthStep(y: int, m: int)
    requires 1 <= m <= 12
    ensures DaysBeforeMonth(y, m + 1) == DaysBeforeMonth(y, m) + DaysInMonth(y, m)
    ensures DaysBeforeMonth(y, 13) == DaysInYear(y)
  {
  }

  /** Later years start later: year b starts at least 365 days per year after year a. */
  lemma {:induction false} DaysBeforeYearGrows(a: int, b: int)
    requires 1 <= a <= b
    ensures DaysBeforeYear(b) - DaysBeforeYear(a) >= 365 * (b - a)
    decreases b - a
  {
    if a < b {
      DaysBeforeYearGrows(a, b - 1);
      DaysBeforeYearStep(b - 1);
    }
  }

  /** Later months of one year start later. */
  lemma DaysBeforeMonthGrows(y: int, a: int, b: int)
    requires 1 <= a <= b <= 13
    ensures DaysBeforeMonth(y, b) - DaysBeforeMonth(y, a) >= 28 * (b - a)
  {
  }

  /** Day number of a valid date. */
  function DayNumber(d: Date): (n: Day)
    requires ValidDate(d)
    ensures DaysBeforeYear(d.year) <= n < DaysBeforeYear(d.year + 1)
  {
    DaysBeforeYearStep(d.year);
    DaysBeforeMonthStep(d.year, d.month);
    DaysBeforeMonthGrows(d.year, d.month + 1, 13);
    DaysBeforeYear(d.year) + DaysBeforeMonth(d.year, d.month) + d.day - 1
  }

  /** The year holding day n, found by counting up from a year known to start no later. */
  function YearFrom(n: Day, y: int): (r: int)
    requires y >= 1 && DaysBeforeYear(y) <= n
    ensures r >= y && DaysBeforeYear(r) <= n < DaysBeforeYear(r + 1)
    decreases n - DaysBeforeYear(y)
  {
    DaysBeforeYearStep(y);
    if n < DaysBeforeYear(y + 1) then y else YearFrom(n, y + 1)
  }

  function YearOf(n: Day): (r: int)
    ensures r >= 1 && DaysBeforeYear(r) <= n < DaysBeforeYear(r + 1)
  {
    YearFrom(n, 1)
  }

  /** The month of year y holding the r-th day of that year (r counted from 0). */
  function MonthFrom(y: int, r: int, m: int): (k: int)
    requires 1 <= m <= 12 && DaysBeforeMonth(y, m) <= r < DaysBeforeMonth(y, 13)
    ensures m <= k <= 12 && DaysBeforeMonth(y, k) <= r < DaysBeforeMonth(y, k + 1)
    decreases 12 - m
  {
    DaysBeforeMonthStep(y, m);
    if r < DaysBeforeMonth(y, m + 1) then m else MonthFrom(y, r, m + 1)
  }

  /** Calendar date of a day number. */
  function ToDate(n: Day): (d: Date)
    ensures ValidDate(d) && DayNumber(d) == n
  {
    var y := YearOf(n);
    var r := n - DaysBeforeYear(y);
    DaysBeforeYearStep(y);
    DaysBeforeMonthStep(y, 12);
    var m := MonthFrom(y, r, 1);
    DaysBeforeMonthStep(y, m);
    Date(y, m, r - DaysBeforeMonth(y, m) + 1)
  }

  /** Only one year brackets a day number. */
  lemma YearBracketUnique(n: int, y1: int, y2: int)
    requires y1 >= 1 && DaysBeforeYear(y1) <= n < DaysBeforeYear(y1 + 1)
    requires y2 >= 1 && DaysBeforeYear(y2) <= n < DaysBeforeYear(y2 + 1)
    ensures y1 == y2
  {
    if y1 < y2 {
      DaysBeforeYearGrows(y1 + 1, y2);
    } else if y2 < y1 {
      DaysBeforeYearGrows(y2 + 1, y1);
    }
  }

  /** Distinct valid dates have distinct day numbers. */
  lemma DayNumberInjective(a: Date, b: Date)
    requires ValidDate(a) && ValidDate(b) && DayNumber(a) == DayNumber(b)
    ensures a == b
  {
    YearBracketUnique(DayNumber(a), a.year, b.year);
    var y := a.year;
    DaysBeforeMonthStep(y, a.month);
    DaysBeforeMonthStep(y, b.month);
    if a.month < b.month {
      DaysBeforeMonthGrows(y, a.month + 1, b.month);
    } else if b.month < a.month {
      DaysBeforeMonthGrows(y, b.month + 1, a.month);
    }
  }

  /** Converting a valid date to its day number and back gives the date. */
  lemma ToDateOfDayNumber(d: Date)
    requires ValidDate(d)
    ensures ToDate(DayNumber(d)) == d
  {
    DayNumberInjective(ToDate(DayNumber(d)), d);
  }

  /** Day of the week, 0 = Sunday .. 6 = Saturday (0001-01-01 was a Monday). */
  function Weekday(n: Day): (w: int)
    ensures 0 <= w < 7
  {
    (n + 1) % 7
  }

  /** Weekdays advance by one each day and repeat every seven days. */
  lemma WeekdayNext(n: Day)
    ensures Weekday(n + 1) == (Weekday(n) + 1) % 7
    ensures Weekday(n + 7) == Weekday(n)
  {
  }

  /** The days before year y in closed form: 365 a year plus one for every leap
      year among 1 .. y-1. */
  lemma {:induction false} DaysBeforeYearClosed(y: int)
    requires y >= 1
    ensures DaysBeforeYear(y) == 365 * (y - 1) + (y - 1) / 4 - (y - 1) / 100 + (y - 1) / 400
    decreases y
  {
    if y > 1 {
      var n := y - 1;
      DaysBeforeYearClosed(n);
      LeapDaysStep(n - 1);
      assert DaysBeforeYear(y) == DaysBeforeYear(n) + DaysInYear(n);
    }
  }

  /** Year m + 1 adds one to the count of leap years exactly when it is one. */
  lemma LeapDaysStep(m: nat)
    ensures (m + 1) / 4 - (m + 1) / 100 + (m + 1) / 400
            == m / 4 - m / 100 + m / 400 + (if IsLeapYear(m + 1) then 1 else 0)
  {
    QuotientStep4(m);
    QuotientStep100(m);
    QuotientStep400(m);
    LeapIndicator(m + 1);
  }

  lemma QuotientStep4(m: nat)
    ensures (m + 1) / 4 == m / 4 + (if (m + 1) % 4 == 0 then 1 else 0)
  {
  }

  lemma QuotientStep100(m: nat)
    ensures (m + 1) / 100 == m / 100 + (if (m + 1) % 100 == 0 then 1 else 0)
  {
  }

  lemma QuotientStep400(m: nat)
    ensures (m + 1) / 400 == m / 400 + (if (m + 1) % 400 == 0 then 1 else 0)
  {
  }

  /** The leap rule as a sum: divisible by 4, less divisible by 100, plus divisible
      by 400. */
  lemma LeapIndicator(n: int)
    ensures (if IsLeapYear(n) then 1 else 0)
            == (if n % 4 == 0 then 1 else 0) - (if n % 100 == 0 then 1 else 0) + (if n % 400 == 0 then 1 else 0)
  {
    if n % 400 == 0 {
      var k := n / 400;
      assert n == 100 * (4 * k) && n == 4 * (100 * k);
    } else if n % 100 == 0 {
      var k := n / 100;
      assert n == 4 * (25 * k);
    }
  }

  /** The weekday of a known date: 1 January 1970, the start of the Unix epoch, was
      a Thursday. With WeekdayNext this fixes `getDay()` for every day. */
  lemma WeekdayAnchor()
    ensures Weekday(DayNumber(Date(1970, 1, 1))) == 4
  {
    DaysBeforeYearClosed(1970);
    assert DaysBeforeYear(1970) == 719162;
    assert DayNumber(Date(1970, 1, 1)) == DaysBeforeYear(1970);
  }

  /** Year and month (1..12) of a month index counted from 0 in January of `year`,
      as JavaScript normalises it: index 12 is January of the next year, -1 December
      of the previous one. */
  function NormalizeMonth(year: int, monthIndex: int): (r: (int, int))
    ensures 1 <= r.1 <= 12
    ensures 12 * r.0 + r.1 == 12 * year + monthIndex + 1
  {
    (year + monthIndex / 12, monthIndex % 12 + 1)
  }

  /** JavaScript's date arithmetic on a full year: the month index counts from 0 and
      both it and the day may overflow into neighbouring months and years. This is
      what `setMonth` computes, and what `new Date(year, monthIndex, day)` computes
      once NewDate has mapped a two-digit year. */
  function MakeDay(year: int, monthIndex: int, day: int): int
    requires NormalizeMonth(year, monthIndex).0 >= 1
  {
    var ym := NormalizeMonth(year, monthIndex);
    DaysBeforeYear(ym.0) + DaysBeforeMonth(ym.0, ym.1) + day - 1
  }

  /** On an in-range month index and day, MakeDay is DayNumber. */
  lemma MakeDayInRange(year: int, monthIndex: int, day: int)
    requires year >= 1 && 0 <= monthIndex < 12
    requires 1 <= day <= DaysInMonth(year, monthIndex + 1)
    ensures MakeDay(year, monthIndex, day) == DayNumber(Date(year, monthIndex + 1, day))
  {
    assert monthIndex / 12 == 0 && monthIndex % 12 == monthIndex;
    assert NormalizeMonth(year, monthIndex) == (year, monthIndex + 1);
  }

  /** The year `new Date(year, monthIndex, day)` works in: a year argument of 0 to
      99 is read as 1900 + year. */
  function ConstructorYear(year: int): int {
    if 0 <= year <= 99 then 1900 + year else year
  }

  /** JavaScript `new Date(year, monthIndex, day)`: the two-digit year mapping, then
      the normalising date arithmetic. */
  function NewDate(year: int, monthIndex: int, day: int): int
    requires NormalizeMonth(ConstructorYear(year), monthIndex).0 >= 1
  {
    MakeDay(ConstructorYear(year), monthIndex, day)
  }

  /** A year from 1 to 99 has the same month lengths as the year 1900 later, since
      neither is a century year. */
  lemma ConstructorYearSameMonths(year: int, m: int)
    requires year >= 1 && 1 <= m <= 12
    ensures DaysInMonth(ConstructorYear(year), m) == DaysInMonth(year, m)
  {
  }

  /** `new Date(y, m, d)` on an in-range month and day is that date, in year y from
      100 on and in year 1900 + y below. */
  lemma NewDateInRange(year: int, monthIndex: int, day: int)
    requires year >= 1 && 0 <= monthIndex < 12
    requires 1 <= day <= DaysInMonth(year, monthIndex + 1)
    ensures ValidDate(Date(ConstructorYear(year), monthIndex + 1, day))
    ensures NewDate(year, monthIndex, day) == DayNumber(Date(ConstructorYear(year), monthIndex + 1, day))
  {
    ConstructorYearSameMonths(year, monthIndex + 1);
    MakeDayInRange(ConstructorYear(year), monthIndex, day);
  }

  /** `new Date(y, m, 0)` is the last day of month m, whose length does not depend on
      the two-digit year mapping. */
  lemma NewDateZero(year: int, monthIndex: int)
    requires year >= 1 && 1 <= monthIndex <= 12
    ensures NewDate(year, monthIndex, 0) >= 0
    ensures ToDate(NewDate(year, monthIndex, 0))
            == Date(ConstructorYear(year), monthIndex, DaysInMonth(year, monthIndex))
  {
    ConstructorYearSameMonths(year, monthIndex);
    MakeDayZero(ConstructorYear(year), monthIndex);
  }

  /** Day 0 of a month is the last day of the month before it. */
  lemma MakeDayZero(year: int, monthIndex: int)
    requires year >= 1 && 1 <= monthIndex <= 12
    ensures MakeDay(year, monthIndex, 0) >= 0
    ensures ToDate(MakeDay(year, monthIndex, 0)) == Date(year, monthIndex, DaysInMonth(year, monthIndex))
  {
    var last := Date(year, monthIndex, DaysInMonth(year, monthIndex));
    DaysBeforeMonthStep(year, monthIndex);
    if monthIndex == 12 {
      assert NormalizeMonth(year, 12) == (year + 1, 1);
      DaysBeforeYearStep(year);
    } else {
      assert monthIndex / 12 == 0 && monthIndex % 12 == monthIndex;
      assert NormalizeMonth(year, monthIndex) == (year, monthIndex + 1);
    }
    assert MakeDay(year, monthIndex, 0) == DayNumber(last);
    ToDateOfDayNumber(last);
  }

  /** JavaScript `d.setMonth(d.getMonth() + k)`: same day of month, k months on,
      overflowing into the following month when that month is too short. */
  function AddMonths(n: Day, k: int): (r: int)
    requires NormalizeMonth(ToDate(n).year, ToDate(n).month - 1 + k).0 >= 1
    ensures r >= 0 && MonthShifted(ToDate(n), k, ToDate(r))
  {
    var d := ToDate(n);
    MakeDayShifts(d, k);
    MakeDay(d.year, d.month - 1 + k, d.day)
  }

  /** Where `setMonth(getMonth() + k)` takes d: the same day of month k months on,
      or, when that month is too short, as many days into the month after as the
      day overshoots. */
  predicate MonthShifted(d: Date, k: int, e: Date) {
    var s := NormalizeMonth(d.year, d.month - 1 + k);
    if d.day <= DaysInMonth(s.0, s.1) then e == Date(s.0, s.1, d.day)
    else var next := NextMonth(s.0, s.1);
         e == Date(next.0, next.1, d.day - DaysInMonth(s.0, s.1))
  }

  /** `new Date(y, m - 1 + k, day)` lands where MonthShifted says. */
  lemma MakeDayShifts(d: Date, k: int)
    requires ValidDate(d) && NormalizeMonth(d.year, d.month - 1 + k).0 >= 1
    ensures MakeDay(d.year, d.month - 1 + k, d.day) >= 0
    ensures MonthShifted(d, k, ToDate(MakeDay(d.year, d.month - 1 + k, d.day)))
  {
    var s := NormalizeMonth(d.year, d.month - 1 + k);
    if d.day <= DaysInMonth(s.0, s.1) {
      ShiftedDayFits(d, k);
    } else {
      ShiftedDayOverflows(d, k);
    }
  }

  /** The month after month m of year y. */
  function NextMonth(y: int, m: int): (r: (int, int))
    requires 1 <= m <= 12
    ensures 1 <= r.1 <= 12 && 12 * r.0 + r.1 == 12 * y + m + 1
  {
    if m == 12 then (y + 1, 1) else (y, m + 1)
  }

  /** A day past the end of month m lands in the month after it. */
  lemma DayPastMonthEnd(y: int, m: int, day: int)
    requires y >= 1 && 1 <= m <= 12
    requires DaysInMonth(y, m) < day <= 31
    ensures var t := Date(NextMonth(y, m).0, NextMonth(y, m).1, day - DaysInMonth(y, m));
            ValidDate(t) &&
            DaysBeforeYear(y) + DaysBeforeMonth(y, m) + day - 1 == DayNumber(t)
  {
    DaysBeforeMonthStep(y, m);
    if m == 12 {
      DaysBeforeYearStep(y);
    }
  }

  /** k months on from a day of month that exists in the target month keeps that
      day of month. */
  lemma ShiftedDayFits(d: Date, k: int)
    requires ValidDate(d) && NormalizeMonth(d.year, d.month - 1 + k).0 >= 1
    requires d.day <= DaysInMonth(NormalizeMonth(d.year, d.month - 1 + k).0, NormalizeMonth(d.year, d.month - 1 + k).1)
    ensures MakeDay(d.year, d.month - 1 + k, d.day) >= 0
    ensures ToDate(MakeDay(d.year, d.month - 1 + k, d.day))
            == Date(NormalizeMonth(d.year, d.month - 1 + k).0, NormalizeMonth(d.year, d.month - 1 + k).1, d.day)
  {
    var s := NormalizeMonth(d.year, d.month - 1 + k);
    var t := Date(s.0, s.1, d.day);
    assert MakeDay(d.year, d.month - 1 + k, d.day) == DayNumber(t);
    ToDateOfDayNumber(t);
  }

  /** k months on from a day of month that the target month lacks rolls into the
      month after, by the number of missing days. */
  lemma ShiftedDayOverflows(d: Date, k: int)
    requires ValidDate(d) && NormalizeMonth(d.year, d.month - 1 + k).0 >= 1
    requires d.day > DaysInMonth(NormalizeMonth(d.year, d.month - 1 + k).0, NormalizeMonth(d.year, d.month - 1 + k).1)
    ensures MakeDay(d.year, d.month - 1 + k, d.day) >= 0
    ensures var s := NormalizeMonth(d.year, d.month - 1 + k);
            var next := NextMonth(s.0, s.1);
            ToDate(MakeDay(d.year, d.month - 1 + k, d.day)) == Date(next.0, next.1, d.day - DaysInMonth(s.0, s.1))
  {
    var s := NormalizeMonth(d.year, d.month - 1 + k);
    var next := NextMonth(s.0, s.1);
    var t := Date(next.0, next.1, d.day - DaysInMonth(s.0, s.1));
    DayPastMonthEnd(s.0, s.1, d.day);
    assert MakeDay(d.year, d.month - 1 + k, d.day) == DayNumber(t);
    ToDateOfDayNumber(t);
  }
}
