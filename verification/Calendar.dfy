/** The Gregorian calendar by its leap-year definition, counted in days from 1970-01-01.
    This is the reference that the closed-form date formulas are measured against. */
module Calendar {

  predicate IsLeap(y: int) {
    y % 4 == 0 && (y % 100 != 0 || y % 400 == 0)
  }

  function DaysInYear(y: int): int {
    if IsLeap(y) then 366 else 365
  }

  function DaysInMonth(y: int, m: int): int {
    if m == 2 then (if IsLeap(y) then 29 else 28)
    else if m in {4, 6, 9, 11} then 30
    else 31
  }

  datatype Date = Date(year: int, month: int, day: int)

  predicate ValidDate(date: Date) {
    && 1970 <= date.year
    && 1 <= date.month <= 12
    && 1 <= date.day <= DaysInMonth(date.year, date.month)
  }

  /** Days from 1970-01-01 to the first day of year y. */
  function DaysBeforeYear(y: int): int
    requires 1970 <= y
    decreases y
  {
    if y == 1970 then 0 else DaysBeforeYear(y - 1) + DaysInYear(y - 1)
  }

  /** Days from the first day of year y to the first day of its month m. */
  function DaysBeforeMonth(y: int, m: int): int
    requires 1 <= m <= 13
    decreases m
  {
    if m == 1 then 0 else DaysBeforeMonth(y, m - 1) + DaysInMonth(y, m - 1)
  }

  /** The number of whole days between 1970-01-01 and the date. */
  function EpochDay(date: Date): int
    requires ValidDate(date)
  {
    DaysBeforeYear(date.year) + DaysBeforeMonth(date.year, date.month) + date.day - 1
  }

  predicate DateBefore(a: Date, b: Date) {
    || a.year < b.year
    || (a.year == b.year && a.month < b.month)
    || (a.year == b.year && a.month == b.month && a.day < b.day)
  }

  /** Leap days in the years 1..y. */
  function LeapsThrough(y: int): int {
    y / 4 - y / 100 + y / 400
  }

  lemma LeapStep(y: int)
    requires 1 <= y
    ensures LeapsThrough(y) - LeapsThrough(y - 1) == if IsLeap(y) then 1 else 0
  {
    assert y / 4 - (y - 1) / 4 == if y % 4 == 0 then 1 else 0;
    assert y / 100 - (y - 1) / 100 == if y % 100 == 0 then 1 else 0;
    assert y / 400 - (y - 1) / 400 == if y % 400 == 0 then 1 else 0;
    Divisors(y);
  }

  lemma Divisors(y: int)
    ensures y % 400 == 0 ==> y % 100 == 0
    ensures y % 100 == 0 ==> y % 4 == 0
  {
    if y % 400 == 0 { Multiple100(y, 4 * (y / 400)); }
    if y % 100 == 0 { Multiple4(y, 25 * (y / 100)); }
  }

  lemma Multiple100(y: int, k: int)
    requires y == 100 * k
    ensures y % 100 == 0
  {}

  lemma Multiple4(y: int, k: int)
    requires y == 4 * k
    ensures y % 4 == 0
  {}

  lemma {:induction false} DaysBeforeYearClosed(y: int)
    requires 1970 <= y
    ensures DaysBeforeYear(y) == 365 * (y - 1970) + LeapsThrough(y - 1) - 477
    decreases y
  {
    if y == 1970 {
    } else {
      DaysBeforeYearClosed(y - 1);
      LeapStep(y - 1);
    }
  }

  lemma DaysBeforeMonthTable(y: int)
    ensures var leap := if IsLeap(y) then 1 else 0;
      && DaysBeforeMonth(y, 1) == 0
      && DaysBeforeMonth(y, 2) == 31
      && DaysBeforeMonth(y, 3) == 59 + leap
      && DaysBeforeMonth(y, 4) == 90 + leap
      && DaysBeforeMonth(y, 5) == 120 + leap
      && DaysBeforeMonth(y, 6) == 151 + leap
      && DaysBeforeMonth(y, 7) == 181 + leap
      && DaysBeforeMonth(y, 8) == 212 + leap
      && DaysBeforeMonth(y, 9) == 243 + leap
      && DaysBeforeMonth(y, 10) == 273 + leap
      && DaysBeforeMonth(y, 11) == 304 + leap
      && DaysBeforeMonth(y, 12) == 334 + leap
      && DaysBeforeMonth(y, 13) == DaysInYear(y)
  {
    assert DaysBeforeMonth(y, 2) == 31;
    assert DaysBeforeMonth(y, 3) == 31 + DaysInMonth(y, 2);
    assert DaysBeforeMonth(y, 4) == DaysBeforeMonth(y, 3) + 31;
    assert DaysBeforeMonth(y, 5) == DaysBeforeMonth(y, 4) + 30;
    assert DaysBeforeMonth(y, 6) == DaysBeforeMonth(y, 5) + 31;
    assert DaysBeforeMonth(y, 7) == DaysBeforeMonth(y, 6) + 30;
    assert DaysBeforeMonth(y, 8) == DaysBeforeMonth(y, 7) + 31;
    assert DaysBeforeMonth(y, 9) == DaysBeforeMonth(y, 8) + 31;
    assert DaysBeforeMonth(y, 10) == DaysBeforeMonth(y, 9) + 30;
    assert DaysBeforeMonth(y, 11) == DaysBeforeMonth(y, 10) + 31;
    assert DaysBeforeMonth(y, 12) == DaysBeforeMonth(y, 11) + 30;
    assert DaysBeforeMonth(y, 13) == DaysBeforeMonth(y, 12) + 31;
  }

  /** Every day number is the number of some valid date. */
  lemma {:induction false} DateOfDay(n: nat) returns (date: Date)
    ensures ValidDate(date) && EpochDay(date) == n
  {
    if n == 0 {
      date := Date(1970, 1, 1);
    } else {
      var prev := DateOfDay(n - 1);
      var Date(y, m, d) := prev;
      if d < DaysInMonth(y, m) {
        date := Date(y, m, d + 1);
      } else if m < 12 {
        date := Date(y, m + 1, 1);
        assert DaysBeforeMonth(y, m + 1) == DaysBeforeMonth(y, m) + DaysInMonth(y, m);
      } else {
        date := Date(y + 1, 1, 1);
        DaysBeforeMonthTable(y);
      }
    }
  }

  lemma {:induction false} YearsAscend(y: int, z: int)
    requires 1970 <= y < z
    ensures DaysBeforeYear(y) + DaysInYear(y) <= DaysBeforeYear(z)
    decreases z
  {
    if y == z - 1 {
    } else {
      YearsAscend(y, z - 1);
    }
  }

  lemma {:induction false} MonthsAscend(y: int, m: int, k: int)
    requires 1 <= m < k <= 13
    ensures DaysBeforeMonth(y, m) + DaysInMonth(y, m) <= DaysBeforeMonth(y, k)
    decreases k
  {
    if m == k - 1 {
    } else {
      MonthsAscend(y, m, k - 1);
    }
  }

  /** Calendar order is day-number order: dates and day numbers are in bijection. */
  lemma EpochDayMonotone(a: Date, b: Date)
    requires ValidDate(a) && ValidDate(b)
    ensures DateBefore(a, b) <==> EpochDay(a) < EpochDay(b)
    ensures a == b <==> EpochDay(a) == EpochDay(b)
  {
    EpochDayAscends(a, b);
    EpochDayAscends(b, a);
  }

  lemma EpochDayAscends(a: Date, b: Date)
    requires ValidDate(a) && ValidDate(b)
    ensures DateBefore(a, b) ==> EpochDay(a) < EpochDay(b)
  {
    DaysBeforeMonthTable(a.year);
    MonthsAscend(a.year, a.month, 13);
    if a.year < b.year {
      YearsAscend(a.year, b.year);
      if b.month > 1 { MonthsAscend(b.year, 1, b.month); }
    } else if a.year == b.year && a.month < b.month {
      MonthsAscend(a.year, a.month, b.month);
    }
  }

  /** Days from 1 March to the first of month m, where January and February
      count as months 13 and 14 of the year before. */
  function MarchOffset(m: int): int {
    if m == 3 then 0 else if m == 4 then 31 else if m == 5 then 61 else if m == 6 then 92
    else if m == 7 then 122 else if m == 8 then 153 else if m == 9 then 184 else if m == 10 then 214
    else if m == 11 then 245 else if m == 12 then 275 else if m == 13 then 306 else 337
  }

  /** The year and month of a date when the year begins on 1 March. */
  function MarchYear(date: Date): int {
    if date.month <= 2 then date.year - 1 else date.year
  }

  function MarchMonth(date: Date): int {
    if date.month <= 2 then date.month + 12 else date.month
  }

  function MarchDay(date: Date): int {
    MarchOffset(MarchMonth(date)) + date.day - 1
  }

  /** The day number in closed form over the March-based year. */
  lemma EpochDayClosed(date: Date)
    requires ValidDate(date)
    ensures EpochDay(date)
         == 365 * MarchYear(date) + LeapsThrough(MarchYear(date)) + MarchDay(date) - 719468
    ensures 0 <= MarchDay(date) <= 365
    ensures MarchDay(date) == 365 ==> IsLeap(MarchYear(date) + 1)
  {
    DaysBeforeYearClosed(date.year);
    DaysBeforeMonthTable(date.year);
    LeapStep(date.year);
  }
}
