/** The proleptic Gregorian calendar as day numbers counted from
    1970-01-01 (day 0), the day arithmetic under ECMAScript `Date`. */
module Calendar {

  const MsPerDay: int := 86_400_000

  predicate IsLeapYear(y: int) {
    y % 4 == 0 && (y % 100 != 0 || y % 400 == 0)
  }

  function DaysInMonth(y: int, m: int): (n: int)
    requires 1 <= m <= 12
    ensures 28 <= n <= 31
    ensures n == 29 <==> m == 2 && IsLeapYear(y)
  {
    if m == 2 then (if IsLeapYear(y) then 29 else 28)
    else if m == 4 || m == 6 || m == 9 || m == 11 then 30
    else 31
  }

  predicate ValidDate(y: int, m: int, d: int) {
    1 <= m <= 12 && 1 <= d <= DaysInMonth(y, m)
  }

  /** Leap years in the years before `y`, counted from an arbitrary origin
      (only differences are used). Division is floor division. */
  function LeapYearsBefore(y: int): int {
    (y - 1) / 4 - (y - 1) / 100 + (y - 1) / 400
  }

  /** The day number of 1 January of year `y`. */
  function YearStart(y: int): int {
    365 * (y - 1970) + LeapYearsBefore(y) - LeapYearsBefore(1970)
  }

  /** Days in year `y` before the first of month `m`. */
  function DaysBeforeMonth(y: int, m: int): (n: int)
    requires 1 <= m <= 12
    ensures 0 <= n <= 335
  {
    var table := [0, 31, 59, 90, 120, 151, 181, 212, 243, 273, 304, 334];
    table[m - 1] + (if m > 2 && IsLeapYear(y) then 1 else 0)
  }

  /** The day number of the civil date `y`-`m`-`d`; `d` may fall outside
      the month, in which case it counts on from the first of the month. */
  function DaysFromCivil(y: int, m: int, d: int): int
    requires 1 <= m <= 12
  {
    YearStart(y) + DaysBeforeMonth(y, m) + d - 1
  }

  /** 1 January 1970 is day 0. */
  lemma EpochIsDayZero()
    ensures DaysFromCivil(1970, 1, 1) == 0
  {
  }

  /** Each leap year adds exactly one day to the count. */
  lemma LeapStep(y: int)
    ensures LeapYearsBefore(y + 1) - LeapYearsBefore(y) == (if IsLeapYear(y) then 1 else 0)
  {
    assert y / 4 - (y - 1) / 4 == (if y % 4 == 0 then 1 else 0);
    assert y / 100 - (y - 1) / 100 == (if y % 100 == 0 then 1 else 0);
    assert y / 400 - (y - 1) / 400 == (if y % 400 == 0 then 1 else 0);
    assert y % 100 == 0 ==> y % 4 == 0;
    assert y % 400 == 0 ==> y % 100 == 0;
  }

  /** A year has 366 days if it is a leap year and 365 otherwise. */
  lemma YearLength(y: int)
    ensures YearStart(y + 1) - YearStart(y) == (if IsLeapYear(y) then 366 else 365)
  {
    LeapStep(y);
  }

  /** The last day of a month is followed by the first of the next month,
      and 31 December by 1 January of the next year. */
  lemma MonthEnd(y: int, m: int)
    requires 1 <= m <= 12
    ensures m < 12 ==> DaysFromCivil(y, m, DaysInMonth(y, m)) + 1 == DaysFromCivil(y, m + 1, 1)
    ensures m == 12 ==> DaysFromCivil(y, m, DaysInMonth(y, m)) + 1 == DaysFromCivil(y + 1, 1, 1)
  {
    if m == 12 {
      YearLength(y);
    }
  }

  /** Year starts grow strictly with the year. */
  lemma {:induction false} YearStartMonotone(y: int, y': int)
    requires y < y'
    ensures YearStart(y) + 365 <= YearStart(y')
    decreases y' - y
  {
    YearLength(y);
    if y + 1 < y' {
      YearStartMonotone(y + 1, y');
    }
  }

  /** Every valid date of year `y` falls before the start of year `y + 1`. */
  lemma InYear(y: int, m: int, d: int)
    requires ValidDate(y, m, d)
    ensures YearStart(y) <= DaysFromCivil(y, m, d) < YearStart(y + 1)
  {
    YearLength(y);
  }

  /** Calendar order is day-number order: for valid dates, a date earlier in
      (year, month, day) lexicographic order has a strictly smaller day number. */
  lemma CivilMonotone(y: int, m: int, d: int, y': int, m': int, d': int)
    requires ValidDate(y, m, d) && ValidDate(y', m', d')
    requires y < y' || (y == y' && m < m') || (y == y' && m == m' && d < d')
    ensures DaysFromCivil(y, m, d) < DaysFromCivil(y', m', d')
  {
    if y < y' {
      InYear(y, m, d);
      InYear(y', m', d');
      if y + 1 < y' {
        YearStartMonotone(y + 1, y');
      }
    }
  }

  /** Distinct valid dates have distinct day numbers. */
  lemma CivilInjective(y: int, m: int, d: int, y': int, m': int, d': int)
    requires ValidDate(y, m, d) && ValidDate(y', m', d')
    requires DaysFromCivil(y, m, d) == DaysFromCivil(y', m', d')
    ensures y == y' && m == m' && d == d'
  {
    if y < y' || (y == y' && m < m') || (y == y' && m == m' && d < d') {
      CivilMonotone(y, m, d, y', m', d');
    } else if y' < y || (y == y' && m' < m) || (y == y' && m == m' && d' < d) {
      CivilMonotone(y', m', d', y, m, d);
    }
  }
}
