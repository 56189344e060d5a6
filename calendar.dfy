/**
 * The part of Python's `datetime` that the combiners rely on: the validity
 * check of the constructor `datetime(year, month, day)`, the comparison of two
 * datetimes, and `strftime`'s `%B` month names.
 */
module Calendar {
  import opened Wrappers

  const MinYear := 1
  const MaxYear := 9999

  /** `%B` in an English locale. */
  const MonthNames: seq<string> := [
    "January", "February", "March", "April", "May", "June",
    "July", "August", "September", "October", "November", "December"]

  /** Month lengths of a common year, January first. */
  const CommonMonthLengths: seq<int> := [31, 28, 31, 30, 31, 30, 31, 31, 30, 31, 30, 31]

  datatype Date = Date(year: int, month: int, day: int)

  /** The Gregorian rule. */
  predicate IsLeapYear(y: int) { y % 4 == 0 && (y % 100 != 0 || y % 400 == 0) }

  function DaysInMonth(y: int, m: int): (n: int)
    requires 1 <= m <= 12
    ensures 28 <= n <= 31
    ensures m == 2 ==> (n == 29 <==> IsLeapYear(y)) && (n == 28 <==> !IsLeapYear(y))
    ensures m != 2 ==> (n == 30 <==> m in {4, 6, 9, 11}) && (n == 31 <==> m !in {2, 4, 6, 9, 11})
  {
    if m == 2 && IsLeapYear(y) then 29 else CommonMonthLengths[m - 1]
  }

  /** What `datetime(year, month, day)` accepts; anything else raises `ValueError`. */
  predicate IsValid(d: Date)
  {
    MinYear <= d.year <= MaxYear && 1 <= d.month <= 12 && 1 <= d.day <= DaysInMonth(d.year, d.month)
  }

  /** A constructed `datetime` object (time of day always midnight). */
  type Datetime = d: Date | IsValid(d) witness Date(1, 1, 1)

  /** `datetime(year, month, day)`: the object, or `None` where Python raises. */
  function MakeDatetime(year: int, month: int, day: int): (r: Option<Datetime>)
    ensures r.Some? <==> MinYear <= year <= MaxYear && 1 <= month <= 12 && 1 <= day <= DaysInMonth(year, month)
    ensures r.Some? ==> r.value.year == year && r.value.month == month && r.value.day == day
  {
    if IsValid(Date(year, month, day)) then Some(Date(year, month, day)) else None
  }

  /** February 29 exists exactly in leap years; every other day 29 and day 30 exists except in February. */
  lemma LeapDayRule(y: int)
    requires MinYear <= y <= MaxYear
    ensures MakeDatetime(y, 2, 29).Some? <==> IsLeapYear(y)
    ensures MakeDatetime(y, 2, 30).None? && MakeDatetime(y, 4, 31).None?
    ensures MakeDatetime(y, 12, 31).Some? && MakeDatetime(y, 0, 1).None? && MakeDatetime(y, 13, 1).None?
  {
  }

  /** Datetime comparison: `a < b` compares (year, month, day) lexicographically. */
  predicate Before(a: Date, b: Date)
  {
    a.year < b.year || (a.year == b.year && (a.month < b.month || (a.month == b.month && a.day < b.day)))
  }

  /** Days in the months of year `y` that precede month `m` (m == 13 gives the whole year). */
  function DaysBeforeMonth(y: int, m: int): (n: nat)
    requires 1 <= m <= 13
    decreases m
  {
    if m == 1 then 0 else DaysBeforeMonth(y, m - 1) + DaysInMonth(y, m - 1)
  }

  function DaysInYear(y: int): nat { if IsLeapYear(y) then 366 else 365 }

  /** The twelve months fill the year: 366 days in a leap year, 365 otherwise. */
  lemma MonthsFillYear(y: int)
    ensures DaysBeforeMonth(y, 13) == DaysInYear(y)
  {
    assert DaysBeforeMonth(y, 2) == 31;
    assert DaysBeforeMonth(y, 3) == 31 + DaysInMonth(y, 2);
    assert DaysBeforeMonth(y, 4) == 62 + DaysInMonth(y, 2);
    assert DaysBeforeMonth(y, 5) == 92 + DaysInMonth(y, 2);
    assert DaysBeforeMonth(y, 6) == 123 + DaysInMonth(y, 2);
    assert DaysBeforeMonth(y, 7) == 153 + DaysInMonth(y, 2);
    assert DaysBeforeMonth(y, 8) == 184 + DaysInMonth(y, 2);
    assert DaysBeforeMonth(y, 9) == 215 + DaysInMonth(y, 2);
    assert DaysBeforeMonth(y, 10) == 245 + DaysInMonth(y, 2);
    assert DaysBeforeMonth(y, 11) == 276 + DaysInMonth(y, 2);
    assert DaysBeforeMonth(y, 12) == 306 + DaysInMonth(y, 2);
  }

  function DaysBeforeYear(y: int): nat
    requires y >= 1
    decreases y
  {
    if y == 1 then 0 else DaysBeforeYear(y - 1) + DaysInYear(y - 1)
  }

  /** `date.toordinal()`: 1 for January 1 of year 1, counting every day since. */
  function Ordinal(d: Datetime): nat
  {
    DaysBeforeYear(d.year) + DaysBeforeMonth(d.year, d.month) + d.day
  }

  lemma {:induction false} DaysBeforeMonthMonotonic(y: int, m1: int, m2: int)
    requires 1 <= m1 <= m2 <= 13
    ensures DaysBeforeMonth(y, m1) <= DaysBeforeMonth(y, m2)
    decreases m2
  {
    if m1 < m2 {
      DaysBeforeMonthMonotonic(y, m1, m2 - 1);
    }
  }

  lemma {:induction false} DaysBeforeYearMonotonic(y1: int, y2: int)
    requires 1 <= y1 <= y2
    ensures DaysBeforeYear(y1) <= DaysBeforeYear(y2)
    decreases y2
  {
    if y1 < y2 {
      DaysBeforeYearMonotonic(y1, y2 - 1);
    }
  }

  /** Every day of year y comes before the first day of year y + 1. */
  lemma DayWithinYear(d: Datetime)
    ensures Ordinal(d) <= DaysBeforeYear(d.year + 1)
  {
    DaysBeforeMonthMonotonic(d.year, d.month + 1, 13);
    assert DaysBeforeMonth(d.year, d.month) + d.day <= DaysBeforeMonth(d.year, d.month + 1);
    MonthsFillYear(d.year);
    assert DaysBeforeYear(d.year + 1) == DaysBeforeYear(d.year) + DaysBeforeMonth(d.year, 13);
  }

  lemma EarlierYear(a: Datetime, b: Datetime)
    requires a.year < b.year
    ensures Ordinal(a) < Ordinal(b)
  {
    DayWithinYear(a);
    DaysBeforeYearMonotonic(a.year + 1, b.year);
  }

  lemma EarlierMonth(a: Datetime, b: Datetime)
    requires a.year == b.year && a.month < b.month
    ensures Ordinal(a) < Ordinal(b)
  {
    DaysBeforeMonthMonotonic(a.year, a.month + 1, b.month);
  }

  lemma OrdinalMonotonic(a: Datetime, b: Datetime)
    requires Before(a, b)
    ensures Ordinal(a) < Ordinal(b)
  {
    if a.year < b.year {
      EarlierYear(a, b);
    } else if a.month < b.month {
      EarlierMonth(a, b);
    }
  }

  /**
   * The lexicographic comparison Python performs on datetimes is chronological
   * order: it agrees with comparing day numbers, in both directions.
   */
  lemma BeforeIsChronological(a: Datetime, b: Datetime)
    ensures Before(a, b) <==> Ordinal(a) < Ordinal(b)
  {
    if Before(a, b) {
      OrdinalMonotonic(a, b);
    } else if a != b {
      assert Before(b, a);
      OrdinalMonotonic(b, a);
    }
  }
}
