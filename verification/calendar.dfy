/** The proleptic Gregorian calendar as JavaScript's `Date` uses it, with local time taken to
    be UTC (offset 0): a calendar date, day numbers, day arithmetic, and the normalisation
    `new Date(year, monthIndex, day)` and `setFullYear` apply to out-of-range fields. */
module Calendar {

  /** A calendar date; `month` is 1..12 (JavaScript's month index is `month - 1`). */
  datatype Date = Date(year: int, month: int, day: int)

  predicate IsLeapYear(y: int) {
    (y % 4 == 0 && y % 100 != 0) || y % 400 == 0
  }

  function DaysInMonth(y: int, m: int): (n: int)
    requires 1 <= m <= 12
    ensures 28 <= n <= 31
    ensures m == 2 ==> (n == 29 <==> IsLeapYear(y))
    ensures m != 2 ==> (n == 30 <==> m in {4, 6, 9, 11})
  {
    if m == 2 then (if IsLeapYear(y) then 29 else 28)
    else if m == 4 || m == 6 || m == 9 || m == 11 then 30
    else 31
  }

  predicate Valid(d: Date) {
    1 <= d.month <= 12 && 1 <= d.day <= DaysInMonth(d.year, d.month)
  }

  function DaysInYear(y: int): int {
    if IsLeapYear(y) then 366 else 365
  }

  /** Number of days in the years before `y`, counted so that 0001-01-01 is day 1. */
  function DaysBeforeYear(y: int): int {
    var p := y - 1;
    365 * p + p / 4 - p / 100 + p / 400
  }

  /** Number of days in the months of year `y` before month `m`. */
  function DaysBeforeMonth(y: int, m: int): int
    requires 1 <= m <= 12
  {
    var common :=
      if m == 1 then 0 else if m == 2 then 31 else if m == 3 then 59 else if m == 4 then 90
      else if m == 5 then 120 else if m == 6 then 151 else if m == 7 then 181
      else if m == 8 then 212 else if m == 9 then 243 else if m == 10 then 273
      else if m == 11 then 304 else 334;
    if m > 2 && IsLeapYear(y) then common + 1 else common
  }

  /** Day number of a date: consecutive dates have consecutive numbers. */
  function Ordinal(d: Date): int
    requires 1 <= d.month <= 12
  {
    DaysBeforeYear(d.year) + DaysBeforeMonth(d.year, d.month) + d.day
  }

  /** Calendar order on dates: by year, then month, then day. */
  predicate Before(a: Date, b: Date) {
    a.year < b.year
    || (a.year == b.year && a.month < b.month)
    || (a.year == b.year && a.month == b.month && a.day < b.day)
  }

  /** Stepping a numerator by one moves its floor quotient by 4, 100 and 400 exactly at multiples. */
  lemma DivStep(q: int)
    ensures q / 4 - (q - 1) / 4 == (if q % 4 == 0 then 1 else 0)
    ensures q / 100 - (q - 1) / 100 == (if q % 100 == 0 then 1 else 0)
    ensures q / 400 - (q - 1) / 400 == (if q % 400 == 0 then 1 else 0)
  {
  }

  /** A year has as many days as its year number advances the day count. */
  lemma YearStep(y: int)
    ensures DaysBeforeYear(y + 1) == DaysBeforeYear(y) + DaysInYear(y)
  {
    DivStep(y);
    if y % 400 == 0 {
      MultipleOf400(y);
    } else if y % 100 == 0 {
      assert y % 4 == 0 by {
        assert y == 100 * (y / 100);
        assert y == 4 * (25 * (y / 100));
      }
    }
  }

  lemma {:induction false} DaysBeforeYearMonotone(y1: int, y2: int)
    requires y1 <= y2
    ensures DaysBeforeYear(y1) + 365 * (y2 - y1) <= DaysBeforeYear(y2)
    decreases y2 - y1
  {
    if y1 < y2 {
      YearStep(y1);
      DaysBeforeYearMonotone(y1 + 1, y2);
    }
  }

  /** Within one month, day numbers differ by the difference of the days. */
  lemma OrdinalSameMonth(a: Date, b: Date)
    requires 1 <= a.month <= 12 && a.year == b.year && a.month == b.month
    ensures Ordinal(b) - Ordinal(a) == b.day - a.day
  {
  }

  /** The first and last day of a valid date's year bracket its day number. */
  lemma OrdinalWithinYear(d: Date)
    requires Valid(d)
    ensures DaysBeforeYear(d.year) < Ordinal(d) <= DaysBeforeYear(d.year + 1)
  {
    YearStep(d.year);
  }

  /** Day numbers order valid dates exactly as the calendar does, and identify them. */
  lemma OrdinalOrder(a: Date, b: Date)
    requires Valid(a) && Valid(b)
    ensures Before(a, b) <==> Ordinal(a) < Ordinal(b)
    ensures a == b <==> Ordinal(a) == Ordinal(b)
  {
    OrdinalWithinYear(a);
    OrdinalWithinYear(b);
    if a.year < b.year {
      DaysBeforeYearMonotone(a.year + 1, b.year);
    } else if b.year < a.year {
      DaysBeforeYearMonotone(b.year + 1, a.year);
    }
  }

  function FirstOfNextMonth(d: Date): (r: Date)
    requires Valid(d)
    ensures Valid(r) && r.day == 1
    ensures Ordinal(r) == Ordinal(d) + DaysInMonth(d.year, d.month) - d.day + 1
  {
    if d.month == 12 then
      YearStep(d.year);
      Date(d.year + 1, 1, 1)
    else Date(d.year, d.month + 1, 1)
  }

  function LastOfPreviousMonth(d: Date): (r: Date)
    requires Valid(d)
    ensures Valid(r) && r.day == DaysInMonth(r.year, r.month)
    ensures Ordinal(r) == Ordinal(d) - d.day
  {
    if d.month == 1 then
      YearStep(d.year - 1);
      Date(d.year - 1, 12, 31)
    else Date(d.year, d.month - 1, DaysInMonth(d.year, d.month - 1))
  }

  /** The date `k` days after `d` (before it when `k` is negative), stepping a month at a time. */
  function AddDays(d: Date, k: int): (r: Date)
    requires Valid(d)
    ensures Valid(r)
    ensures Ordinal(r) == Ordinal(d) + k
    decreases if k >= 0 then k else -k
  {
    if k == 0 then d
    else if k > 0 then
      if d.day + k <= DaysInMonth(d.year, d.month) then Date(d.year, d.month, d.day + k)
      else AddDays(FirstOfNextMonth(d), k - (DaysInMonth(d.year, d.month) - d.day + 1))
    else
      if d.day + k >= 1 then Date(d.year, d.month, d.day + k)
      else AddDays(LastOfPreviousMonth(d), k + d.day)
  }

  /** Adding days is determined by the day count alone: `AddDays` lands on the unique valid
      date with the shifted day number. */
  lemma AddDaysUnique(d: Date, k: int, e: Date)
    requires Valid(d) && Valid(e)
    ensures AddDays(d, k) == e <==> Ordinal(e) == Ordinal(d) + k
  {
    OrdinalOrder(AddDays(d, k), e);
  }

  /** ECMAScript MakeDay: the date `day - 1` days after the first of month `monthIndex`
      (0-based, any integer) of `year`; out-of-range fields carry into the next unit. */
  function Normalize(year: int, monthIndex: int, day: int): (r: Date)
    ensures Valid(r)
  {
    AddDays(Date(year + monthIndex / 12, monthIndex % 12 + 1, 1), day - 1)
  }

  /** `new Date(year, monthIndex, day)`: years 0..99 are read as 1900..1999. */
  function LocalDate(year: int, monthIndex: int, day: int): (r: Date)
    ensures Valid(r)
  {
    Normalize(if 0 <= year <= 99 then 1900 + year else year, monthIndex, day)
  }

  /** Fields that already name a valid date are kept as they are. */
  lemma NormalizeInRange(d: Date)
    requires Valid(d)
    ensures Normalize(d.year, d.month - 1, d.day) == d
  {
    assert (d.month - 1) / 12 == 0 && (d.month - 1) % 12 + 1 == d.month;
    AddDaysUnique(Date(d.year, d.month, 1), d.day - 1, d);
  }

  /** Day 0 of month `monthIndex + 1` is the last day of month `monthIndex`, the idiom
      `new Date(y, m + 1, 0)`. */
  lemma NormalizeDayZero(year: int, monthIndex: int)
    requires 0 <= monthIndex < 12
    ensures Normalize(year, monthIndex + 1, 0)
            == Date(year, monthIndex + 1, DaysInMonth(year, monthIndex + 1))
  {
    var last := Date(year, monthIndex + 1, DaysInMonth(year, monthIndex + 1));
    var first := Date(year + (monthIndex + 1) / 12, (monthIndex + 1) % 12 + 1, 1);
    assert first == FirstOfNextMonth(last);
    AddDaysUnique(first, -1, last);
  }

  /** A multiple of 400 is a multiple of 100 and of 4. */
  lemma MultipleOf400(y: int)
    requires y % 400 == 0
    ensures y % 100 == 0 && y % 4 == 0
  {
    var k := y / 400;
    assert y == 400 * k;
    var m, n := 4 * k, 100 * k;
    assert y == 100 * m && y == 4 * n;
  }

  lemma NoConsecutiveLeapYears(y: int)
    ensures !(IsLeapYear(y) && IsLeapYear(y - 1))
  {
    if y % 400 == 0 {
      MultipleOf400(y);
    }
    if (y - 1) % 400 == 0 {
      MultipleOf400(y - 1);
    }
  }

  /** The date one year before `d`: the same month and day, with February 29 rolling over to
      March 1 of the (non-leap) previous year. */
  function PreviousYear(d: Date): (r: Date)
    requires Valid(d)
    ensures Valid(r) && r.year == d.year - 1
  {
    NoConsecutiveLeapYears(d.year);
    if d.month == 2 && d.day == 29 then Date(d.year - 1, 3, 1)
    else Date(d.year - 1, d.month, d.day)
  }

  /** `setFullYear(year - 1)` keeps month and day and lets MakeDay normalise them: that is
      `PreviousYear`. */
  lemma PreviousYearIsSetFullYear(d: Date)
    requires Valid(d)
    ensures PreviousYear(d) == Normalize(d.year - 1, d.month - 1, d.day)
  {
    if d.month == 2 && d.day == 29 {
      NoConsecutiveLeapYears(d.year);
      assert (d.month - 1) / 12 == 0 && (d.month - 1) % 12 + 1 == 2;
      AddDaysUnique(Date(d.year - 1, 2, 1), 28, Date(d.year - 1, 3, 1));
    } else {
      NormalizeInRange(Date(d.year - 1, d.month, d.day));
    }
  }
}
