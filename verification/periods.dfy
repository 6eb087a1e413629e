/** The period resolver: the quick-filter modes, the inclusive `[fromDate, toDate]` text range
    each yields for a given "today", the fiscal-year label, the quick-filter state changes,
    and the same-length comparison window one year earlier. "Today" is a parameter. */
module Periods {
  import opened Wrappers
  import opened Text
  import opened Calendar
  import opened IsoDate

  datatype Mode = ThisMonth | ThisQuarter | ThisFiscalYear | AllTime | Custom

  /** A date range as the application stores it: `YYYY-MM-DD` texts, "" for no bound. */
  datatype Range = Range(fromDate: string, toDate: string)

  const Unbounded := Range("", "")

  /** The modes whose range is computed from today. */
  predicate Computed(mode: Mode) {
    mode == ThisMonth || mode == ThisQuarter || mode == ThisFiscalYear
  }

  /** First and last day of a computed mode's period, built with `new Date(y, m, d)` as the
      source builds them (`m + 1, 0` for the last day of month `m`). */
  function PeriodBounds(mode: Mode, today: Date): (Date, Date)
    requires Valid(today) && Computed(mode)
  {
    var y, m := today.year, today.month - 1;  // JavaScript getFullYear() and getMonth()
    match mode
    case ThisMonth => MonthPeriod(y, m)
    case ThisQuarter => QuarterPeriod(y, m)
    case ThisFiscalYear => FiscalPeriod(y, m)
  }

  /** `new Date(y, m, 1)` to `new Date(y, m + 1, 0)`. */
  function MonthPeriod(y: int, m: int): (Date, Date) {
    (LocalDate(y, m, 1), LocalDate(y, m + 1, 0))
  }

  /** `quarter = Math.floor(m / 3)`, then `new Date(y, quarter * 3, 1)` to
      `new Date(y, (quarter + 1) * 3, 0)`. */
  function QuarterPeriod(y: int, m: int): (Date, Date) {
    var quarter := m / 3;
    (LocalDate(y, quarter * 3, 1), LocalDate(y, (quarter + 1) * 3, 0))
  }

  /** April 1 to March 31, starting this year from April (`m >= 3`), last year before. */
  function FiscalPeriod(y: int, m: int): (Date, Date) {
    if m >= 3 then (LocalDate(y, 3, 1), LocalDate(y + 1, 2, 31))
    else (LocalDate(y - 1, 3, 1), LocalDate(y, 2, 31))
  }

  /** `getDateRangeForMode(mode)` on `today`; `current` is the stored range that the custom
      mode hands back unchanged. */
  function DateRangeForMode(mode: Mode, today: Date, current: Range): (r: Range)
    requires Valid(today)
    ensures mode == AllTime ==> r == Unbounded
    ensures mode == Custom ==> r == current
    ensures Computed(mode) ==> r.fromDate != "" && r.toDate != ""
  {
    match mode
    case AllTime => Unbounded
    case Custom => current
    case _ =>
      var (first, last) := PeriodBounds(mode, today);
      Range(ToIso(first), ToIso(last))
  }

  /** A year the range texts can carry: read back as itself by `new Date(y, ...)` (not 0..99)
      and written with four digits by `toISOString`. */
  predicate OrdinaryYear(y: int) {
    100 <= y <= 9998
  }

  function MonthEnd(y: int, m: int): Date
    requires 1 <= m <= 12
  {
    Date(y, m, DaysInMonth(y, m))
  }

  /** This month runs from its first to its last day (February 29 in a leap year). */
  lemma ThisMonthBounds(today: Date)
    requires Valid(today) && OrdinaryYear(today.year)
    ensures PeriodBounds(ThisMonth, today)
            == (Date(today.year, today.month, 1), MonthEnd(today.year, today.month))
  {
    NormalizeInRange(Date(today.year, today.month, 1));
    NormalizeDayZero(today.year, today.month - 1);
  }

  /** The quarter (0 to 3) of a 1-based month, `Math.floor(getMonth() / 3)`. */
  function QuarterIndex(month: int): (q: int)
    requires 1 <= month <= 12
    ensures 0 <= q <= 3 && 3 * q + 1 <= month <= 3 * q + 3
  {
    if month <= 3 then 0 else if month <= 6 then 1 else if month <= 9 then 2 else 3
  }

  /** Quarter `q = month / 3` (0-based month) runs from the first of month `3q` to the last day
      of month `3q + 2`; the fourth quarter ends on December 31. */
  lemma ThisQuarterBounds(today: Date)
    requires Valid(today) && OrdinaryYear(today.year)
    ensures var q := QuarterIndex(today.month);
            PeriodBounds(ThisQuarter, today)
            == (Date(today.year, 3 * q + 1, 1), MonthEnd(today.year, 3 * q + 3))
    ensures today.month >= 10 ==> PeriodBounds(ThisQuarter, today).1 == Date(today.year, 12, 31)
  {
    var y, q := today.year, QuarterIndex(today.month);
    assert (today.month - 1) / 3 == q;
    assert PeriodBounds(ThisQuarter, today) == QuarterPeriod(y, today.month - 1);
    QuarterBoundsAt(y, q);
  }

  /** `new Date(y, 3q, 1)` and `new Date(y, 3q + 3, 0)` are the first and the last day of
      quarter `q`. */
  lemma QuarterBoundsAt(y: int, q: int)
    requires OrdinaryYear(y) && 0 <= q <= 3
    ensures LocalDate(y, q * 3, 1) == Date(y, 3 * q + 1, 1)
    ensures LocalDate(y, (q + 1) * 3, 0) == MonthEnd(y, 3 * q + 3)
  {
    assert q * 3 == 3 * q && (q + 1) * 3 == 3 * q + 3;
    NormalizeInRange(Date(y, 3 * q + 1, 1));
    NormalizeDayZero(y, 3 * q + 2);
  }

  /** The fiscal year runs April 1 to March 31: from April on it is the one starting this year,
      before April the one that started last year. */
  lemma ThisFiscalYearBounds(today: Date)
    requires Valid(today) && OrdinaryYear(today.year) && today.year >= 101
    ensures today.month >= 4 ==>
              PeriodBounds(ThisFiscalYear, today) == (Date(today.year, 4, 1), Date(today.year + 1, 3, 31))
    ensures today.month < 4 ==>
              PeriodBounds(ThisFiscalYear, today) == (Date(today.year - 1, 4, 1), Date(today.year, 3, 31))
  {
    NormalizeInRange(Date(today.year, 4, 1));
    NormalizeInRange(Date(today.year - 1, 4, 1));
    NormalizeInRange(Date(today.year + 1, 3, 31));
    NormalizeInRange(Date(today.year, 3, 31));
  }

  /** First year of the fiscal year containing `today`. */
  function FiscalYearStart(today: Date): int {
    if today.month - 1 >= 3 then today.year else today.year - 1
  }

  /** The period label `FY start-end`. */
  function FiscalYearLabel(today: Date): string {
    var start := FiscalYearStart(today);
    "FY " + IntText(start) + "-" + IntText(start + 1)
  }

  /** The fiscal-year range runs from April 1 of the fiscal year's first year to March 31 of
      the next. */
  lemma FiscalYearBounds(today: Date)
    requires Valid(today) && OrdinaryYear(today.year) && today.year >= 101
    ensures var start := FiscalYearStart(today);
            PeriodBounds(ThisFiscalYear, today) == (Date(start, 4, 1), Date(start + 1, 3, 31))
  {
    ThisFiscalYearBounds(today);
  }

  /** The label names the years in which the fiscal-year range starts and ends. */
  lemma FiscalYearLabelMatchesRange(today: Date, current: Range)
    requires Valid(today) && OrdinaryYear(today.year) && today.year >= 101
    ensures var start := FiscalYearStart(today);
            && DateRangeForMode(ThisFiscalYear, today, current)
               == Range(ToIso(Date(start, 4, 1)), ToIso(Date(start + 1, 3, 31)))
            && FiscalYearLabel(today) == "FY " + NatText(start) + "-" + NatText(start + 1)
  {
    var start := FiscalYearStart(today);
    FiscalYearBounds(today);
    assert DateRangeForMode(ThisFiscalYear, today, current)
           == Range(ToIso(Date(start, 4, 1)), ToIso(Date(start + 1, 3, 31)));
    assert IntText(start) == NatText(start) && IntText(start + 1) == NatText(start + 1);
  }

  /* ---------------- Quick-filter state ---------------- */

  /** The filter state: `dateFilterMode` and the stored `dateRange`. */
  datatype FilterState = FilterState(mode: Mode, range: Range)

  /** The state after mount: this month, with its range stored. */
  function InitialState(today: Date): FilterState
    requires Valid(today)
  {
    FilterState(ThisMonth, DateRangeForMode(ThisMonth, today, Unbounded))
  }

  /** The states the buttons can reach: all-time is only ever entered with the range cleared. */
  predicate Consistent(st: FilterState) {
    st.mode == AllTime ==> st.range == Unbounded
  }

  /** The range the report applies: the stored one in custom mode, otherwise the mode's range
      recomputed for today. */
  function EffectiveRange(st: FilterState, today: Date): Range
    requires Valid(today)
  {
    if st.mode == Custom then st.range else DateRangeForMode(st.mode, today, st.range)
  }

  /** `handleQuickFilter(mode)`: select the mode; a computed mode stores its range, all-time
      clears it, custom keeps it. */
  function HandleQuickFilter(st: FilterState, mode: Mode, today: Date): (r: FilterState)
    requires Valid(today)
    ensures r.mode == mode
    ensures mode == Custom ==> r.range == st.range
    ensures mode != Custom ==> r.range == EffectiveRange(r, today)
    ensures Consistent(r)
  {
    if mode != Custom && mode != AllTime then FilterState(mode, DateRangeForMode(mode, today, st.range))
    else if mode == AllTime then FilterState(mode, Unbounded)
    else FilterState(mode, st.range)
  }

  /** The "Custom Range" button: leaving a computed mode stores that mode's range first, so the
      custom inputs start from what was shown. */
  function SwitchToCustom(st: FilterState, today: Date): (r: FilterState)
    requires Valid(today)
    ensures r.mode == Custom
    ensures st.mode != AllTime ==> EffectiveRange(r, today) == EffectiveRange(st, today)
    ensures Consistent(st) && st.mode == AllTime ==> r.range == Unbounded
  {
    if st.mode != Custom && st.mode != AllTime then
      FilterState(Custom, DateRangeForMode(st.mode, today, st.range))
    else FilterState(Custom, st.range)
  }

  /** The state after mount stores exactly the range this month's mode applies, which runs
      from the first to the last day of today's month. */
  lemma InitialStateConsistent(today: Date)
    requires Valid(today)
    ensures Consistent(InitialState(today)) && InitialState(today).mode == ThisMonth
    ensures InitialState(today).range == EffectiveRange(InitialState(today), today)
    ensures OrdinaryYear(today.year) ==>
              InitialState(today).range
              == Range(ToIso(Date(today.year, today.month, 1)), ToIso(MonthEnd(today.year, today.month)))
  {
    if OrdinaryYear(today.year) {
      ThisMonthBounds(today);
    }
  }

  /* ---------------- Comparison window ---------------- */

  const InvalidTimeValue := "RangeError: Invalid time value"

  /** `getPreviousPeriodRange` on the current range: `null` (`None`) when a bound is missing;
      otherwise the window that starts one calendar year before `fromDate` (`setFullYear`) and
      spans the same number of days. A bound that is not a date makes `toISOString` throw. */
  function PreviousPeriodRange(current: Range): (r: Result<Option<Range>, string>)
    ensures r == Success(None) <==> current.fromDate == "" || current.toDate == ""
    ensures r.Failure? <==>
              (current.fromDate != "" && current.toDate != ""
               && (ParseIso(current.fromDate).None? || ParseIso(current.toDate).None?))
  {
    if current.fromDate == "" || current.toDate == "" then Success(None)
    else
      var from, to := ParseIso(current.fromDate), ParseIso(current.toDate);
      if from.Some? && to.Some? then Success(Some(WindowLastYear(from.value, to.value)))
      else Failure(InvalidTimeValue)
  }

  /** The comparison window of two dates: `setFullYear(year - 1)` on `from`, then
      `setDate(getDate() + daysDiff - 1)` where `daysDiff` is the inclusive day count. */
  function WindowDates(from: Date, to: Date): (Date, Date)
    requires Valid(from) && Valid(to)
  {
    var daysDiff := Ordinal(to) - Ordinal(from) + 1;
    var prevFrom := PreviousYear(from);
    (prevFrom, AddDays(prevFrom, daysDiff - 1))
  }

  /** The window as the `YYYY-MM-DD` texts `toISOString` writes. */
  function WindowLastYear(from: Date, to: Date): Range
    requires Valid(from) && Valid(to)
  {
    var (prevFrom, prevTo) := WindowDates(from, to);
    Range(ToIso(prevFrom), ToIso(prevTo))
  }

  /** The window computed from two formatted dates. */
  lemma PreviousPeriodOfDates(from: Date, to: Date)
    requires Valid(from) && FourDigitYear(from) && Valid(to) && FourDigitYear(to)
    ensures PreviousPeriodRange(Range(ToIso(from), ToIso(to))) == Success(Some(WindowLastYear(from, to)))
  {
    IsoRoundTrip(from);
    IsoRoundTrip(to);
  }

  /** For a range of two dates the window starts on `from` one year back (February 29 rolling
      to March 1) and has the same inclusive length in days. */
  lemma PreviousPeriodWindow(from: Date, to: Date)
    requires Valid(from) && FourDigitYear(from) && Valid(to) && FourDigitYear(to)
    ensures exists prevTo :: Valid(prevTo)
              && PreviousPeriodRange(Range(ToIso(from), ToIso(to)))
                 == Success(Some(Range(ToIso(PreviousYear(from)), ToIso(prevTo))))
              && Ordinal(prevTo) - Ordinal(PreviousYear(from)) + 1 == Ordinal(to) - Ordinal(from) + 1
  {
    PreviousPeriodOfDates(from, to);
    var prevTo := AddDays(PreviousYear(from), Ordinal(to) - Ordinal(from));
    assert Valid(prevTo);
  }

  /** The window is fixed by its last day's distance from the shifted first day. */
  lemma WindowBySpan(from: Date, to: Date, prevTo: Date)
    requires Valid(from) && Valid(to) && Valid(prevTo)
    requires Ordinal(prevTo) - Ordinal(PreviousYear(from)) == Ordinal(to) - Ordinal(from)
    ensures WindowDates(from, to) == (PreviousYear(from), prevTo)
  {
    var daysDiff := Ordinal(to) - Ordinal(from) + 1;
    AddDaysUnique(PreviousYear(from), daysDiff - 1, prevTo);
  }

  /** A window that does not touch February 29 is the same dates one year earlier:
      January of any year compares with January of the year before. */
  lemma PreviousPeriodOfJanuary(y: int)
    ensures WindowDates(Date(y, 1, 1), Date(y, 1, 31)) == (Date(y - 1, 1, 1), Date(y - 1, 1, 31))
  {
    OrdinalSameMonth(Date(y, 1, 1), Date(y, 1, 31));
    OrdinalSameMonth(Date(y - 1, 1, 1), Date(y - 1, 1, 31));
    WindowBySpan(Date(y, 1, 1), Date(y, 1, 31), Date(y - 1, 1, 31));
  }

  /** A window starting on February 29 starts on March 1 a year earlier and keeps its
      31 days, so it ends a day later in the calendar: y-02-29..y-03-30 compares with
      (y-1)-03-01..(y-1)-03-31. */
  lemma PreviousPeriodFromLeapDay(y: int)
    requires IsLeapYear(y)
    ensures WindowDates(Date(y, 2, 29), Date(y, 3, 30)) == (Date(y - 1, 3, 1), Date(y - 1, 3, 31))
  {
    assert Ordinal(Date(y, 3, 30)) - Ordinal(Date(y, 2, 29)) == 30;
    OrdinalSameMonth(Date(y - 1, 3, 1), Date(y - 1, 3, 31));
    WindowBySpan(Date(y, 2, 29), Date(y, 3, 30), Date(y - 1, 3, 31));
  }
}
