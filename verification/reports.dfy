/** The report pipeline: `getFilteredTransactions` (receiver, then period bounds) and
    `getPreviousPeriodTransactions` (the comparison window, without the receiver filter). */
module Reports {
  import opened Wrappers
  import opened Text
  import opened Calendar
  import opened IsoDate
  import opened Seqs
  import opened Ledger
  import opened Periods

  /** The receiver filter: equality, or everything when no receiver is selected. */
  predicate ReceiverMatches(t: Transaction, receiver: string) {
    receiver == "" || t.receiver == receiver
  }

  /** A date text inside a range: `fromDate <= date` and `date <= toDate` as JavaScript
      compares strings, each test skipped when its bound is "". */
  predicate InRange(date: string, r: Range) {
    (r.fromDate == "" || LexLe(r.fromDate, date)) && (r.toDate == "" || LexLe(date, r.toDate))
  }

  /** What the report keeps: the receiver filter, and the period unless it is all time. */
  predicate ReportMatches(t: Transaction, receiver: string, st: FilterState, today: Date)
    requires Valid(today)
  {
    ReceiverMatches(t, receiver) && (st.mode == AllTime || InRange(t.date, EffectiveRange(st, today)))
  }

  /** The receiver stage: `filtered.filter(t => t.receiver === receiverFilter)` when one is set. */
  function ByReceiver(ts: seq<Transaction>, receiver: string): (r: seq<Transaction>)
    ensures r == Filter(ts, (t: Transaction) => ReceiverMatches(t, receiver))
  {
    if receiver != "" then
      FilterCongruent(ts, (t: Transaction) => t.receiver == receiver,
                          (t: Transaction) => ReceiverMatches(t, receiver));
      Filter(ts, (t: Transaction) => t.receiver == receiver)
    else
      FilterAll(ts, (t: Transaction) => ReceiverMatches(t, receiver));
      ts
  }

  /** The lower-bound stage: `filtered.filter(t => t.date >= fromDate)` when the bound is set. */
  function ByFrom(ts: seq<Transaction>, fromDate: string): (r: seq<Transaction>)
    ensures r == Filter(ts, (t: Transaction) => fromDate == "" || LexLe(fromDate, t.date))
  {
    if fromDate != "" then
      FilterCongruent(ts, (t: Transaction) => LexLe(fromDate, t.date),
                          (t: Transaction) => fromDate == "" || LexLe(fromDate, t.date));
      Filter(ts, (t: Transaction) => LexLe(fromDate, t.date))
    else
      FilterAll(ts, (t: Transaction) => fromDate == "" || LexLe(fromDate, t.date));
      ts
  }

  /** The upper-bound stage: `filtered.filter(t => t.date <= toDate)` when the bound is set. */
  function ByTo(ts: seq<Transaction>, toDate: string): (r: seq<Transaction>)
    ensures r == Filter(ts, (t: Transaction) => toDate == "" || LexLe(t.date, toDate))
  {
    if toDate != "" then
      FilterCongruent(ts, (t: Transaction) => LexLe(t.date, toDate),
                          (t: Transaction) => toDate == "" || LexLe(t.date, toDate));
      Filter(ts, (t: Transaction) => LexLe(t.date, toDate))
    else
      FilterAll(ts, (t: Transaction) => toDate == "" || LexLe(t.date, toDate));
      ts
  }

  /** `getFilteredTransactions`: the receiver stage, then (unless all time) the two bound
      stages of the effective range. */
  function FilteredTransactions(all: seq<Transaction>, receiver: string, st: FilterState, today: Date)
    : (r: seq<Transaction>)
    requires Valid(today)
  {
    var byReceiver := ByReceiver(all, receiver);
    if st.mode == AllTime then byReceiver
    else
      var range := EffectiveRange(st, today);
      ByTo(ByFrom(byReceiver, range.fromDate), range.toDate)
  }

  /** The chain of filters is one filter by `ReportMatches`. */
  lemma FilteredIsOneFilter(all: seq<Transaction>, receiver: string, st: FilterState, today: Date)
    requires Valid(today)
    ensures FilteredTransactions(all, receiver, st, today)
            == Filter(all, (t: Transaction) => ReportMatches(t, receiver, st, today))
  {
    var m := (t: Transaction) => ReportMatches(t, receiver, st, today);
    var pr := (t: Transaction) => ReceiverMatches(t, receiver);
    if st.mode == AllTime {
      FilterCongruent(all, pr, m);
    } else {
      var range := EffectiveRange(st, today);
      FilterThree(all, pr,
                  (t: Transaction) => range.fromDate == "" || LexLe(range.fromDate, t.date),
                  (t: Transaction) => range.toDate == "" || LexLe(t.date, range.toDate), m);
    }
  }

  /** The report keeps, in their original order, exactly the records that match the receiver
      (when one is set) and lie within both set bounds (unless the mode is all time); with all
      time and no receiver it is the whole list. */
  lemma FilteredSpec(all: seq<Transaction>, receiver: string, st: FilterState, today: Date)
    requires Valid(today)
    ensures var r := FilteredTransactions(all, receiver, st, today);
            && IsSubsequence(r, all)
            && (forall t :: t in r <==> t in all && ReportMatches(t, receiver, st, today))
            && (st.mode == AllTime && receiver == "" ==> r == all)
  {
    FilteredIsOneFilter(all, receiver, st, today);
    if st.mode == AllTime && receiver == "" {
      FilterAll(all, (t: Transaction) => ReportMatches(t, receiver, st, today));
    }
  }

  /** Filtering the report again with the same selection changes nothing. */
  lemma FilteredIdempotent(all: seq<Transaction>, receiver: string, st: FilterState, today: Date)
    requires Valid(today)
    ensures var once := FilteredTransactions(all, receiver, st, today);
            FilteredTransactions(once, receiver, st, today) == once
  {
    var once := FilteredTransactions(all, receiver, st, today);
    FilteredIsOneFilter(all, receiver, st, today);
    FilteredIsOneFilter(once, receiver, st, today);
    FilterIdempotent(all, (t: Transaction) => ReportMatches(t, receiver, st, today));
  }

  /** Pressing "Custom Range" leaves the report as it was: a computed mode's range is carried
      over, and all time was entered with the range cleared. */
  lemma SwitchToCustomKeepsReport(all: seq<Transaction>, receiver: string, st: FilterState, today: Date)
    requires Valid(today) && Consistent(st)
    ensures FilteredTransactions(all, receiver, SwitchToCustom(st, today), today)
            == FilteredTransactions(all, receiver, st, today)
  {
    var st' := SwitchToCustom(st, today);
    FilteredIsOneFilter(all, receiver, st, today);
    FilteredIsOneFilter(all, receiver, st', today);
    FilterCongruent(all, (t: Transaction) => ReportMatches(t, receiver, st', today),
                         (t: Transaction) => ReportMatches(t, receiver, st, today));
  }

  /** For ISO date texts, the string bounds test is the calendar bounds test. */
  lemma IsoInBounds(d: Date, first: Date, last: Date)
    requires Valid(d) && FourDigitYear(d) && Valid(first) && FourDigitYear(first)
    requires Valid(last) && FourDigitYear(last)
    ensures InRange(ToIso(d), Range(ToIso(first), ToIso(last)))
            <==> !Before(d, first) && !Before(last, d)
  {
    IsoOrder(d, first);
    IsoOrder(last, d);
  }

  /** The days from the first of month `m1` to the last of month `m2` of year `y` are the
      days of those months. */
  lemma MonthSpan(d: Date, y: int, m1: int, m2: int)
    requires Valid(d) && 1 <= m1 <= m2 <= 12
    ensures !Before(d, Date(y, m1, 1)) && !Before(MonthEnd(y, m2), d)
            <==> d.year == y && m1 <= d.month <= m2
  {
  }

  /** The days from April 1 of `start` to March 31 of the next year are the days whose fiscal
      year starts in `start`. */
  lemma FiscalSpan(d: Date, start: int)
    requires Valid(d)
    ensures !Before(d, Date(start, 4, 1)) && !Before(Date(start + 1, 3, 31), d)
            <==> FiscalYearStart(d) == start
  {
  }

  /** Without a receiver, a computed mode's report keeps the records whose date text lies
      between the texts of the period's first and last day. */
  lemma ComputedReport(t: Transaction, mode: Mode, range: Range, today: Date, first: Date, last: Date)
    requires Valid(today) && Computed(mode) && PeriodBounds(mode, today) == (first, last)
    ensures ReportMatches(t, "", FilterState(mode, range), today)
            <==> InRange(t.date, Range(ToIso(first), ToIso(last)))
  {
    assert EffectiveRange(FilterState(mode, range), today) == Range(ToIso(first), ToIso(last));
  }

  /** A record dated `d` is in this month's report exactly when `d` is in today's month. */
  lemma ThisMonthReport(t: Transaction, d: Date, today: Date, range: Range)
    requires Valid(today) && OrdinaryYear(today.year)
    requires Valid(d) && FourDigitYear(d) && t.date == ToIso(d)
    ensures ReportMatches(t, "", FilterState(ThisMonth, range), today)
            <==> d.year == today.year && d.month == today.month
  {
    var first, last := Date(today.year, today.month, 1), MonthEnd(today.year, today.month);
    ThisMonthBounds(today);
    ComputedReport(t, ThisMonth, range, today, first, last);
    IsoInBounds(d, first, last);
    MonthSpan(d, today.year, today.month, today.month);
  }

  /** A record dated `d` is in this quarter's report exactly when `d` is in today's quarter. */
  lemma ThisQuarterReport(t: Transaction, d: Date, today: Date, range: Range)
    requires Valid(today) && OrdinaryYear(today.year)
    requires Valid(d) && FourDigitYear(d) && t.date == ToIso(d)
    ensures ReportMatches(t, "", FilterState(ThisQuarter, range), today)
            <==> d.year == today.year && QuarterIndex(d.month) == QuarterIndex(today.month)
  {
    var q := QuarterIndex(today.month);
    var first, last := Date(today.year, 3 * q + 1, 1), MonthEnd(today.year, 3 * q + 3);
    ThisQuarterBounds(today);
    ComputedReport(t, ThisQuarter, range, today, first, last);
    IsoInBounds(d, first, last);
    MonthSpan(d, today.year, 3 * q + 1, 3 * q + 3);
  }

  /** A record dated `d` is in this fiscal year's report exactly when `d` falls in the same
      April-to-March year as today. */
  lemma ThisFiscalYearReport(t: Transaction, d: Date, today: Date, range: Range)
    requires Valid(today) && OrdinaryYear(today.year) && today.year >= 101
    requires Valid(d) && FourDigitYear(d) && t.date == ToIso(d)
    ensures ReportMatches(t, "", FilterState(ThisFiscalYear, range), today)
            <==> FiscalYearStart(d) == FiscalYearStart(today)
  {
    var start := FiscalYearStart(today);
    var first, last := Date(start, 4, 1), Date(start + 1, 3, 31);
    FiscalYearBounds(today);
    ComputedReport(t, ThisFiscalYear, range, today, first, last);
    IsoInBounds(d, first, last);
    FiscalSpan(d, start);
  }

  /** Inside the comparison window, both bounds tested (they are never empty there). */
  predicate InWindow(date: string, w: Range) {
    LexLe(w.fromDate, date) && LexLe(date, w.toDate)
  }

  /** `getPreviousPeriodTransactions`: the records dated inside the comparison window, with
      no receiver filter; none when there is no window, and the window's error when a bound
      is not a date. */
  function PreviousPeriodTransactions(all: seq<Transaction>, st: FilterState, today: Date)
    : (r: Result<seq<Transaction>, string>)
    requires Valid(today)
    ensures st.mode == AllTime ==> r == Success([])
    ensures r.Failure? <==> PreviousPeriodRange(EffectiveRange(st, today)).Failure?
    ensures PreviousPeriodRange(EffectiveRange(st, today)) == Success(None) ==> r == Success([])
    ensures r.Success? ==> IsSubsequence(r.value, all)
    ensures var window := PreviousPeriodRange(EffectiveRange(st, today));
            window.Success? && window.value.Some? ==>
              forall t :: t in r.value <==> t in all && InWindow(t.date, window.value.value)
    ensures var window := PreviousPeriodRange(EffectiveRange(st, today));
            window.Success? && window.value.Some? ==>
              forall t :: multiset(r.value)[t]
                          == if InWindow(t.date, window.value.value) then multiset(all)[t] else 0
  {
    match PreviousPeriodRange(EffectiveRange(st, today))
    case Failure(e) => Failure(e)
    case Success(None) => Success([])
    case Success(Some(w)) =>
      FilterMultiplicity(all, (t: Transaction) => InWindow(t.date, w));
      Success(Filter(all, (t: Transaction) => InWindow(t.date, w)))
  }
}
