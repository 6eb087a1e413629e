# HisaabKitaab reporting core in Dafny

HisaabKitaab is a small income-and-expense ledger for an institution. Its single-page
application, `src/App.tsx`, keeps the list of transactions in memory and builds every report
from it. This project models the period-aware part of that component:

- the quick filters "this month", "this quarter", "this fiscal year" (April to March), "all
  time" and "custom", together with the inclusive `YYYY-MM-DD` range each one yields for a
  given day;
- the report filter, which applies the receiver first and then the date bounds, comparing
  ISO texts as strings;
- the comparison window one year earlier, and the records that fall inside it;
- `calculateStats`, the category breakdown and the per-receiver statistics, plus the
  guarded percentages shown beside them;
- form validation and the payload a valid form produces;
- the two list updates: add puts the record in front, delete filters it out by id;
- `parseLocalDate` on `YYYY-MM-DD` text, and the day-of-month suffix.

The model is built from immutable values and pure functions:

- "Today" is a parameter.
- Dates are proleptic Gregorian `Date(year, month, day)` values.
- `new Date(y, m, d)` is modelled by ECMAScript's MakeDay carry rule, in `Calendar.Normalize`
  and `Calendar.LocalDate`.
- Amounts are integers in the smallest currency unit.
- JavaScript's `Number(...)` is a function parameter wherever the source parses text into a
  number.

Modules, in dependency order:

| module | file | contents |
|---|---|---|
| `Wrappers` | wrappers.dfy | `Option` and `Result` |
| `Text` | text.dfy | string order as JavaScript compares strings, `trim`, UTF-16 length, zero-padded digits |
| `Calendar` | calendar.dfy | leap years, day ordinals, MakeDay carry, `setFullYear(year - 1)` |
| `IsoDate` | isodate.dfy | `toISOString` date text, `new Date(text)`, `parseLocalDate`, day suffix |
| `Seqs` | seqs.dfy | `filter`, subsequences, sums, first-appearance (`Map` key) order |
| `Ledger` | ledger.dfy | the transaction record, `Number(amount) \|\| 0`, add and delete |
| `Stats` | stats.dfy | `calculateStats`, shares and the year-over-year change |
| `Periods` | periods.dfy | the date range of each mode, fiscal-year label, quick-filter state, previous-period window |
| `Reports` | reports.dfy | `getFilteredTransactions`, `getPreviousPeriodTransactions` |
| `Breakdown` | breakdown.dfy | `getCategoryBreakdown`: grouping, stable sort by total, percentages |
| `Receivers` | receivers.dfy | `getReceiverStats` |
| `Validation` | validation.dfy | `validateTransactionForm` and the add payload |

## Model

| member | source | states |
|---|---|---|
| Periods.DateRangeForMode | src/App.tsx:212-252 | all time gives the empty range; custom hands back the stored range; each computed mode gives two non-empty date texts |
| Periods.ThisMonthBounds | src/App.tsx:217-224 | this month runs from day 1 to the month's last day, including February 29 in a leap year |
| Periods.ThisQuarterBounds | src/App.tsx:225-233 | the quarter runs from the first day of its first month to the last day of its third month; the fourth quarter ends on December 31 |
| Periods.QuarterBoundsAt | src/App.tsx:226-228 | `new Date(y, 3q, 1)` and `new Date(y, 3q+3, 0)` are the first and last days of quarter q |
| Periods.ThisFiscalYearBounds | src/App.tsx:234-246 | from April on, the fiscal year is April 1 of this year to March 31 of next year; before April it is the one that started the previous April |
| Periods.FiscalYearBounds | src/App.tsx:234-246 | the fiscal-year range is April 1 of its start year to March 31 of the following year |
| Periods.FiscalYearLabelMatchesRange | src/App.tsx:639-643 | the label `FY start-end` names the years of the range's first and last day |
| Periods.HandleQuickFilter | src/App.tsx:317-326 | selects the mode; a computed mode stores its own range, all time clears the range, custom keeps it; the result is always a reachable state |
| Periods.SwitchToCustom | src/App.tsx:1301-1310 | the custom button carries a computed mode's range over, so the range in effect is unchanged |
| Periods.InitialStateConsistent | src/App.tsx:199-205 | the first state is this month; its stored range is the one the mode applies, from the first to the last day of today's month |
| Periods.PreviousPeriodRange | src/App.tsx:276-304 | no window exactly when a bound is empty; an error exactly when a bound is set but is not a date |
| Periods.PreviousPeriodOfDates | src/App.tsx:276-304 | on two formatted dates the window is the one computed from those dates |
| Periods.PreviousPeriodWindow | src/App.tsx:290-304 | the window starts one calendar year before `fromDate` and covers the same number of days |
| Periods.WindowBySpan | src/App.tsx:292-299 | the window's end is fixed by its distance in days from the shifted start |
| Periods.PreviousPeriodOfJanuary | src/App.tsx:290-304 | January of any year compares with January of the year before |
| Periods.PreviousPeriodFromLeapDay | src/App.tsx:290-304 | a window starting on February 29 compares with a window starting on March 1 of the year before, with the same 31 days |
| Calendar.PreviousYearIsSetFullYear | src/App.tsx:295-296 | `setFullYear(year - 1)` keeps month and day, and February 29 rolls over to March 1 |
| Reports.ByReceiver | src/App.tsx:258-260 | the receiver stage keeps the records of the selected receiver, or every record when none is selected |
| Reports.ByFrom | src/App.tsx:265-267 | the lower-bound stage keeps the dates not below `fromDate` when it is set |
| Reports.ByTo | src/App.tsx:268-270 | the upper-bound stage keeps the dates not above `toDate` when it is set |
| Reports.FilteredIsOneFilter | src/App.tsx:254-274 | the chain of stages is one filter by receiver-and-period |
| Reports.FilteredSpec | src/App.tsx:254-274 | the report is a subsequence of the list, and holds exactly the matching records; all time with no receiver gives the whole list |
| Reports.FilteredIdempotent | src/App.tsx:254-274 | filtering the report again changes nothing |
| Reports.SwitchToCustomKeepsReport | src/App.tsx:1301-1310 | pressing "Custom Range" from any reachable state leaves the report unchanged |
| Reports.ThisMonthReport | src/App.tsx:217-224 | a record is in this month's report exactly when its date is in today's month |
| Reports.ThisQuarterReport | src/App.tsx:225-233 | a record is in this quarter's report exactly when its date is in today's quarter of today's year |
| Reports.ThisFiscalYearReport | src/App.tsx:234-246 | a record is in this fiscal year's report exactly when its date is in the same April-to-March year as today |
| Reports.IsoInBounds | src/App.tsx:265-270 | on ISO texts, the string comparison of the bounds is the calendar comparison |
| Reports.PreviousPeriodTransactions | src/App.tsx:306-315 | all time and a missing window give no records; a bad bound is an error; otherwise the records inside the window, in order, every copy of each kept, with no receiver filter |
| Stats.CalculateStats | src/App.tsx:485-495 | income sums the Income amounts and expenses the Expense amounts, with NaN read as 0; balance is their difference; both are non-negative for non-negative amounts |
| Stats.StatsConcat | src/App.tsx:485-495 | the statistics of two concatenated lists are the sums of their statistics |
| Stats.NotANumberCountsAsZero | src/App.tsx:488 | a non-numeric amount weighs exactly what zero weighs |
| Stats.Share | src/App.tsx:1800 | the percentage is 0 unless the total is positive; otherwise it is the part's share times 100, between 0 and 100 for parts within the whole |
| Stats.ShareAdditive | src/App.tsx:1800 | shares of parts add up like the parts |
| Stats.ChangePercent | src/App.tsx:1757-1774 | the change is shown only when the previous total is positive; it is positive exactly when the current total is larger, and zero exactly when the totals are equal |
| Breakdown.CategoryBreakdown | src/App.tsx:525-540 | the rows are sorted by descending total and are a permutation of the grouped rows |
| Breakdown.GroupRowsContents | src/App.tsx:529-538 | grouping lists the subcategories in first-appearance order, each with its record count and amount total |
| Breakdown.SortStable | src/App.tsx:539 | rows with equal totals keep their relative order |
| Breakdown.BreakdownSums | src/App.tsx:525-540 | the counts add up to the number of the category's records, and the totals to the category total of `calculateStats` |
| Breakdown.BreakdownSubcategories | src/App.tsx:525-540 | one row per subcategory used by a record of the category, and no other |
| Breakdown.BreakdownRows | src/App.tsx:525-540 | each row counts at least one record and carries its subcategory's exact count and total |
| Breakdown.CategoryBreakdownTies | src/App.tsx:525-540 | rows with equal totals appear in the order their subcategories first appear |
| Breakdown.SumShares | src/App.tsx:1800 | the bar percentages of the rows add up to the share of their summed total |
| Breakdown.IncomeSharesSumTo100 | src/App.tsx:1800 | the income breakdown's percentages add up to 100 whenever there is income |
| Breakdown.ExpenseSharesSumTo100 | src/App.tsx:1830 | the expense breakdown's percentages add up to 100 whenever there are expenses |
| Receivers.NoEmptyReceiverRow | src/App.tsx:545 | no row is filed under the empty receiver |
| Receivers.ReceiverStats | src/App.tsx:542-559 | one row per Map entry, each with balance equal to income minus expenses |
| Receivers.ReceiverStatsRows | src/App.tsx:542-559 | the rows list the distinct receiver keys in first-appearance order, each with the income and the non-income amounts filed under it |
| Receivers.EntriesSums | src/App.tsx:543-552 | across the entries, income adds up to the Income total and expenses to the total of every other category |
| Receivers.ReceiverStatsTotals | src/App.tsx:542-559 | for any records, the rows' income adds up to `calculateStats` income, and their expenses to `calculateStats` expenses plus the amounts of every other category |
| Receivers.ReceiverStatsMatchStats | src/App.tsx:542-559 | when every category is Income or Expense, the rows add up to `calculateStats` on the same records |
| Receivers.UnknownCategoryCountsAsExpense | src/App.tsx:550-551 | a single record of any other category gives one row with its whole amount as expenses, and all-zero `calculateStats` |
| Receivers.UnassignedMerges | src/App.tsx:545 | a record with no receiver and one addressed to "Unassigned" share one row |
| Validation.AmountError | src/App.tsx:371-380 | the amount is required, then must be a number, then greater than zero; no message exactly when it is given and positive |
| Validation.FormErrors | src/App.tsx:349-381 | each field's message is recorded exactly when that field's test fails, with the source's wording; remarks are measured in UTF-16 code units |
| Validation.ValidateTransactionForm | src/App.tsx:383 | the form is valid exactly when no error was recorded |
| Validation.ValidIffAcceptable | src/App.tsx:349-384 | the form is valid exactly when every field is acceptable |
| Validation.Rejections | src/App.tsx:349-384 | each failing field rejects the whole form |
| Validation.SurrogatePairRemarks | src/App.tsx:367-369 | remarks of two emoji are four UTF-16 code units long, so they pass the length test |
| Validation.MakePayload | src/App.tsx:425-435 | date, category and subcategory pass through as typed; after validation passes, the payload has every selection made, sender and receiver non-blank with no surrounding whitespace, remarks empty or at least three UTF-16 code units, and a positive amount |
| Ledger.AddTransaction | src/App.tsx:451 | the created record goes in front of the unchanged list |
| Ledger.DeleteTransaction | src/App.tsx:477 | deleting keeps, in order, every copy of each record with another id and no record with that id |
| Ledger.DeleteAfterAdd | src/App.tsx:451-477 | deleting a freshly added record with a new id restores the list |
| IsoDate.ParseLocalDate | src/App.tsx:578-589 | empty text is null; `YYYY-MM-DD` text is always a date; other text goes to the engine's parser |
| IsoDate.ParseLocalDateOfIso | src/App.tsx:581-585 | reading a formatted date from year 100 on gives the date back |
| IsoDate.ParseLocalDateCarries | src/App.tsx:581-585 | "2023-02-29" is read as March 1, 2023 |
| IsoDate.ParseLocalDateTwoDigitYear | src/App.tsx:581-585 | year "0050" is read as 1950 |
| IsoDate.DaySuffixIsOrdinal | src/App.tsx:596-600 | on every real day of a month, the suffix is the English ordinal suffix |
| IsoDate.IsoRoundTrip | src/App.tsx:290-291 | reading back a formatted date gives the date |
| IsoDate.IsoOrder | src/App.tsx:265-270 | comparing two ISO date texts as strings compares the dates |
| Text.Utf16LengthBasicPlane | src/App.tsx:367 | `length` counts UTF-16 code units, which equals the character count exactly when no character lies outside the Basic Multilingual Plane |
| Seqs.FilterMultiplicity | src/App.tsx:477 | `filter` keeps every copy of each passing element and no copy of the others |
| Text.Trim | src/App.tsx:361-368 | `trim` cuts whitespace only from both ends; the result is empty exactly for all-whitespace text, and otherwise starts and ends with text |

## Left out

- The serverless functions, the database, login and session storage: they are outside the
  component's reporting logic.
- Time zones. Dates are held as if the local offset were zero. With a positive offset such
  as UTC+05:30, `toISOString` on local midnight writes the previous day. The model does not
  describe that shift.
- `new Date(text)` on text other than `YYYY-MM-DD`. `ParseLocalDate` takes it as a
  parameter. `ParseIso` reads only the canonical ten-character form naming a real date.
  Engines that accept other shapes are not modelled.
- Floating point. Amounts are integers in the smallest currency unit, and shares are exact
  reals. `toFixed`, `Intl` currency formatting and the displayed text are not modelled.
- Date texts are compared by code point. JavaScript compares UTF-16 code units. The two agree
  on the digit-and-hyphen date texts the filter compares.
- `Number(text)` is a parameter (`toNumber`), not a parser.
- The table's column sort and pagination, CSV export, the period label of modes other than
  the fiscal year, the charts and the rest of the user interface.
- Periods.ThisMonthBounds: stated for years 100 to 9998. Outside them, `new Date(y, ...)`
  reads years 0..99 as 1900..1999 and `toISOString` writes a six-digit year. The same
  bound applies to ThisQuarterBounds, QuarterBoundsAt, ThisFiscalYearBounds,
  FiscalYearBounds, FiscalYearLabelMatchesRange and the three `This…Report` lemmas. The
  fiscal-year lemmas need year 101 or later, so that the previous year is not a two-digit
  year.
- Reports.ThisMonthReport: stated without a receiver selected. With a receiver, `FilteredSpec`
  still describes the report: the same period test plus the receiver test. The same holds for
  ThisQuarterReport and ThisFiscalYearReport.
- Receivers.ReceiverStatsMatchStats: stated only when every category is Income or Expense.
  `ReceiverStatsTotals` states the general case, where the other categories' amounts count
  as receiver expenses.
- Periods.PreviousPeriodWindow: states the window's start and length, not a closed form of
  its end. `PreviousPeriodOfJanuary` and `PreviousPeriodFromLeapDay` give the end in two
  families of cases.
- Periods.DateRangeForMode: its own contract says only that a computed mode gives two
  non-empty texts. The exact dates are stated by ThisMonthBounds, ThisQuarterBounds and
  ThisFiscalYearBounds, for years 100 to 9998.
- IsoDate.ParseLocalDate: its own contract says only that `YYYY-MM-DD` text always yields a
  date. Which date it yields is stated by ParseLocalDateOfIso, ParseLocalDateCarries and
  ParseLocalDateTwoDigitYear. The last two are stated for one example each.
