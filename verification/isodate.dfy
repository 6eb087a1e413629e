/** Dates as `YYYY-MM-DD` text: `toISOString().split('T')[0]`, the two ways the source reads
    such text back (`new Date(text)` and `parseLocalDate`), and the ordinal day suffix. */
module IsoDate {
  import opened Wrappers
  import opened Text
  import opened Calendar

  /** Years that `toISOString` writes with exactly four digits. */
  predicate FourDigitYear(d: Date) {
    0 <= d.year <= 9999
  }

  /** The year field of `toISOString`: four digits, or a sign and six digits outside 0..9999. */
  function YearText(y: int): string {
    if 0 <= y <= 9999 then PadDigits(y, 4)
    else (if y < 0 then "-" else "+") + PadDigits(if y < 0 then -y else y, 6)
  }

  /** The date part of `toISOString()` for a date held at UTC midnight. */
  function ToIso(d: Date): (s: string)
    requires Valid(d)
    ensures FourDigitYear(d) ==> |s| == 10 && s[4] == '-' && s[7] == '-'
  {
    YearText(d.year) + ("-" + (PadDigits(d.month, 2) + ("-" + PadDigits(d.day, 2))))
  }

  /** The text shape `^\d{4}-\d{2}-\d{2}$`. */
  predicate IsYmdShape(s: string) {
    |s| == 10 && AllDigits(s[..4]) && s[4] == '-' && AllDigits(s[5..7]) && s[7] == '-'
    && AllDigits(s[8..])
  }

  /** The three numbers of a `YYYY-MM-DD` text, as written. */
  function YmdFields(s: string): (f: (nat, nat, nat))
    requires IsYmdShape(s)
    ensures f.0 <= 9999 && f.1 <= 99 && f.2 <= 99
  {
    (DigitsValue(s[..4]), DigitsValue(s[5..7]), DigitsValue(s[8..]))
  }

  /** The fields of a `YYYY-MM-DD` text digit by digit. */
  lemma YmdFieldsByDigit(s: string)
    requires IsYmdShape(s)
    ensures YmdFields(s).0 == 1000 * DigitValue(s[0]) + 100 * DigitValue(s[1]) + 10 * DigitValue(s[2]) + DigitValue(s[3])
    ensures YmdFields(s).1 == 10 * DigitValue(s[5]) + DigitValue(s[6])
    ensures YmdFields(s).2 == 10 * DigitValue(s[8]) + DigitValue(s[9])
  {
    DigitsValue4(s[..4]);
    DigitsValue2(s[5..7]);
    DigitsValue2(s[8..]);
  }

  /** `new Date(text)` on a date-only ISO text, which ECMAScript reads as UTC midnight:
      `None` is an Invalid Date. Only the ten-character form naming a real calendar date is read. */
  function ParseIso(s: string): (r: Option<Date>)
    ensures r.Some? ==> Valid(r.value) && FourDigitYear(r.value) && ToIso(r.value) == s
  {
    if !IsYmdShape(s) then None
    else
      var (y, m, d) := YmdFields(s);
      var date := Date(y, m, d);
      if !Valid(date) then None
      else
        IsoOfFields(s);
        Some(date)
  }

  /** Formatting the fields read from a `YYYY-MM-DD` text writes the text back. */
  lemma IsoOfFields(s: string)
    requires IsYmdShape(s)
    requires Valid(Date(YmdFields(s).0, YmdFields(s).1, YmdFields(s).2))
    ensures ToIso(Date(YmdFields(s).0, YmdFields(s).1, YmdFields(s).2)) == s
  {
    DigitsValueRoundTrip(s[..4]);
    DigitsValueRoundTrip(s[5..7]);
    DigitsValueRoundTrip(s[8..]);
    assert s == s[..4] + ("-" + (s[5..7] + ("-" + s[8..])));
  }

  /** Formatting then reading back gives the date. */
  lemma {:induction false} IsoRoundTrip(d: Date)
    requires Valid(d) && FourDigitYear(d)
    ensures ParseIso(ToIso(d)) == Some(d)
  {
    var s := ToIso(d);
    assert s[..4] == PadDigits(d.year, 4);
    assert s[5..7] == PadDigits(d.month, 2);
    assert s[8..] == PadDigits(d.day, 2);
    PadDigitsRoundTrip(d.year, 4);
    PadDigitsRoundTrip(d.month, 2);
    PadDigitsRoundTrip(d.day, 2);
  }

  /** Formatting is injective on four-digit years. */
  lemma IsoInjective(a: Date, b: Date)
    requires Valid(a) && FourDigitYear(a) && Valid(b) && FourDigitYear(b)
    ensures ToIso(a) == ToIso(b) <==> a == b
  {
    if ToIso(a) == ToIso(b) {
      IsoRoundTrip(a);
      IsoRoundTrip(b);
    }
  }

  /** Comparing ISO texts as strings, as the report filter does, is comparing the dates. */
  lemma {:induction false} IsoOrder(a: Date, b: Date)
    requires Valid(a) && FourDigitYear(a) && Valid(b) && FourDigitYear(b)
    ensures LexLess(ToIso(a), ToIso(b)) <==> Before(a, b)
  {
    var ya, yb := PadDigits(a.year, 4), PadDigits(b.year, 4);
    var ma, mb := PadDigits(a.month, 2), PadDigits(b.month, 2);
    var da, db := PadDigits(a.day, 2), PadDigits(b.day, 2);
    PadDigitsOrder(a.year, b.year, 4);
    PadDigitsOrder(a.month, b.month, 2);
    PadDigitsOrder(a.day, b.day, 2);
    PadDigitsRoundTrip(a.year, 4);
    PadDigitsRoundTrip(b.year, 4);
    PadDigitsRoundTrip(a.month, 2);
    PadDigitsRoundTrip(b.month, 2);
    LexLessConcat(ya, "-" + (ma + ("-" + da)), yb, "-" + (mb + ("-" + db)));
    LexLessIrreflexive("-");
    LexLessConcat("-", ma + ("-" + da), "-", mb + ("-" + db));
    LexLessConcat(ma, "-" + da, mb, "-" + db);
    LexLessConcat("-", da, "-", db);
  }

  /** The `YYYY-MM-DD` branch of `parseLocalDate`: the fields go through
      `new Date(y, m - 1, d)`, so out-of-range days and months carry over and years 0..99 are
      read as 1900..1999. Empty text is `null`; any other text goes to `fallback`, the
      engine's own `new Date(text)`, which this model does not describe. */
  function ParseLocalDate(s: string, fallback: string -> Option<Date>): (r: Option<Date>)
    ensures s == "" ==> r == None
    ensures IsYmdShape(s) ==> r.Some? && Valid(r.value)
    ensures s != "" && !IsYmdShape(s) ==> r == fallback(s)
  {
    if s == "" then None
    else if IsYmdShape(s) then
      var (y, m, d) := YmdFields(s);
      Some(LocalDate(y, m - 1, d))
    else fallback(s)
  }

  /** Reading a formatted date with `parseLocalDate` gives the date back from year 100 on. */
  lemma ParseLocalDateOfIso(d: Date, fallback: string -> Option<Date>)
    requires Valid(d) && 100 <= d.year <= 9999
    ensures ParseLocalDate(ToIso(d), fallback) == Some(d)
  {
    IsoRoundTrip(d);
    NormalizeInRange(d);
  }

  /** An impossible day carries into the next month: "2023-02-29" is read as March 1. */
  lemma ParseLocalDateCarries(fallback: string -> Option<Date>)
    ensures ParseLocalDate("2023-02-29", fallback) == Some(Date(2023, 3, 1))
  {
    var s := "2023-02-29";
    YmdFieldsByDigit(s);
    assert YmdFields(s) == (2023, 2, 29);
    February29Carries(2023);
  }

  /** `new Date(y, 1, 29)` in a common year is March 1. */
  lemma February29Carries(y: int)
    requires !IsLeapYear(y) && !(0 <= y <= 99)
    ensures LocalDate(y, 1, 29) == Date(y, 3, 1)
  {
    assert Ordinal(Date(y, 3, 1)) == Ordinal(Date(y, 2, 1)) + 28;
    AddDaysUnique(Date(y, 2, 1), 28, Date(y, 3, 1));
  }

  /** A two-digit year is read in the 1900s: "0050-06-15" is June 15, 1950. */
  lemma ParseLocalDateTwoDigitYear(fallback: string -> Option<Date>)
    ensures ParseLocalDate("0050-06-15", fallback) == Some(Date(1950, 6, 15))
  {
    var s := "0050-06-15";
    YmdFieldsByDigit(s);
    assert YmdFields(s) == (50, 6, 15);
    NormalizeInRange(Date(1950, 6, 15));
  }

  /** The suffix `formatDisplayDate` writes after the day of the month. */
  function DaySuffix(day: int): string {
    if day == 1 || day == 21 || day == 31 then "st"
    else if day == 2 || day == 22 then "nd"
    else if day == 3 || day == 23 then "rd"
    else "th"
  }

  /** The English ordinal suffix of any positive number: "th" for 11, 12 and 13 (and every
      number ending in them), otherwise by the last digit. */
  function EnglishOrdinalSuffix(n: nat): string {
    if 11 <= n % 100 <= 13 then "th"
    else if n % 10 == 1 then "st"
    else if n % 10 == 2 then "nd"
    else if n % 10 == 3 then "rd"
    else "th"
  }

  /** On every day a date can have, the day-suffix rule is the English ordinal rule. */
  lemma DaySuffixIsOrdinal(d: Date)
    requires Valid(d)
    ensures DaySuffix(d.day) == EnglishOrdinalSuffix(d.day)
  {
  }
}
