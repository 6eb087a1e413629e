/** `calculateStats` and the guarded percentages the report shows next to its totals. */
module Stats {
  import opened Wrappers
  import opened Seqs
  import opened Ledger

  datatype Stats = Stats(income: int, expenses: int, balance: int)

  predicate IsIncome(t: Transaction) {
    t.category == Income
  }

  predicate IsExpense(t: Transaction) {
    t.category == Expense
  }

  /** Reference total: the coerced amounts of the records of category `c`, record by record. */
  function CategoryTotal(ts: seq<Transaction>, c: Category): int
    decreases |ts|
  {
    if |ts| == 0 then 0
    else (if ts[0].category == c then AmountOf(ts[0]) else 0) + CategoryTotal(ts[1..], c)
  }

  /** Summing the filtered records is summing the category's amounts. */
  lemma {:induction false} SumFilterIsCategoryTotal(ts: seq<Transaction>, c: Category)
    ensures SumAmounts(Filter(ts, (t: Transaction) => t.category == c)) == CategoryTotal(ts, c)
    decreases |ts|
  {
    if |ts| > 0 {
      SumFilterIsCategoryTotal(ts[1..], c);
      var p := (t: Transaction) => t.category == c;
      if p(ts[0]) {
        assert Filter(ts, p)[1..] == Filter(ts[1..], p);
      }
    }
  }

  lemma {:induction false} CategoryTotalNonNegative(ts: seq<Transaction>, c: Category)
    requires NonNegativeAmounts(ts)
    ensures CategoryTotal(ts, c) >= 0
    decreases |ts|
  {
    if |ts| > 0 {
      CategoryTotalNonNegative(ts[1..], c);
    }
  }

  lemma {:induction false} CategoryTotalConcat(a: seq<Transaction>, b: seq<Transaction>, c: Category)
    ensures CategoryTotal(a + b, c) == CategoryTotal(a, c) + CategoryTotal(b, c)
    decreases |a|
  {
    if |a| == 0 {
      assert a + b == b;
    } else {
      assert (a + b)[1..] == a[1..] + b;
      CategoryTotalConcat(a[1..], b, c);
    }
  }

  /** `calculateStats`: income sums the Income records only, expenses the Expense records only
      (a record of any other category counts in neither), and balance is their difference. */
  function CalculateStats(ts: seq<Transaction>): (r: Stats)
    ensures r.income == CategoryTotal(ts, Income)
    ensures r.expenses == CategoryTotal(ts, Expense)
    ensures r.balance == r.income - r.expenses
    ensures NonNegativeAmounts(ts) ==> r.income >= 0 && r.expenses >= 0
  {
    SumFilterIsCategoryTotal(ts, Income);
    SumFilterIsCategoryTotal(ts, Expense);
    if NonNegativeAmounts(ts) then
      CategoryTotalNonNegative(ts, Income);
      CategoryTotalNonNegative(ts, Expense);
      Totals(ts)
    else Totals(ts)
  }

  function Totals(ts: seq<Transaction>): Stats {
    var income := SumAmounts(Filter(ts, (t: Transaction) => t.category == Income));
    var expenses := SumAmounts(Filter(ts, (t: Transaction) => t.category == Expense));
    Stats(income, expenses, income - expenses)
  }

  /** Statistics of two lists put together are the sums of their statistics. */
  lemma StatsConcat(a: seq<Transaction>, b: seq<Transaction>)
    ensures CalculateStats(a + b).income == CalculateStats(a).income + CalculateStats(b).income
    ensures CalculateStats(a + b).expenses == CalculateStats(a).expenses + CalculateStats(b).expenses
    ensures CalculateStats(a + b).balance == CalculateStats(a).balance + CalculateStats(b).balance
  {
    CategoryTotalConcat(a, b, Income);
    CategoryTotalConcat(a, b, Expense);
  }

  /** A non-numeric amount weighs exactly what an amount of zero weighs: no NaN reaches a total. */
  lemma {:induction false} NotANumberCountsAsZero(ts: seq<Transaction>, i: nat)
    requires i < |ts|
    ensures CalculateStats(ts[i := ts[i].(amount := NotANumber)])
            == CalculateStats(ts[i := ts[i].(amount := Num(0))])
  {
    var a, b := ts[i := ts[i].(amount := NotANumber)], ts[i := ts[i].(amount := Num(0))];
    assert a == ts[..i] + [a[i]] + ts[i + 1..];
    assert b == ts[..i] + [b[i]] + ts[i + 1..];
    StatsConcat(ts[..i] + [a[i]], ts[i + 1..]);
    StatsConcat(ts[..i] + [b[i]], ts[i + 1..]);
    StatsConcat(ts[..i], [a[i]]);
    StatsConcat(ts[..i], [b[i]]);
  }

  /** The share of `part` in `whole` as a percentage, 0 when `whole` is not positive
      (`stats.income > 0 ? item.total / stats.income * 100 : 0`). */
  function Share(part: int, whole: int): (r: real)
    ensures whole <= 0 ==> r == 0.0
    ensures whole > 0 ==> r * whole as real == 100.0 * part as real
    ensures 0 <= part <= whole ==> 0.0 <= r <= 100.0
    ensures whole > 0 && part == whole ==> r == 100.0
  {
    if whole > 0 then part as real / whole as real * 100.0 else 0.0
  }

  /** Shares of parts add up like the parts. */
  lemma ShareAdditive(a: int, b: int, whole: int)
    ensures Share(a, whole) + Share(b, whole) == Share(a + b, whole)
  {
    if whole > 0 {
      var w := whole as real;
      var x, y := a as real, b as real;
      assert (x + y) / w == x / w + y / w;
      assert (a + b) as real == x + y;
    }
  }

  /** The year-over-year change shown beside a previous-period total: absent unless the
      previous total is positive; positive exactly when the current total is larger. */
  function ChangePercent(current: int, previous: int): (r: Option<real>)
    ensures r.Some? <==> previous > 0
    ensures r.Some? ==> (r.value > 0.0 <==> current > previous)
    ensures r.Some? ==> (r.value == 0.0 <==> current == previous)
    ensures r.Some? ==> r.value * previous as real == 100.0 * (current - previous) as real
  {
    if previous > 0 then Some((current - previous) as real / previous as real * 100.0) else None
  }
}
