/** `getReceiverStats`: per-receiver income, expenses and balance, accumulated in a `Map`
    keyed by receiver (an empty receiver is filed as "Unassigned") and listed in the Map's
    insertion order. Every record whose category is not Income is added to expenses. */
module Receivers {
  import opened Wrappers
  import opened Seqs
  import opened Ledger
  import opened Stats

  const UnassignedKey := "Unassigned"

  /** `t.receiver || 'Unassigned'`: the empty string is falsy. */
  function ReceiverKey(t: Transaction): (k: string)
    ensures k != ""
    ensures k == UnassignedKey <==> t.receiver == "" || t.receiver == UnassignedKey
    ensures k != UnassignedKey ==> k == t.receiver
  {
    if t.receiver == "" then UnassignedKey else t.receiver
  }

  /** A Map entry: the key and the `{ income, expenses }` value. */
  datatype Entry = Entry(key: string, income: int, expenses: int)

  /** One row of the result. */
  datatype ReceiverRow = ReceiverRow(receiver: string, income: int, expenses: int, balance: int)

  /** The key of every record, in list order. */
  function Keys(ts: seq<Transaction>): (r: seq<string>)
    ensures |r| == |ts| && forall i :: 0 <= i < |ts| ==> r[i] == ReceiverKey(ts[i])
  {
    seq(|ts|, i requires 0 <= i < |ts| => ReceiverKey(ts[i]))
  }

  /** The key of every entry, in insertion order. */
  function EntryKeys(es: seq<Entry>): (r: seq<string>)
    ensures |r| == |es| && forall i :: 0 <= i < |es| ==> r[i] == es[i].key
  {
    seq(|es|, i requires 0 <= i < |es| => es[i].key)
  }

  /** `map.has(key)` / `map.get(key)`: the position of the entry for `key`. */
  function FindEntry(es: seq<Entry>, key: string): (r: Option<nat>)
    ensures r.Some? ==> r.value < |es| && es[r.value].key == key
    ensures r.None? <==> forall i :: 0 <= i < |es| ==> es[i].key != key
    decreases |es|
  {
    if |es| == 0 then None
    else if es[0].key == key then Some(0)
    else
      match FindEntry(es[1..], key)
      case None => None
      case Some(i) => Some(i + 1)
  }

  /** `if (t.category === 'Income') entry.income += … else entry.expenses += …`. */
  function Bump(e: Entry, t: Transaction): (r: Entry)
    ensures r.key == e.key
  {
    if t.category == Income then Entry(e.key, e.income + AmountOf(t), e.expenses)
    else Entry(e.key, e.income, e.expenses + AmountOf(t))
  }

  /** One `forEach` step: create the entry on first sight of the key, then add the record. */
  function AddToEntries(es: seq<Entry>, t: Transaction): seq<Entry> {
    match FindEntry(es, ReceiverKey(t))
    case Some(i) => es[i := Bump(es[i], t)]
    case None => es + [Bump(Entry(ReceiverKey(t), 0, 0), t)]
  }

  /** The Map after the `forEach`, as its entries in insertion order. */
  function Entries(ts: seq<Transaction>): seq<Entry>
    decreases |ts|
  {
    if |ts| == 0 then [] else AddToEntries(Entries(ts[..|ts| - 1]), ts[|ts| - 1])
  }

  /** `getReceiverStats(transList)`. */
  function ReceiverStats(ts: seq<Transaction>): (r: seq<ReceiverRow>)
    ensures |r| == |Entries(ts)|
    ensures forall i :: 0 <= i < |r| ==> r[i].balance == r[i].income - r[i].expenses
    ensures ts == [] ==> r == []
  {
    var es := Entries(ts);
    seq(|es|, i requires 0 <= i < |es| =>
      ReceiverRow(es[i].key, es[i].income, es[i].expenses, es[i].income - es[i].expenses))
  }

  /* ---------------- Reference definitions ---------------- */

  function IncomeFor(key: string): Transaction -> bool {
    (t: Transaction) => ReceiverKey(t) == key && t.category == Income
  }

  function ExpenseFor(key: string): Transaction -> bool {
    (t: Transaction) => ReceiverKey(t) == key && t.category != Income
  }

  /** The Income amounts filed under `key`. */
  function KeyIncome(ts: seq<Transaction>, key: string): int {
    SumAmounts(Filter(ts, IncomeFor(key)))
  }

  /** The amounts of every other category filed under `key`. */
  function KeyExpenses(ts: seq<Transaction>, key: string): int {
    SumAmounts(Filter(ts, ExpenseFor(key)))
  }

  /* ---------------- The keys ---------------- */

  /** One step adds a key exactly when it is new. */
  lemma AddToEntriesKeys(es: seq<Entry>, t: Transaction)
    ensures EntryKeys(AddToEntries(es, t))
            == if ReceiverKey(t) in EntryKeys(es) then EntryKeys(es) else EntryKeys(es) + [ReceiverKey(t)]
  {
    match FindEntry(es, ReceiverKey(t))
    case Some(k) =>
      assert EntryKeys(es)[k] == ReceiverKey(t);
    case None =>
      assert ReceiverKey(t) !in EntryKeys(es);
  }

  lemma KeysPrefix(ts: seq<Transaction>)
    requires |ts| > 0
    ensures Keys(ts) == Keys(ts[..|ts| - 1]) + [ReceiverKey(ts[|ts| - 1])]
  {
  }

  /** The rows are keyed by the distinct receivers in the order they first appear. */
  lemma {:induction false} EntriesKeys(ts: seq<Transaction>)
    ensures EntryKeys(Entries(ts)) == FirstSeen(Keys(ts))
    decreases |ts|
  {
    if |ts| > 0 {
      var p, x := ts[..|ts| - 1], ts[|ts| - 1];
      EntriesKeys(p);
      AddToEntriesKeys(Entries(p), x);
      KeysPrefix(ts);
      var s := Keys(ts);
      assert s[..|s| - 1] == Keys(p);
    }
  }

  /* ---------------- The amounts ---------------- */

  /** Adding one record at the end moves its key's income or expenses by its amount. */
  lemma KeySnoc(p: seq<Transaction>, x: Transaction, key: string)
    ensures KeyIncome(p + [x], key)
            == KeyIncome(p, key) + (if ReceiverKey(x) == key && x.category == Income then AmountOf(x) else 0)
    ensures KeyExpenses(p + [x], key)
            == KeyExpenses(p, key) + (if ReceiverKey(x) == key && x.category != Income then AmountOf(x) else 0)
  {
    FilterConcat(p, [x], IncomeFor(key));
    FilterConcat(p, [x], ExpenseFor(key));
    SumAmountsConcat(Filter(p, IncomeFor(key)), Filter([x], IncomeFor(key)));
    SumAmountsConcat(Filter(p, ExpenseFor(key)), Filter([x], ExpenseFor(key)));
    assert [x][1..] == [];
  }

  /** A key without an entry has nothing filed under it. */
  lemma AbsentKey(ts: seq<Transaction>, key: string)
    requires key !in EntryKeys(Entries(ts))
    ensures KeyIncome(ts, key) == 0 && KeyExpenses(ts, key) == 0
  {
    EntriesKeys(ts);
    assert forall i :: 0 <= i < |ts| ==> Keys(ts)[i] != key;
    FilterNone(ts, IncomeFor(key));
    FilterNone(ts, ExpenseFor(key));
  }

  /** Each entry holds exactly the income and the expenses filed under its key. */
  predicate EntriesHoldAmounts(es: seq<Entry>, ts: seq<Transaction>) {
    forall i :: 0 <= i < |es| ==>
      es[i].income == KeyIncome(ts, es[i].key) && es[i].expenses == KeyExpenses(ts, es[i].key)
  }

  /** One step keeps every entry equal to the amounts filed under its key. */
  lemma AddToEntriesAmounts(p: seq<Transaction>, x: Transaction, i: nat)
    requires EntriesHoldAmounts(Entries(p), p)
    requires i < |AddToEntries(Entries(p), x)|
    ensures var e := AddToEntries(Entries(p), x)[i];
            e.income == KeyIncome(p + [x], e.key) && e.expenses == KeyExpenses(p + [x], e.key)
  {
    var es := Entries(p);
    var r := AddToEntries(es, x);
    var key := ReceiverKey(x);
    KeySnoc(p, x, r[i].key);
    match FindEntry(es, key)
    case Some(k) =>
      if i != k {
        EntriesKeys(p);
        assert EntryKeys(es)[i] != EntryKeys(es)[k];
        assert r[i] == es[i];
      } else {
        assert r[i] == Bump(es[k], x);
      }
    case None =>
      if i == |es| {
        AbsentKey(p, key);
        assert r[i] == Bump(Entry(key, 0, 0), x);
      } else {
        assert r[i] == es[i];
      }
  }

  lemma {:induction false} EntriesAmounts(ts: seq<Transaction>)
    ensures EntriesHoldAmounts(Entries(ts), ts)
    decreases |ts|
  {
    if |ts| > 0 {
      var p, x := ts[..|ts| - 1], ts[|ts| - 1];
      assert ts == p + [x];
      EntriesAmounts(p);
      forall i | 0 <= i < |Entries(ts)|
        ensures Entries(ts)[i].income == KeyIncome(ts, Entries(ts)[i].key)
                && Entries(ts)[i].expenses == KeyExpenses(ts, Entries(ts)[i].key)
      {
        AddToEntriesAmounts(p, x, i);
      }
    }
  }

  /* ---------------- Sums ---------------- */

  function EntryIncome(e: Entry): int { e.income }
  function EntryExpenses(e: Entry): int { e.expenses }

  function NotIncome(): Transaction -> bool {
    (t: Transaction) => t.category != Income
  }

  /** One step adds the record's amount to the income sum or to the expense sum. */
  lemma AddToEntriesSums(es: seq<Entry>, t: Transaction)
    ensures SumOf(AddToEntries(es, t), EntryIncome)
            == SumOf(es, EntryIncome) + (if t.category == Income then AmountOf(t) else 0)
    ensures SumOf(AddToEntries(es, t), EntryExpenses)
            == SumOf(es, EntryExpenses) + (if t.category != Income then AmountOf(t) else 0)
  {
    match FindEntry(es, ReceiverKey(t))
    case Some(k) =>
      SumOfUpdate(es, k, Bump(es[k], t), EntryIncome);
      SumOfUpdate(es, k, Bump(es[k], t), EntryExpenses);
    case None =>
      var e := Bump(Entry(ReceiverKey(t), 0, 0), t);
      SumOfConcat(es, [e], EntryIncome);
      SumOfConcat(es, [e], EntryExpenses);
  }

  /** Adding one record at the end moves the Income total or the other total by its amount. */
  lemma TotalsSnoc(p: seq<Transaction>, x: Transaction)
    ensures CategoryTotal(p + [x], Income) == CategoryTotal(p, Income) + (if x.category == Income then AmountOf(x) else 0)
    ensures SumAmounts(Filter(p + [x], NotIncome()))
            == SumAmounts(Filter(p, NotIncome())) + (if x.category != Income then AmountOf(x) else 0)
  {
    CategoryTotalConcat(p, [x], Income);
    FilterConcat(p, [x], NotIncome());
    SumAmountsConcat(Filter(p, NotIncome()), Filter([x], NotIncome()));
    assert [x][1..] == [];
  }

  /** Across all entries, income adds up to the Income total and expenses to the total of
      every other category. */
  lemma {:induction false} EntriesSums(ts: seq<Transaction>)
    ensures SumOf(Entries(ts), EntryIncome) == CategoryTotal(ts, Income)
    ensures SumOf(Entries(ts), EntryExpenses) == SumAmounts(Filter(ts, NotIncome()))
    decreases |ts|
  {
    if |ts| > 0 {
      var p, x := ts[..|ts| - 1], ts[|ts| - 1];
      assert ts == p + [x];
      EntriesSums(p);
      TotalsSnoc(p, x);
      AddToEntriesSums(Entries(p), x);
    }
  }

  /** No record carries a category other than Income or Expense. */
  predicate KnownCategories(ts: seq<Transaction>) {
    forall i :: 0 <= i < |ts| ==> ts[i].category == Income || ts[i].category == Expense
  }

  /** When every category is Income or Expense, "not Income" is "Expense". */
  lemma NotIncomeIsExpense(ts: seq<Transaction>)
    requires KnownCategories(ts)
    ensures SumAmounts(Filter(ts, NotIncome())) == CategoryTotal(ts, Expense)
  {
    FilterCongruent(ts, NotIncome(), (t: Transaction) => t.category == Expense);
    SumFilterIsCategoryTotal(ts, Expense);
  }

  function RowIncome(r: ReceiverRow): int { r.income }
  function RowExpenses(r: ReceiverRow): int { r.expenses }
  function RowBalance(r: ReceiverRow): int { r.balance }

  /** The rows list the entries: one per distinct key (an empty receiver as "Unassigned"), in
      first-appearance order, each with the income and the expenses filed under its key. */
  lemma ReceiverStatsRows(ts: seq<Transaction>)
    ensures var r := ReceiverStats(ts);
            && |r| == |FirstSeen(Keys(ts))|
            && (forall i :: 0 <= i < |r| ==>
                  r[i].receiver == FirstSeen(Keys(ts))[i]
                  && r[i].income == KeyIncome(ts, r[i].receiver)
                  && r[i].expenses == KeyExpenses(ts, r[i].receiver))
  {
    EntriesKeys(ts);
    EntriesAmounts(ts);
    var es := Entries(ts);
    assert forall i :: 0 <= i < |es| ==> EntryKeys(es)[i] == es[i].key;
  }

  lemma {:induction false} SumRowsOfEntries(es: seq<Entry>, r: seq<ReceiverRow>)
    requires |r| == |es|
    requires forall i :: 0 <= i < |es| ==>
               r[i] == ReceiverRow(es[i].key, es[i].income, es[i].expenses, es[i].income - es[i].expenses)
    ensures SumOf(r, RowIncome) == SumOf(es, EntryIncome)
    ensures SumOf(r, RowExpenses) == SumOf(es, EntryExpenses)
    ensures SumOf(r, RowBalance) == SumOf(es, EntryIncome) - SumOf(es, EntryExpenses)
    decreases |es|
  {
    if |es| > 0 {
      SumRowsOfEntries(es[1..], r[1..]);
    }
  }

  /** The rows add up to `calculateStats` on the same records whenever every category is
      Income or Expense: income to income, expenses to expenses, balances to the balance. */
  lemma ReceiverStatsMatchStats(ts: seq<Transaction>)
    requires KnownCategories(ts)
    ensures SumOf(ReceiverStats(ts), RowIncome) == CalculateStats(ts).income
    ensures SumOf(ReceiverStats(ts), RowExpenses) == CalculateStats(ts).expenses
    ensures SumOf(ReceiverStats(ts), RowBalance) == CalculateStats(ts).balance
  {
    EntriesSums(ts);
    NotIncomeIsExpense(ts);
    SumRowsOfEntries(Entries(ts), ReceiverStats(ts));
  }

  /** The amounts of the records whose category is neither Income nor Expense. */
  function OtherTotal(ts: seq<Transaction>): int
    decreases |ts|
  {
    if |ts| == 0 then 0
    else (if ts[0].category.Unknown? then AmountOf(ts[0]) else 0) + OtherTotal(ts[1..])
  }

  /** "Not Income" is Expense plus every other category. */
  lemma {:induction false} NotIncomeSplit(ts: seq<Transaction>)
    ensures SumAmounts(Filter(ts, NotIncome())) == CategoryTotal(ts, Expense) + OtherTotal(ts)
    decreases |ts|
  {
    if |ts| > 0 {
      NotIncomeSplit(ts[1..]);
      if NotIncome()(ts[0]) {
        assert Filter(ts, NotIncome()) == [ts[0]] + Filter(ts[1..], NotIncome());
      }
    }
  }

  /** For any list, the rows' income adds up to `calculateStats` income, and the rows' expenses
      to `calculateStats` expenses plus the amounts of records of any other category. */
  lemma ReceiverStatsTotals(ts: seq<Transaction>)
    ensures SumOf(ReceiverStats(ts), RowIncome) == CalculateStats(ts).income
    ensures SumOf(ReceiverStats(ts), RowExpenses) == CalculateStats(ts).expenses + OtherTotal(ts)
  {
    EntriesSums(ts);
    NotIncomeSplit(ts);
    SumRowsOfEntries(Entries(ts), ReceiverStats(ts));
  }

  /** A record whose category is neither Income nor Expense counts as an expense of its
      receiver but not in `calculateStats`. */
  lemma UnknownCategoryCountsAsExpense(t: Transaction)
    requires t.category.Unknown?
    ensures ReceiverStats([t]) == [ReceiverRow(ReceiverKey(t), 0, AmountOf(t), -AmountOf(t))]
    ensures CalculateStats([t]) == Stats(0, 0, 0)
  {
    assert [t][..0] == [];
    assert Entries([t]) == [Entry(ReceiverKey(t), 0, AmountOf(t))];
  }

  /** No row is filed under the empty receiver. */
  lemma NoEmptyReceiverRow(ts: seq<Transaction>)
    ensures forall i :: 0 <= i < |ReceiverStats(ts)| ==> ReceiverStats(ts)[i].receiver != ""
  {
    ReceiverStatsRows(ts);
    var keys := FirstSeen(Keys(ts));
    forall i | 0 <= i < |keys|
      ensures keys[i] != ""
    {
      assert keys[i] in Keys(ts);
    }
  }

  /** A record with no receiver and one addressed to "Unassigned" share one row. */
  lemma UnassignedMerges(a: Transaction, b: Transaction)
    requires a.receiver == "" && b.receiver == UnassignedKey
    ensures |ReceiverStats([a, b])| == 1
    ensures ReceiverStats([a, b])[0].receiver == UnassignedKey
  {
    assert [a, b][..1] == [a] && [a][..0] == [];
    var first := Entries([a]);
    assert Entries([a][..0]) == [];
    assert first == AddToEntries([], a);
    assert FindEntry([], ReceiverKey(a)) == None;
    assert first == [Bump(Entry(UnassignedKey, 0, 0), a)];
    assert FindEntry(first, ReceiverKey(b)) == Some(0);
    assert |Entries([a, b])| == 1;
  }
}
