/** `getCategoryBreakdown`: the records of one category grouped by subcategory in the order
    the subcategories first appear (`reduce` with `find`/`push`), then ordered by descending
    total with `Array.prototype.sort`, which is stable. */
module Breakdown {
  import opened Wrappers
  import opened Seqs
  import opened Ledger
  import opened Stats

  /** One line of the breakdown: a subcategory, the sum of its amounts and its record count. */
  datatype Row = Row(sub: string, total: int, count: int)

  /** The subcategory of every record, in list order. */
  function Subcategories(ts: seq<Transaction>): (r: seq<string>)
    ensures |r| == |ts| && forall i :: 0 <= i < |ts| ==> r[i] == ts[i].subcategory
  {
    seq(|ts|, i requires 0 <= i < |ts| => ts[i].subcategory)
  }

  /** The subcategory of every row, in row order. */
  function RowSubs(rows: seq<Row>): (r: seq<string>)
    ensures |r| == |rows| && forall i :: 0 <= i < |rows| ==> r[i] == rows[i].sub
  {
    seq(|rows|, i requires 0 <= i < |rows| => rows[i].sub)
  }

  function SubIs(sub: string): Transaction -> bool {
    (t: Transaction) => t.subcategory == sub
  }

  /** Reference count: how many records have subcategory `sub`. */
  function SubCount(ts: seq<Transaction>, sub: string): int {
    |Filter(ts, SubIs(sub))|
  }

  /** Reference total: the coerced amounts of the records with subcategory `sub`, summed. */
  function SubTotal(ts: seq<Transaction>, sub: string): int {
    SumAmounts(Filter(ts, SubIs(sub)))
  }

  /* ---------------- Grouping ---------------- */

  /** `acc.find(x => x.sub === sub)`: the position of the first row for `sub`. */
  function FindRow(rows: seq<Row>, sub: string): (r: Option<nat>)
    ensures r.Some? ==> r.value < |rows| && rows[r.value].sub == sub
    ensures r.Some? ==> forall i :: 0 <= i < r.value ==> rows[i].sub != sub
    ensures r.None? <==> forall i :: 0 <= i < |rows| ==> rows[i].sub != sub
    decreases |rows|
  {
    if |rows| == 0 then None
    else if rows[0].sub == sub then Some(0)
    else
      match FindRow(rows[1..], sub)
      case None => None
      case Some(i) => Some(i + 1)
  }

  /** One step of the `reduce`: add the record to its subcategory's row, or push a new row. */
  function AddToRows(rows: seq<Row>, t: Transaction): seq<Row> {
    match FindRow(rows, t.subcategory)
    case Some(i) => rows[i := Row(rows[i].sub, rows[i].total + AmountOf(t), rows[i].count + 1)]
    case None => rows + [Row(t.subcategory, AmountOf(t), 1)]
  }

  /** The `reduce` over the (already category-filtered) records, left to right. */
  function GroupRows(ts: seq<Transaction>): seq<Row>
    decreases |ts|
  {
    if |ts| == 0 then [] else AddToRows(GroupRows(ts[..|ts| - 1]), ts[|ts| - 1])
  }

  /** Adding one record at the end of a list: its subcategory's count and total move by that
      record, every other subcategory's stay. */
  lemma SubSnoc(p: seq<Transaction>, x: Transaction, sub: string)
    ensures SubCount(p + [x], sub) == SubCount(p, sub) + (if x.subcategory == sub then 1 else 0)
    ensures SubTotal(p + [x], sub) == SubTotal(p, sub) + (if x.subcategory == sub then AmountOf(x) else 0)
  {
    FilterConcat(p, [x], SubIs(sub));
    SumAmountsConcat(Filter(p, SubIs(sub)), Filter([x], SubIs(sub)));
    assert [x][1..] == [];
  }

  /** One step of the `reduce` adds a row name exactly when the subcategory is new. */
  lemma AddToRowsSubs(rows: seq<Row>, t: Transaction)
    ensures RowSubs(AddToRows(rows, t))
            == if t.subcategory in RowSubs(rows) then RowSubs(rows) else RowSubs(rows) + [t.subcategory]
  {
    match FindRow(rows, t.subcategory)
    case Some(k) =>
      assert RowSubs(rows)[k] == t.subcategory;
    case None =>
      assert t.subcategory !in RowSubs(rows);
  }

  lemma SubcategoriesPrefix(ts: seq<Transaction>)
    requires |ts| > 0
    ensures Subcategories(ts) == Subcategories(ts[..|ts| - 1]) + [ts[|ts| - 1].subcategory]
  {
  }

  /** The rows name the subcategories in the order they first appear. */
  lemma {:induction false} GroupRowsSubs(ts: seq<Transaction>)
    ensures RowSubs(GroupRows(ts)) == FirstSeen(Subcategories(ts))
    decreases |ts|
  {
    if |ts| > 0 {
      var p, x := ts[..|ts| - 1], ts[|ts| - 1];
      GroupRowsSubs(p);
      AddToRowsSubs(GroupRows(p), x);
      SubcategoriesPrefix(ts);
      var s := Subcategories(ts);
      assert s[..|s| - 1] == Subcategories(p);
    }
  }

  /** A subcategory without a row has no records. */
  lemma AbsentSubcategory(ts: seq<Transaction>, sub: string)
    requires sub !in RowSubs(GroupRows(ts))
    ensures SubCount(ts, sub) == 0 && SubTotal(ts, sub) == 0
  {
    GroupRowsSubs(ts);
    assert forall i :: 0 <= i < |ts| ==> Subcategories(ts)[i] != sub;
    FilterNone(ts, SubIs(sub));
  }

  /** Each row's count and total are those of its subcategory's records. */
  lemma {:induction false} GroupRowsCounts(ts: seq<Transaction>)
    ensures forall i :: 0 <= i < |GroupRows(ts)| ==>
              GroupRows(ts)[i].count == SubCount(ts, GroupRows(ts)[i].sub)
              && GroupRows(ts)[i].total == SubTotal(ts, GroupRows(ts)[i].sub)
    decreases |ts|
  {
    if |ts| > 0 {
      var p, x := ts[..|ts| - 1], ts[|ts| - 1];
      assert ts == p + [x];
      GroupRowsCounts(p);
      GroupRowsSubs(p);
      var rows := GroupRows(p);
      var r := GroupRows(ts);
      assert Distinct(RowSubs(rows));
      forall i | 0 <= i < |r|
        ensures r[i].count == SubCount(ts, r[i].sub) && r[i].total == SubTotal(ts, r[i].sub)
      {
        SubSnoc(p, x, r[i].sub);
        match FindRow(rows, x.subcategory)
        case Some(k) =>
          if i != k {
            assert RowSubs(rows)[i] != RowSubs(rows)[k];
          }
        case None =>
          if i == |rows| {
            AbsentSubcategory(p, x.subcategory);
          }
      }
    }
  }

  /** Grouping is correct: the rows name the subcategories in first-appearance order, and each
      row's count and total are those of its subcategory's records. */
  lemma GroupRowsContents(ts: seq<Transaction>)
    ensures RowSubs(GroupRows(ts)) == FirstSeen(Subcategories(ts))
    ensures forall i :: 0 <= i < |GroupRows(ts)| ==>
              GroupRows(ts)[i].count == SubCount(ts, GroupRows(ts)[i].sub)
              && GroupRows(ts)[i].total == SubTotal(ts, GroupRows(ts)[i].sub)
  {
    GroupRowsSubs(ts);
    GroupRowsCounts(ts);
  }

  /* ---------------- Sums over rows ---------------- */

  function RowTotal(r: Row): int { r.total }
  function RowCount(r: Row): int { r.count }

  /** One step of the `reduce` adds one to the count sum and the record's amount to the total
      sum. */
  lemma AddToRowsSums(rows: seq<Row>, t: Transaction)
    ensures SumOf(AddToRows(rows, t), RowCount) == SumOf(rows, RowCount) + 1
    ensures SumOf(AddToRows(rows, t), RowTotal) == SumOf(rows, RowTotal) + AmountOf(t)
  {
    match FindRow(rows, t.subcategory)
    case Some(k) =>
      var r := Row(rows[k].sub, rows[k].total + AmountOf(t), rows[k].count + 1);
      SumOfUpdate(rows, k, r, RowCount);
      SumOfUpdate(rows, k, r, RowTotal);
    case None =>
      var r := Row(t.subcategory, AmountOf(t), 1);
      SumOfConcat(rows, [r], RowCount);
      SumOfConcat(rows, [r], RowTotal);
  }

  /** The rows' counts add up to the number of records and their totals to the records' sum. */
  lemma {:induction false} GroupRowsSums(ts: seq<Transaction>)
    ensures SumOf(GroupRows(ts), RowCount) == |ts|
    ensures SumOf(GroupRows(ts), RowTotal) == SumAmounts(ts)
    decreases |ts|
  {
    if |ts| > 0 {
      var p, x := ts[..|ts| - 1], ts[|ts| - 1];
      assert ts == p + [x];
      GroupRowsSums(p);
      SumAmountsConcat(p, [x]);
      AddToRowsSums(GroupRows(p), x);
    }
  }

  /* ---------------- Stable sort by descending total ---------------- */

  predicate SortedByTotal(rows: seq<Row>) {
    forall i, j :: 0 <= i < j < |rows| ==> rows[i].total >= rows[j].total
  }

  predicate DistinctSubs(rows: seq<Row>) {
    forall i, j :: 0 <= i < j < |rows| ==> rows[i].sub != rows[j].sub
  }

  function TotalIs(k: int): Row -> bool {
    (r: Row) => r.total == k
  }

  /** Where a stable sort puts a row that comes after all of `s`: behind every row whose
      total is at least its own (`b.total - a.total` is not negative for those). */
  function InsertPos(s: seq<Row>, x: Row): (k: nat)
    ensures k <= |s|
    ensures forall i :: 0 <= i < k ==> s[i].total >= x.total
    ensures k < |s| ==> s[k].total < x.total
    decreases |s|
  {
    if |s| == 0 || s[0].total < x.total then 0 else 1 + InsertPos(s[1..], x)
  }

  function InsertByTotal(s: seq<Row>, x: Row): (r: seq<Row>)
    ensures multiset(r) == multiset(s) + multiset{x}
  {
    var k := InsertPos(s, x);
    assert s == s[..k] + s[k..];
    s[..k] + [x] + s[k..]
  }

  /** Inserting into a sorted list keeps it sorted. */
  lemma InsertSorted(s: seq<Row>, x: Row)
    requires SortedByTotal(s)
    ensures SortedByTotal(InsertByTotal(s, x))
  {
    var k := InsertPos(s, x);
    var r := InsertByTotal(s, x);
    assert |r| == |s| + 1;
    assert forall i :: 0 <= i < k ==> r[i] == s[i];
    assert r[k] == x;
    assert forall i :: k < i < |r| ==> r[i] == s[i - 1];
    forall i, j | 0 <= i < j < |r|
      ensures r[i].total >= r[j].total
    {
      if j < k {
      } else if j == k {
      } else if i == k {
        assert s[k].total < x.total;
        assert s[j - 1].total <= s[k].total;
      } else if i < k {
        assert s[i].total >= x.total;
        assert s[k].total < x.total;
        assert s[j - 1].total <= s[k].total;
      } else {
        assert s[i - 1].total >= s[j - 1].total;
      }
    }
  }

  /** `rows.sort((a, b) => b.total - a.total)`: an insertion sort that keeps equal totals in
      their original order. */
  function SortByTotal(rows: seq<Row>): (r: seq<Row>)
    ensures multiset(r) == multiset(rows)
    ensures SortedByTotal(r)
    decreases |rows|
  {
    if |rows| == 0 then []
    else
      var s := SortByTotal(rows[..|rows| - 1]);
      assert rows == rows[..|rows| - 1] + [rows[|rows| - 1]];
      InsertSorted(s, rows[|rows| - 1]);
      InsertByTotal(s, rows[|rows| - 1])
  }

  /** Filtering an insertion by one total: the row is added at the end of its total's group,
      because every row behind the insertion point has a smaller total. */
  lemma InsertStable(s: seq<Row>, x: Row, k: int)
    requires SortedByTotal(s)
    ensures Filter(InsertByTotal(s, x), TotalIs(k)) == Filter(s, TotalIs(k)) + Filter([x], TotalIs(k))
  {
    var pos := InsertPos(s, x);
    InsertFilterParts(s, x, TotalIs(k));
    InsertPosTail(s, x);
    InsertStableCase(s[..pos], x, s[pos..], TotalIs(k), x.total == k);
  }

  /** Filtering an insertion, and the list it was inserted into, part by part. */
  lemma InsertFilterParts(s: seq<Row>, x: Row, p: Row -> bool)
    ensures var pos := InsertPos(s, x);
            && Filter(InsertByTotal(s, x), p) == Filter(s[..pos], p) + Filter([x], p) + Filter(s[pos..], p)
            && Filter(s, p) == Filter(s[..pos], p) + Filter(s[pos..], p)
  {
    var pos := InsertPos(s, x);
    assert s == s[..pos] + s[pos..];
    FilterAround(s[..pos], x, s[pos..], p);
  }

  lemma InsertStableCase(lo: seq<Row>, x: Row, hi: seq<Row>, p: Row -> bool, same: bool)
    requires same == p(x)
    requires same ==> forall i :: 0 <= i < |hi| ==> !p(hi[i])
    ensures Filter(lo, p) + Filter([x], p) + Filter(hi, p) == Filter(lo, p) + Filter(hi, p) + Filter([x], p)
  {
    if same {
      FilterNone(hi, p);
    } else {
      assert Filter([x], p) == [];
    }
  }

  /** Every row behind the insertion point of a sorted list has a smaller total. */
  lemma InsertPosTail(s: seq<Row>, x: Row)
    requires SortedByTotal(s)
    ensures forall i :: InsertPos(s, x) <= i < |s| ==> s[i].total < x.total
  {
  }

  /** The sort is stable: the rows with any one total come out in the order they went in. */
  lemma {:induction false} SortStable(rows: seq<Row>, k: int)
    ensures Filter(SortByTotal(rows), TotalIs(k)) == Filter(rows, TotalIs(k))
    decreases |rows|
  {
    if |rows| > 0 {
      var p, x := rows[..|rows| - 1], rows[|rows| - 1];
      assert rows == p + [x];
      SortStable(p, k);
      InsertStable(SortByTotal(p), x, k);
      FilterConcat(p, [x], TotalIs(k));
    }
  }

  lemma InsertSums(s: seq<Row>, x: Row, f: Row -> int)
    ensures SumOf(InsertByTotal(s, x), f) == SumOf(s, f) + f(x)
  {
    var pos := InsertPos(s, x);
    assert s == s[..pos] + s[pos..];
    SumOfConcat(s[..pos] + [x], s[pos..], f);
    SumOfConcat(s[..pos], [x], f);
    SumOfConcat(s[..pos], s[pos..], f);
  }

  /** Sorting keeps the sum of any row measure. */
  lemma {:induction false} SortKeepsSums(rows: seq<Row>, f: Row -> int)
    ensures SumOf(SortByTotal(rows), f) == SumOf(rows, f)
    decreases |rows|
  {
    if |rows| > 0 {
      var p, x := rows[..|rows| - 1], rows[|rows| - 1];
      assert rows == p + [x];
      SortKeepsSums(p, f);
      InsertSums(SortByTotal(p), x, f);
      SumOfConcat(p, [x], f);
    }
  }

  lemma InsertDistinct(s: seq<Row>, x: Row)
    requires DistinctSubs(s)
    requires forall i :: 0 <= i < |s| ==> s[i].sub != x.sub
    ensures DistinctSubs(InsertByTotal(s, x))
  {
    var pos := InsertPos(s, x);
    var r := InsertByTotal(s, x);
    assert forall i :: 0 <= i < pos ==> r[i] == s[i];
    assert r[pos] == x;
    assert forall i :: pos < i < |r| ==> r[i] == s[i - 1];
  }

  /** Every sorted row is an input row. */
  lemma SortMembers(rows: seq<Row>)
    ensures forall i :: 0 <= i < |SortByTotal(rows)| ==> SortByTotal(rows)[i] in rows
  {
    var r := SortByTotal(rows);
    forall i | 0 <= i < |r|
      ensures r[i] in rows
    {
      assert r[i] in multiset(rows);
    }
  }

  /** Sorting keeps subcategories distinct. */
  lemma {:induction false} SortKeepsDistinct(rows: seq<Row>)
    requires DistinctSubs(rows)
    ensures DistinctSubs(SortByTotal(rows))
    decreases |rows|
  {
    if |rows| > 0 {
      var p, x := rows[..|rows| - 1], rows[|rows| - 1];
      assert DistinctSubs(p);
      SortKeepsDistinct(p);
      var s := SortByTotal(p);
      SortMembers(p);
      forall i | 0 <= i < |s|
        ensures s[i].sub != x.sub
      {
        var j :| 0 <= j < |p| && p[j] == s[i];
      }
      InsertDistinct(s, x);
    }
  }

  /* ---------------- The breakdown ---------------- */

  function CategoryIs(c: Category): Transaction -> bool {
    (t: Transaction) => t.category == c
  }

  /** The records of category `c`, in list order. */
  function OfCategory(ts: seq<Transaction>, c: Category): seq<Transaction> {
    Filter(ts, CategoryIs(c))
  }

  /** `getCategoryBreakdown(transList, category)`. */
  function CategoryBreakdown(ts: seq<Transaction>, c: Category): (r: seq<Row>)
    ensures SortedByTotal(r)
    ensures multiset(r) == multiset(GroupRows(OfCategory(ts, c)))
  {
    SortByTotal(GroupRows(OfCategory(ts, c)))
  }

  /** The breakdown's counts add up to the number of `c` records and its totals to the
      category total that `calculateStats` reports. */
  lemma BreakdownSums(ts: seq<Transaction>, c: Category)
    ensures SumOf(CategoryBreakdown(ts, c), RowCount) == |OfCategory(ts, c)|
    ensures SumOf(CategoryBreakdown(ts, c), RowTotal) == CategoryTotal(ts, c)
  {
    var cs := OfCategory(ts, c);
    GroupRowsSums(cs);
    SortKeepsSums(GroupRows(cs), RowCount);
    SortKeepsSums(GroupRows(cs), RowTotal);
    FilterCongruent(ts, CategoryIs(c), (t: Transaction) => t.category == c);
    SumFilterIsCategoryTotal(ts, c);
  }

  /** A subcategory some record uses has at least one record. */
  lemma SubCountPositive(ts: seq<Transaction>, sub: string)
    requires sub in Subcategories(ts)
    ensures SubCount(ts, sub) >= 1
  {
    var k :| 0 <= k < |ts| && Subcategories(ts)[k] == sub;
    assert ts[k] in Filter(ts, SubIs(sub));
  }

  /** The grouped rows name exactly the subcategories of the records, once each. */
  lemma GroupRowsNames(ts: seq<Transaction>)
    ensures DistinctSubs(GroupRows(ts))
    ensures forall sub :: sub in RowSubs(GroupRows(ts)) <==> sub in Subcategories(ts)
  {
    GroupRowsSubs(ts);
    var g := GroupRows(ts);
    assert Distinct(RowSubs(g));
    forall i, j | 0 <= i < j < |g|
      ensures g[i].sub != g[j].sub
    {
      assert RowSubs(g)[i] != RowSubs(g)[j];
    }
  }

  /** Every grouped row counts at least one record. */
  lemma GroupRowsCountPositive(ts: seq<Transaction>)
    ensures forall i :: 0 <= i < |GroupRows(ts)| ==> GroupRows(ts)[i].count >= 1
  {
    var g := GroupRows(ts);
    GroupRowsNames(ts);
    GroupRowsCounts(ts);
    forall i | 0 <= i < |g|
      ensures g[i].count >= 1
    {
      assert RowSubs(g)[i] == g[i].sub;
      SubCountPositive(ts, g[i].sub);
    }
  }

  /** Sorting keeps the set of subcategory names. */
  lemma SortKeepsNames(rows: seq<Row>)
    ensures forall sub :: sub in RowSubs(SortByTotal(rows)) <==> sub in RowSubs(rows)
  {
    forall sub
      ensures sub in RowSubs(SortByTotal(rows)) <==> sub in RowSubs(rows)
    {
      SameRowsSameNames(SortByTotal(rows), rows, sub);
      SameRowsSameNames(rows, SortByTotal(rows), sub);
    }
  }

  /** A name carried by a row of `a` is carried by `b` when `b` holds every row of `a`. */
  lemma SameRowsSameNames(a: seq<Row>, b: seq<Row>, sub: string)
    requires multiset(a) == multiset(b)
    ensures sub in RowSubs(a) ==> sub in RowSubs(b)
  {
    if sub in RowSubs(a) {
      var i :| 0 <= i < |a| && RowSubs(a)[i] == sub;
      assert a[i] in multiset(b);
      var j :| 0 <= j < |b| && b[j] == a[i];
      assert RowSubs(b)[j] == sub;
    }
  }

  /** The breakdown has one row for each subcategory used by a record of `c`, and no other. */
  lemma BreakdownSubcategories(ts: seq<Transaction>, c: Category)
    ensures DistinctSubs(CategoryBreakdown(ts, c))
    ensures forall sub :: sub in RowSubs(CategoryBreakdown(ts, c)) <==> sub in Subcategories(OfCategory(ts, c))
  {
    var g := GroupRows(OfCategory(ts, c));
    GroupRowsNames(OfCategory(ts, c));
    SortKeepsDistinct(g);
    SortKeepsNames(g);
  }

  /** Each breakdown row counts at least one record and carries exactly the count and the
      amount total of its subcategory's `c` records. */
  lemma BreakdownRows(ts: seq<Transaction>, c: Category)
    ensures var r := CategoryBreakdown(ts, c);
            forall i :: 0 <= i < |r| ==>
              1 <= r[i].count == SubCount(OfCategory(ts, c), r[i].sub)
              && r[i].total == SubTotal(OfCategory(ts, c), r[i].sub)
  {
    var cs := OfCategory(ts, c);
    var g := GroupRows(cs);
    var r := CategoryBreakdown(ts, c);
    GroupRowsCounts(cs);
    GroupRowsCountPositive(cs);
    SortMembers(g);
    forall i | 0 <= i < |r|
      ensures 1 <= r[i].count == SubCount(cs, r[i].sub) && r[i].total == SubTotal(cs, r[i].sub)
    {
      var j :| 0 <= j < |g| && g[j] == r[i];
    }
  }

  /** Rows with equal totals keep the order in which their subcategories first appear. */
  lemma CategoryBreakdownTies(ts: seq<Transaction>, c: Category, k: int)
    ensures Filter(CategoryBreakdown(ts, c), TotalIs(k)) == Filter(GroupRows(OfCategory(ts, c)), TotalIs(k))
    ensures RowSubs(GroupRows(OfCategory(ts, c))) == FirstSeen(Subcategories(OfCategory(ts, c)))
  {
    SortStable(GroupRows(OfCategory(ts, c)), k);
    GroupRowsContents(OfCategory(ts, c));
  }

  /** The bar widths `item.total / stats.income * 100` (guarded by a positive total) of all
      rows add up to the share of the rows' summed total. */
  function SumShares(rows: seq<Row>, whole: int): (r: real)
    ensures r == Share(SumOf(rows, RowTotal), whole)
    decreases |rows|
  {
    if |rows| == 0 then 0.0
    else
      ShareAdditive(rows[0].total, SumOf(rows[1..], RowTotal), whole);
      Share(rows[0].total, whole) + SumShares(rows[1..], whole)
  }

  /** The income breakdown's percentages add up to 100 whenever there is income. */
  lemma IncomeSharesSumTo100(ts: seq<Transaction>)
    requires CalculateStats(ts).income > 0
    ensures SumShares(CategoryBreakdown(ts, Income), CalculateStats(ts).income) == 100.0
  {
    BreakdownSums(ts, Income);
  }

  /** The expense breakdown's percentages add up to 100 whenever there are expenses. */
  lemma ExpenseSharesSumTo100(ts: seq<Transaction>)
    requires CalculateStats(ts).expenses > 0
    ensures SumShares(CategoryBreakdown(ts, Expense), CalculateStats(ts).expenses) == 100.0
  {
    BreakdownSums(ts, Expense);
  }
}
