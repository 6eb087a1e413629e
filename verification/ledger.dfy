/** The transaction record and the two list updates the application makes after the server
    confirms a change: a created record is put in front, a deleted id is filtered out. */
module Ledger {
  import opened Seqs

  /** The TypeScript type admits only Income and Expense, but records arrive as JSON from a
      text column, so any other label is kept as `Unknown`. */
  datatype Category = Income | Expense | Unknown(name: string)

  /** An amount as `Number(t.amount)` reads it: a number (in paise) or NaN. */
  datatype Amount = Num(value: int) | NotANumber

  datatype Transaction = Transaction(
    id: int,
    date: string,
    category: Category,
    subcategory: string,
    sender: string,
    receiver: string,
    remarks: string,
    amount: Amount)

  /** `Number(t.amount) || 0`: NaN (and zero) become 0. */
  function AmountOf(t: Transaction): int {
    match t.amount
    case Num(v) => v
    case NotANumber => 0
  }

  /** Sum of the coerced amounts, the `reduce((sum, t) => sum + (Number(t.amount) || 0), 0)`. */
  function SumAmounts(ts: seq<Transaction>): int
    decreases |ts|
  {
    if |ts| == 0 then 0 else AmountOf(ts[0]) + SumAmounts(ts[1..])
  }

  lemma {:induction false} SumAmountsConcat(a: seq<Transaction>, b: seq<Transaction>)
    ensures SumAmounts(a + b) == SumAmounts(a) + SumAmounts(b)
    decreases |a|
  {
    if |a| == 0 {
      assert a + b == b;
    } else {
      assert (a + b)[1..] == a[1..] + b;
      SumAmountsConcat(a[1..], b);
    }
  }

  /** Every amount that is a number is at least zero. */
  predicate NonNegativeAmounts(ts: seq<Transaction>) {
    forall i :: 0 <= i < |ts| && ts[i].amount.Num? ==> ts[i].amount.value >= 0
  }

  /** `setTransactions(prev => [created, ...prev])`. */
  function AddTransaction(list: seq<Transaction>, created: Transaction): (r: seq<Transaction>)
    ensures |r| == |list| + 1 && r[0] == created && r[1..] == list
  {
    [created] + list
  }

  /** `setTransactions(prev => prev.filter(t => t.id !== id))`. */
  function DeleteTransaction(list: seq<Transaction>, id: int): (r: seq<Transaction>)
    ensures IsSubsequence(r, list)
    ensures forall t :: t in r <==> t in list && t.id != id
    ensures forall t :: multiset(r)[t] == if t.id != id then multiset(list)[t] else 0
  {
    FilterMultiplicity(list, (t: Transaction) => t.id != id);
    Filter(list, (t: Transaction) => t.id != id)
  }

  /** Deleting an id nobody has leaves the list as it is. */
  lemma DeleteAbsent(list: seq<Transaction>, id: int)
    requires forall i :: 0 <= i < |list| ==> list[i].id != id
    ensures DeleteTransaction(list, id) == list
  {
    FilterAll(list, (t: Transaction) => t.id != id);
  }

  /** Deleting a freshly added record, whose id was new, restores the list. */
  lemma DeleteAfterAdd(list: seq<Transaction>, created: Transaction)
    requires forall i :: 0 <= i < |list| ==> list[i].id != created.id
    ensures DeleteTransaction(AddTransaction(list, created), created.id) == list
  {
    var r := AddTransaction(list, created);
    assert r[1..] == list;
    DeleteAbsent(list, created.id);
  }
}
