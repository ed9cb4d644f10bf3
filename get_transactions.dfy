/**
 * `GetTransactionsQueryHandler.Handle`: projects the stored rows, in store
 * order, onto `TransactionResponse` records. Read-only.
 */
module GetTransactions {
  import opened Wrappers
  import opened Domain

  const UnknownCategory := "Unknown"

  datatype TransactionResponse = TransactionResponse(
    id: int,
    name: string,
    amount: Amount,
    date: Ticks,
    categoryId: int,
    categoryName: string)

  /** The category name shown for a row: the attached category's name, or "Unknown" when none is attached. */
  function CategoryNameOf(t: Transaction): string {
    match t.category
    case Some(c) => c.name
    case None => UnknownCategory
  }

  function Project(t: Transaction): TransactionResponse {
    TransactionResponse(t.id, t.description, t.amount, t.date, t.categoryId, CategoryNameOf(t))
  }

  /**
   * The query result: one entry per stored row, in store order; entry i carries
   * row i's key, amount, date and category id, its description as `name`, and the
   * attached category's name or "Unknown".
   */
  function Handle(rows: seq<Transaction>): (r: seq<TransactionResponse>)
    ensures |r| == |rows|
    ensures forall i :: 0 <= i < |rows| ==>
      r[i].id == rows[i].id && r[i].name == rows[i].description && r[i].amount == rows[i].amount
      && r[i].date == rows[i].date && r[i].categoryId == rows[i].categoryId
    ensures forall i :: 0 <= i < |rows| ==>
      r[i].categoryName == (if rows[i].category.Some? then rows[i].category.value.name else UnknownCategory)
    decreases |rows|
  {
    if rows == [] then [] else [Project(rows[0])] + Handle(rows[1..])
  }

  /** The projection is order-preserving: listing a concatenation lists each part in turn. */
  lemma {:induction false} HandleAppend(a: seq<Transaction>, b: seq<Transaction>)
    ensures Handle(a + b) == Handle(a) + Handle(b)
    decreases |a|
  {
    if a != [] {
      assert (a + b)[1..] == a[1..] + b;
      HandleAppend(a[1..], b);
    }
  }

  /**
   * A row written by the create handler carries no category, so listing the
   * store right after the create ends with that row under the name "Unknown".
   */
  lemma CreatedThenListedIsUnknown(rows: seq<Transaction>, name: string, amount: Amount, categoryId: int, now: Ticks, id: int)
    ensures Handle(rows + [Create(name, amount, categoryId, now).(id := id)])
      == Handle(rows) + [TransactionResponse(id, name, amount, now, categoryId, UnknownCategory)]
  {
    HandleAppend(rows, [Create(name, amount, categoryId, now).(id := id)]);
  }
}
