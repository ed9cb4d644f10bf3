/**
 * The domain entities `Category` and `Transaction` (src/Domain/Entities) and the
 * `Transaction.Create` factory. Clock reads are the parameter `now`.
 */
module Domain {
  import opened Wrappers

  /** A .NET `DateTime` as its tick count (100 ns units, UTC). */
  type Ticks = int

  /** A .NET `decimal`: exact base-10 arithmetic, modelled by the reals. */
  type Amount = real

  datatype Category = Category(id: int, name: string)

  /**
   * A transaction row. `category` is the `Category` navigation property: present
   * only when the row was read together with its category.
   */
  datatype Transaction = Transaction(
    id: int,
    description: string,
    amount: Amount,
    date: Ticks,
    categoryId: int,
    category: Option<Category>)

  /** A row not yet saved: the key is still the default 0 and no category is attached. */
  predicate IsUnsaved(t: Transaction) {
    t.id == 0 && t.category.None?
  }

  /** `new Transaction()`: every property at its declared default, the clock read being `now`. */
  function NewTransaction(now: Ticks): (t: Transaction)
    ensures IsUnsaved(t) && t.date == now
    ensures t.description == "" && t.amount == 0.0 && t.categoryId == 0
  {
    Transaction(0, "", 0.0, now, 0, None)
  }

  /**
   * `Transaction.Create`: copies the three inputs into a fresh row and stamps it
   * with the current time. No business rule is checked: every input is accepted.
   */
  function Create(description: string, amount: Amount, categoryId: int, now: Ticks): (t: Transaction)
    ensures IsUnsaved(t) && t.date == now
    ensures t.description == description && t.amount == amount && t.categoryId == categoryId
  {
    NewTransaction(now).(description := description, amount := amount, categoryId := categoryId, date := now)
  }
}
