/**
 * `CreateTransactionCommand` and its handler: build the row with
 * `Transaction.Create`, stage it, commit, and return the key the store assigned.
 */
module CreateTransaction {
  import opened Domain
  import opened Persistence

  datatype CreateTransactionCommand = CreateTransactionCommand(name: string, amount: Amount, categoryId: int)

  /** The row the handler stages for `request` at time `now`: the command's `name` becomes the `description`. */
  function RowFor(request: CreateTransactionCommand, now: Ticks): (t: Transaction)
    ensures IsUnsaved(t) && t.date == now
    ensures t.description == request.name && t.amount == request.amount && t.categoryId == request.categoryId
  {
    Create(request.name, request.amount, request.categoryId, now)
  }

  /**
   * `CreateTransactionCommandHandler.Handle`. The handler checks nothing itself: any
   * command, valid or not, is staged and saved (database constraints such as the
   * category foreign key are not part of this model). The unit of work starts
   * with nothing staged.
   */
  method Handle(store: TransactionStore, request: CreateTransactionCommand, now: Ticks) returns (id: int)
    requires store.Valid() && store.pending == []
    modifies store
    ensures store.Valid() && store.pending == []
    ensures store.saved == old(store.saved) + [RowFor(request, now).(id := id)]
    ensures id == old(store.nextId) && store.nextId == id + 1
    ensures id > 0 && forall i :: 0 <= i < |old(store.saved)| ==> old(store.saved)[i].id < id
  {
    var transaction := Create(request.name, request.amount, request.categoryId, now);
    store.Add(transaction);
    var _ := store.SaveChanges();
    id := store.saved[|store.saved| - 1].id;
  }
}
