/**
 * The transaction half of the persistence collaborator (IApplicationDbContext):
 * the committed rows, the rows staged by `Add`, and the identity counter that
 * `SaveChanges` draws keys from.
 */
module Persistence {
  import opened Domain

  /** `rows` with keys `first`, `first + 1`, ... assigned in order; every other column is kept. */
  function WithKeys(rows: seq<Transaction>, first: int): (r: seq<Transaction>)
    ensures |r| == |rows|
    decreases |rows|
  {
    if rows == [] then [] else [rows[0].(id := first)] + WithKeys(rows[1..], first + 1)
  }

  /** Row k of the commit is staged row k under key first + k, every other column kept. */
  lemma {:induction false} WithKeysAt(rows: seq<Transaction>, first: int, k: nat)
    requires k < |rows|
    ensures WithKeys(rows, first)[k] == rows[k].(id := first + k)
    decreases |rows|
  {
    if k > 0 {
      WithKeysAt(rows[1..], first + 1, k - 1);
    }
  }

  /** Keys of committed rows are positive, strictly increasing in store order, and below the counter. */
  ghost predicate KeysIncreasing(rows: seq<Transaction>, nextId: int) {
    (forall i :: 0 <= i < |rows| ==> 0 < rows[i].id < nextId) &&
    (forall i, j :: 0 <= i < j < |rows| ==> rows[i].id < rows[j].id)
  }

  class TransactionStore {
    /** Committed rows, in store order. */
    var saved: seq<Transaction>
    /** Rows staged by `Add` and not yet committed. */
    var pending: seq<Transaction>
    /** The next value of the identity column. */
    var nextId: int

    ghost predicate Valid()
      reads this
    {
      nextId > 0 && KeysIncreasing(saved, nextId)
    }

    /** A fresh unit of work over the committed rows `rows`. */
    constructor (rows: seq<Transaction>, nextKey: int)
      requires nextKey > 0 && KeysIncreasing(rows, nextKey)
      ensures Valid()
      ensures saved == rows && pending == [] && nextId == nextKey
    {
      saved := rows;
      pending := [];
      nextId := nextKey;
    }

    /** `Add`: stages a row; nothing is committed yet. */
    method Add(t: Transaction)
      requires Valid()
      modifies this
      ensures Valid()
      ensures pending == old(pending) + [t]
      ensures saved == old(saved) && nextId == old(nextId)
    {
      pending := pending + [t];
    }

    /**
     * `SaveChanges`: commits the staged rows in the order they were added, giving
     * each the next identity value, and returns how many rows were written.
     */
    method SaveChanges() returns (count: nat)
      requires Valid()
      modifies this
      ensures Valid()
      ensures saved == old(saved) + WithKeys(old(pending), old(nextId))
      ensures pending == [] && nextId == old(nextId) + |old(pending)|
      ensures count == |old(pending)|
    {
      var rows, keyed, key := pending, saved, nextId;
      var first := nextId;
      var i := 0;
      while i < |rows|
        invariant 0 <= i <= |rows|
        invariant key == first + i
        invariant keyed == old(saved) + WithKeys(rows[..i], first)
      {
        CommitOneMore(old(saved), rows, i, first);
        keyed := keyed + [rows[i].(id := key)];
        key := key + 1;
        i := i + 1;
      }
      assert rows[..i] == rows;
      CommitKeepsKeysIncreasing(old(saved), rows, first);
      count := |rows|;
      saved, pending, nextId := keyed, [], key;
    }
  }

  /** One more staged row committed: the committed prefix grows by that row with the next key. */
  lemma CommitOneMore(base: seq<Transaction>, rows: seq<Transaction>, i: nat, first: int)
    requires i < |rows|
    ensures base + WithKeys(rows[..i + 1], first) == base + WithKeys(rows[..i], first) + [rows[i].(id := first + i)]
  {
    assert rows[..i + 1] == rows[..i] + [rows[i]];
    WithKeysAppend(rows[..i], rows[i], first);
  }

  lemma {:induction false} WithKeysAppend(rows: seq<Transaction>, t: Transaction, first: int)
    ensures WithKeys(rows + [t], first) == WithKeys(rows, first) + [t.(id := first + |rows|)]
    decreases |rows|
  {
    if rows != [] {
      assert (rows + [t])[1..] == rows[1..] + [t];
      WithKeysAppend(rows[1..], t, first + 1);
    }
  }

  /** Committing staged rows under consecutive keys from the counter keeps keys increasing. */
  lemma CommitKeepsKeysIncreasing(base: seq<Transaction>, rows: seq<Transaction>, first: int)
    requires first > 0 && KeysIncreasing(base, first)
    ensures KeysIncreasing(base + WithKeys(rows, first), first + |rows|)
  {
    var all := base + WithKeys(rows, first);
    forall i | |base| <= i < |all|
      ensures all[i].id == first + i - |base|
    {
      WithKeysAt(rows, first, i - |base|);
    }
  }
}
