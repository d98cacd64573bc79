/**
 * TransactionService over its table: a keyed store of transactions whose
 * reference column is unique and not null. Rows are kept in ascending id
 * order, ids being issued by the store from a counter.
 */
module TransactionRegistry {
  import opened Common
  import opened Entities
  import opened LedgerEntries

  /** Why the store refuses a write: the reference column's constraints, or an id it does not hold. */
  datatype StoreError = MissingReference | DuplicateReference | UnknownTransaction

  /**
   * The table's integrity: every row has a reference, no two rows share one,
   * ids ascend strictly and are all below the next id to be issued.
   */
  ghost predicate WellFormed(rows: seq<Transaction>, nextId: nat) {
    && (forall i :: 0 <= i < |rows| ==> rows[i].transactionRef.Some?)
    && (forall i, j :: 0 <= i < j < |rows| ==> rows[i].transactionRef != rows[j].transactionRef)
    && (forall i, j :: 0 <= i < j < |rows| ==> rows[i].id < rows[j].id)
    && (forall i :: 0 <= i < |rows| ==> rows[i].id < nextId)
  }

  /** True when some stored row already holds `ref`. */
  ghost predicate RefTaken(rows: seq<Transaction>, ref: string) {
    exists i :: 0 <= i < |rows| && rows[i].transactionRef == Some(ref)
  }

  /** The rows with `accountId` on either side, in their stored order. */
  function Involving(rows: seq<Transaction>, accountId: nat): (r: seq<Transaction>)
    ensures forall i :: 0 <= i < |r| ==> r[i] in rows && Touches(r[i], accountId)
    ensures forall i :: 0 <= i < |rows| && Touches(rows[i], accountId) ==> rows[i] in r
  {
    Filter(rows, (t: Transaction) => Touches(t, accountId))
  }

  /** The position of the row with reference `ref`, if any. */
  function RefIndex(rows: seq<Transaction>, ref: string): (r: Option<nat>)
    ensures r.Some? ==> r.value < |rows| && rows[r.value].transactionRef == Some(ref)
    ensures r.None? ==> forall i :: 0 <= i < |rows| ==> rows[i].transactionRef != Some(ref)
    decreases |rows|
  {
    if |rows| == 0 then None
    else if rows[|rows| - 1].transactionRef == Some(ref) then Some(|rows| - 1)
    else RefIndex(rows[..|rows| - 1], ref)
  }

  /** The position of the row with id `id`, if any. */
  function IdIndex(rows: seq<Transaction>, id: nat): (r: Option<nat>)
    ensures r.Some? ==> r.value < |rows| && rows[r.value].id == id
    ensures r.None? ==> forall i :: 0 <= i < |rows| ==> rows[i].id != id
    decreases |rows|
  {
    if |rows| == 0 then None
    else if rows[|rows| - 1].id == id then Some(|rows| - 1)
    else IdIndex(rows[..|rows| - 1], id)
  }

  lemma RemoveAtWellFormed(rows: seq<Transaction>, nextId: nat, i: nat)
    requires WellFormed(rows, nextId) && i < |rows|
    ensures WellFormed(rows[..i] + rows[i + 1..], nextId)
  {
    var rest := rows[..i] + rows[i + 1..];
    assert forall k :: 0 <= k < |rest| ==> rest[k] == rows[if k < i then k else k + 1];
    forall j, k | 0 <= j < k < |rest|
      ensures rest[j].transactionRef != rest[k].transactionRef && rest[j].id < rest[k].id
    {
      var j' := if j < i then j else j + 1;
      var k' := if k < i then k else k + 1;
      assert j' < k' && rest[j] == rows[j'] && rest[k] == rows[k'];
    }
  }

  /**
   * Removing the row at `i` keeps the table well formed and removes exactly
   * the rows with that row's id, which is that one row.
   */
  lemma RemoveAtKeepsOthers(rows: seq<Transaction>, nextId: nat, i: nat)
    requires WellFormed(rows, nextId) && i < |rows|
    ensures WellFormed(rows[..i] + rows[i + 1..], nextId)
    ensures forall x :: x in rows[..i] + rows[i + 1..] <==> x in rows && x.id != rows[i].id
  {
    var rest := rows[..i] + rows[i + 1..];
    RemoveAtWellFormed(rows, nextId, i);
    assert forall k :: 0 <= k < |rest| ==> rest[k] == rows[if k < i then k else k + 1];
    forall x | x in rows && x.id != rows[i].id
      ensures x in rest
    {
      var k :| 0 <= k < |rows| && rows[k] == x;
      assert rest[if k < i then k else k - 1] == x;
    }
    forall x | x in rest
      ensures x.id != rows[i].id
    {
      var k :| 0 <= k < |rest| && rest[k] == x;
      assert x == rows[if k < i then k else k + 1];
      if k < i {
        assert rows[k].id < rows[i].id;
      } else {
        assert rows[i].id < rows[k + 1].id;
      }
    }
  }

  class Registry {
    var rows: seq<Transaction>
    var nextId: nat

    ghost predicate Valid()
      reads this
    {
      WellFormed(rows, nextId)
    }

    constructor Empty()
      ensures Valid() && rows == [] && nextId == 1
    {
      rows := [];
      nextId := 1;
    }

    /**
     * createTransaction: the store issues the next id and appends the row; a
     * transaction without a reference, or with a reference already stored, is
     * refused and nothing changes.
     */
    method CreateTransaction(t: Transaction) returns (r: Result<Transaction, StoreError>)
      requires Valid()
      modifies this
      ensures Valid()
      ensures t.transactionRef.None? ==> r == Err(MissingReference)
      ensures t.transactionRef.Some? && (exists i :: 0 <= i < |old(rows)| && old(rows)[i].transactionRef == t.transactionRef) ==>
        r == Err(DuplicateReference)
      ensures r.Err? ==> rows == old(rows) && nextId == old(nextId)
      ensures r.Err? ==>
        t.transactionRef.None? || exists i :: 0 <= i < |old(rows)| && old(rows)[i].transactionRef == t.transactionRef
      ensures r.Ok? ==>
        && r.value == t.(id := old(nextId))
        && rows == old(rows) + [r.value]
        && nextId == old(nextId) + 1
    {
      if t.transactionRef.None? {
        return Err(MissingReference);
      }
      if RefIndex(rows, t.transactionRef.value).Some? {
        return Err(DuplicateReference);
      }
      var saved := t.(id := nextId);
      rows := rows + [saved];
      nextId := nextId + 1;
      r := Ok(saved);
    }

    /**
     * updateTransaction: replaces the row with the same id, in place, and
     * leaves every other row as it was; refused when the reference is unset,
     * the id is not stored, or another row already holds the reference.
     */
    method UpdateTransaction(t: Transaction) returns (r: Result<Transaction, StoreError>)
      requires Valid()
      modifies this
      ensures Valid()
      ensures nextId == old(nextId)
      ensures t.transactionRef.None? ==> r == Err(MissingReference)
      ensures t.transactionRef.Some? && (forall i :: 0 <= i < |old(rows)| ==> old(rows)[i].id != t.id) ==>
        r == Err(UnknownTransaction)
      ensures r.Err? ==> rows == old(rows)
      ensures r.Err? ==>
        || t.transactionRef.None?
        || (forall i :: 0 <= i < |old(rows)| ==> old(rows)[i].id != t.id)
        || (exists i :: 0 <= i < |old(rows)| && old(rows)[i].transactionRef == t.transactionRef && old(rows)[i].id != t.id)
      ensures r.Ok? ==>
        && r.value == t
        && |rows| == |old(rows)|
        && (forall i :: 0 <= i < |rows| ==> rows[i] == if old(rows)[i].id == t.id then t else old(rows)[i])
    {
      if t.transactionRef.None? {
        return Err(MissingReference);
      }
      var at := IdIndex(rows, t.id);
      if at.None? {
        return Err(UnknownTransaction);
      }
      var holder := RefIndex(rows, t.transactionRef.value);
      if holder.Some? && holder.value != at.value {
        return Err(DuplicateReference);
      }
      rows := rows[at.value := t];
      r := Ok(t);
    }

    /**
     * deleteTransaction: removes the row with that id, if there is one, and
     * keeps every other row in order. The row's ledger entries go with it
     * (the entries' relation cascades every operation); an id the table does
     * not hold leaves the ledger alone.
     */
    method DeleteTransaction(id: nat, ledger: Ledger)
      requires Valid()
      modifies this, ledger
      ensures Valid()
      ensures (exists i :: 0 <= i < |old(rows)| && old(rows)[i].id == id) ==>
        ledger.entries == WithoutTransaction(old(ledger.entries), id)
      ensures (forall i :: 0 <= i < |old(rows)| ==> old(rows)[i].id != id) ==> ledger.entries == old(ledger.entries)
      ensures nextId == old(nextId)
      ensures forall x :: x in rows <==> x in old(rows) && x.id != id
      ensures (forall i :: 0 <= i < |old(rows)| ==> old(rows)[i].id != id) ==> rows == old(rows)
      ensures (exists i :: 0 <= i < |old(rows)| && old(rows)[i].id == id) ==> |rows| == |old(rows)| - 1
    {
      var at := IdIndex(rows, id);
      if at.Some? {
        RemoveAtKeepsOthers(rows, nextId, at.value);
        rows := rows[..at.value] + rows[at.value + 1..];
        ledger.DeleteEntriesOfTransaction(id);
      }
    }

    /** getTransactionByRef: the row with that reference, if any. */
    function TransactionByRef(ref: string): (r: Option<Transaction>)
      reads this
      ensures r.Some? ==> r.value in rows && r.value.transactionRef == Some(ref)
      ensures r.None? ==> forall i :: 0 <= i < |rows| ==> rows[i].transactionRef != Some(ref)
    {
      var at := RefIndex(rows, ref);
      if at.Some? then Some(rows[at.value]) else None
    }

    /** getTransactionsByAccountId: exactly the rows with the account on either side, in id order. */
    function TransactionsByAccountId(accountId: nat): (r: seq<Transaction>)
      reads this
      ensures forall i :: 0 <= i < |r| ==> r[i] in rows && Touches(r[i], accountId)
      ensures forall i :: 0 <= i < |rows| && Touches(rows[i], accountId) ==> rows[i] in r
    {
      Involving(rows, accountId)
    }

    /** getTransactionsByStatus: exactly the rows with that status, in id order. */
    function TransactionsByStatus(status: TransactionStatus): (r: seq<Transaction>)
      reads this
      ensures forall i :: 0 <= i < |r| ==> r[i] in rows && r[i].status == status
      ensures forall i :: 0 <= i < |rows| && rows[i].status == status ==> rows[i] in r
    {
      Filter(rows, (t: Transaction) => t.status == status)
    }

    /**
     * Because references are unique, looking up a stored row's reference
     * finds that very row and no other.
     */
    lemma ByRefFindsTheRow(i: nat)
      requires Valid() && i < |rows|
      ensures TransactionByRef(rows[i].transactionRef.value) == Some(rows[i])
    {
    }
  }
}
