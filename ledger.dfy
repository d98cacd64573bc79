/**
 * The ledger-entry store (LedgerEntryService over its repository) and the
 * ledger's consistency invariant: for one account, entries in creation order
 * form a chain in which each running balance is the previous one plus a
 * credit or minus a debit, and the newest running balance is the account's
 * current balance.
 */
module LedgerEntries {
  import opened Common
  import opened Entities

  /** The balance after `e` is applied to `balance`: a debit subtracts, a credit adds. */
  function Apply(balance: int, e: LedgerEntry): int {
    match e.entryType
    case Debit => balance - e.amount
    case Credit => balance + e.amount
  }

  /** The balance reached from `opening` by applying `es` in order. */
  function Replay(opening: int, es: seq<LedgerEntry>): int
    decreases |es|
  {
    if |es| == 0 then opening else Apply(Replay(opening, es[..|es| - 1]), es[|es| - 1])
  }

  /** The running balance of the newest entry, or `opening` when there is none. */
  function LastRunningBalance(opening: int, es: seq<LedgerEntry>): int {
    if |es| == 0 then opening else es[|es| - 1].runningBalance
  }

  /** Each entry's running balance follows from the one before it (the first from `opening`). */
  ghost predicate Chained(opening: int, es: seq<LedgerEntry>) {
    (|es| > 0 ==> es[0].runningBalance == Apply(opening, es[0])) &&
    forall i :: 0 < i < |es| ==> es[i].runningBalance == Apply(es[i - 1].runningBalance, es[i])
  }

  /** `es` is a consistent history of an account that opened at `opening` and now holds `balance`. */
  ghost predicate Reconciled(opening: int, es: seq<LedgerEntry>, balance: int) {
    Chained(opening, es) && LastRunningBalance(opening, es) == balance
  }

  /** In a chained history the newest running balance is the replayed sum of all postings. */
  lemma {:induction false} ChainedReplay(opening: int, es: seq<LedgerEntry>)
    requires Chained(opening, es)
    ensures Replay(opening, es) == LastRunningBalance(opening, es)
    decreases |es|
  {
    if |es| > 0 {
      var init := es[..|es| - 1];
      assert Chained(opening, init);
      ChainedReplay(opening, init);
    }
  }

  /**
   * Appending an entry whose running balance is the posted balance keeps a
   * reconciled history reconciled, and the balance is still the replay of
   * every posting from the opening balance.
   */
  lemma PostingKeepsReconciled(opening: int, es: seq<LedgerEntry>, balance: int, e: LedgerEntry)
    requires Reconciled(opening, es, balance)
    requires e.runningBalance == Apply(balance, e)
    ensures Reconciled(opening, es + [e], Apply(balance, e))
    ensures Replay(opening, es + [e]) == Apply(balance, e)
  {
    var es' := es + [e];
    assert es'[..|es|] == es;
    assert Chained(opening, es');
    ChainedReplay(opening, es');
  }

  /** The entries of one account, in creation order. */
  function EntriesOf(entries: seq<LedgerEntry>, accountId: nat): seq<LedgerEntry> {
    Filter(entries, (e: LedgerEntry) => e.accountId == accountId)
  }

  lemma EntriesOfAppend(entries: seq<LedgerEntry>, e: LedgerEntry, accountId: nat)
    ensures EntriesOf(entries + [e], accountId) ==
            if e.accountId == accountId then EntriesOf(entries, accountId) + [e] else EntriesOf(entries, accountId)
  {
    FilterAppend(entries, e, (x: LedgerEntry) => x.accountId == accountId);
  }

  /**
   * getCurrentBalance: zero when the account has no entries, otherwise the
   * running balance at the head of its newest-first list.
   */
  function BalanceFromLedger(entries: seq<LedgerEntry>, accountId: nat): (r: int)
    ensures r == LastRunningBalance(0, EntriesOf(entries, accountId))
  {
    var newestFirst := Reversed(EntriesOf(entries, accountId));
    if |newestFirst| == 0 then 0 else newestFirst[0].runningBalance
  }

  /**
   * After an entry is stored, the ledger reports its running balance for
   * its account and the same balance as before for every other account.
   */
  lemma BalanceAfterPosting(entries: seq<LedgerEntry>, e: LedgerEntry, accountId: nat)
    ensures BalanceFromLedger(entries + [e], accountId) ==
            if accountId == e.accountId then e.runningBalance else BalanceFromLedger(entries, accountId)
  {
    EntriesOfAppend(entries, e, accountId);
  }

  /**
   * Storing an entry that posts `balance` onward keeps the account's history
   * reconciled and leaves every other account's history as it was.
   */
  lemma StoreKeepsReconciled(entries: seq<LedgerEntry>, opening: int, balance: int, e: LedgerEntry, accountId: nat)
    requires Reconciled(opening, EntriesOf(entries, e.accountId), balance)
    requires e.runningBalance == Apply(balance, e)
    ensures Reconciled(opening, EntriesOf(entries + [e], e.accountId), Apply(balance, e))
    ensures accountId != e.accountId ==> EntriesOf(entries + [e], accountId) == EntriesOf(entries, accountId)
  {
    EntriesOfAppend(entries, e, e.accountId);
    EntriesOfAppend(entries, e, accountId);
    PostingKeepsReconciled(opening, EntriesOf(entries, e.accountId), balance, e);
  }

  /** The entries that belong to any transaction other than `transactionId`, in creation order. */
  function WithoutTransaction(entries: seq<LedgerEntry>, transactionId: nat): (r: seq<LedgerEntry>)
    ensures |r| <= |entries|
    ensures forall e :: e in r <==> e in entries && e.transactionId != transactionId
    decreases |entries|
  {
    if |entries| == 0 then []
    else
      var init := entries[..|entries| - 1];
      var last := entries[|entries| - 1];
      assert entries == init + [last];
      if last.transactionId == transactionId then WithoutTransaction(init, transactionId)
      else WithoutTransaction(init, transactionId) + [last]
  }

  /** Removing a transaction none of the entries belongs to removes nothing. */
  lemma {:induction false} WithoutAbsentTransaction(entries: seq<LedgerEntry>, transactionId: nat)
    requires forall i :: 0 <= i < |entries| ==> entries[i].transactionId != transactionId
    ensures WithoutTransaction(entries, transactionId) == entries
    decreases |entries|
  {
    if |entries| > 0 {
      WithoutAbsentTransaction(entries[..|entries| - 1], transactionId);
    }
  }

  /**
   * Deleting the transaction of the entry just posted removes exactly that
   * entry: the ledger, and so every account's ledger balance, is as it was
   * before the posting.
   */
  lemma DeleteUndoesPosting(entries: seq<LedgerEntry>, e: LedgerEntry, accountId: nat)
    requires forall i :: 0 <= i < |entries| ==> entries[i].transactionId != e.transactionId
    ensures WithoutTransaction(entries + [e], e.transactionId) == entries
    ensures BalanceFromLedger(WithoutTransaction(entries + [e], e.transactionId), accountId) ==
            BalanceFromLedger(entries, accountId)
  {
    assert (entries + [e])[..|entries|] == entries;
    WithoutAbsentTransaction(entries, e.transactionId);
  }

  /** The stored ledger entries, oldest first. */
  class Ledger {
    var entries: seq<LedgerEntry>

    constructor Empty()
      ensures entries == []
    {
      entries := [];
    }

    /** createLedgerEntry: stores the entry unchanged and returns it. */
    method CreateLedgerEntry(e: LedgerEntry) returns (saved: LedgerEntry)
      modifies this
      ensures saved == e
      ensures entries == old(entries) + [e]
    {
      entries := entries + [e];
      saved := e;
    }

    /**
     * The cascade of a transaction's deletion: every entry of that
     * transaction is removed and the others keep their order.
     */
    method DeleteEntriesOfTransaction(transactionId: nat)
      modifies this
      ensures entries == WithoutTransaction(old(entries), transactionId)
    {
      entries := WithoutTransaction(entries, transactionId);
    }

    /** getLedgerEntriesByAccountId: exactly the entries of that account. */
    function LedgerEntriesByAccountId(accountId: nat): (r: seq<LedgerEntry>)
      reads this
      ensures forall i :: 0 <= i < |r| ==> r[i].accountId == accountId && r[i] in entries
      ensures forall i :: 0 <= i < |entries| && entries[i].accountId == accountId ==> entries[i] in r
    {
      EntriesOf(entries, accountId)
    }

    /** getLedgerEntriesByAccountIdOrderByDate: the account's entries, newest first. */
    function LedgerEntriesByAccountIdOrderByDate(accountId: nat): (r: seq<LedgerEntry>)
      reads this
      ensures |r| == |LedgerEntriesByAccountId(accountId)|
      ensures forall i :: 0 <= i < |r| ==>
        r[i] == LedgerEntriesByAccountId(accountId)[|r| - 1 - i] && r[i].accountId == accountId
    {
      Reversed(EntriesOf(entries, accountId))
    }

    /** getCurrentBalance: zero for an account without entries, else its newest running balance. */
    function CurrentBalance(accountId: nat): (r: int)
      reads this
      ensures LedgerEntriesByAccountId(accountId) == [] ==> r == 0
      ensures LedgerEntriesByAccountId(accountId) != [] ==>
        r == LedgerEntriesByAccountId(accountId)[|LedgerEntriesByAccountId(accountId)| - 1].runningBalance
    {
      BalanceFromLedger(entries, accountId)
    }
  }
}
