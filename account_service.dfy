/**
 * The posting engine of AccountService: debitAccount and creditAccount move
 * an account's current and available balances in lockstep and append exactly
 * one ledger entry whose running balance is the new current balance; plus the
 * balance lookups by account id.
 */
module AccountService {
  import opened Common
  import opened Entities
  import opened LedgerEntries

  datatype PostingError =
    | AccountInactiveOrInvalid   // "Account inactive or invalid"
    | InsufficientFunds          // "Insufficient funds"

  /** An account's current and available balance, in cents. */
  datatype Balances = Balances(current: int, available: int)

  /**
   * The status an account reference shows to the posting guard: None for a
   * null account.
   */
  function StatusOf(account: Account?): Option<AccountStatus>
    reads account
  {
    if account == null then None else Some(account.status)
  }

  /** The account a possibly-null reference holds, as a set of zero or one. */
  function Held(account: Account?): set<Account> {
    if account == null then {} else {account}
  }

  function BalancesOf(account: Account?): Balances
    reads account
  {
    if account == null then Balances(0, 0) else Balances(account.currentBalance, account.availableBalance)
  }

  /**
   * The debit rule. Only an ACTIVE account may be debited, and only when its
   * current balance covers the amount; availableBalance and the overdraft
   * settings are not consulted. An accepted debit never takes the current
   * balance below zero and keeps the gap between the two balances.
   */
  function DebitBalances(status: Option<AccountStatus>, b: Balances, amount: int): (r: Result<Balances, PostingError>)
    ensures r.Ok? <==> status == Some(Active) && amount <= b.current
    ensures status != Some(Active) ==> r == Err(AccountInactiveOrInvalid)
    ensures status == Some(Active) && b.current < amount ==> r == Err(InsufficientFunds)
    ensures r.Ok? ==> r.value.current >= 0
    ensures r.Ok? ==> r.value.current - r.value.available == b.current - b.available
    ensures r.Ok? ==> r.value.current == b.current - amount
  {
    if status != Some(Active) then Err(AccountInactiveOrInvalid)
    else if b.current < amount then Err(InsufficientFunds)
    else Ok(Balances(b.current - amount, b.available - amount))
  }

  /**
   * The credit rule: refused only for a missing or non-ACTIVE account, with
   * no check on the amount; both balances rise by it.
   */
  function CreditBalances(status: Option<AccountStatus>, b: Balances, amount: int): (r: Result<Balances, PostingError>)
    ensures r.Ok? <==> status == Some(Active)
    ensures r.Err? ==> r.error == AccountInactiveOrInvalid
    ensures r.Ok? ==> r.value.current - r.value.available == b.current - b.available
    ensures r.Ok? ==> r.value.current == b.current + amount
  {
    if status != Some(Active) then Err(AccountInactiveOrInvalid)
    else Ok(Balances(b.current + amount, b.available + amount))
  }

  /** A debit followed by a credit of the same amount restores both balances. */
  lemma DebitThenCreditRestores(b: Balances, amount: int)
    requires DebitBalances(Some(Active), b, amount).Ok?
    ensures CreditBalances(Some(Active), DebitBalances(Some(Active), b, amount).value, amount) == Ok(b)
  {
  }

  /**
   * The reference rule of both postings: `ref` is written onto the
   * transaction only when one is given and the transaction's own reference
   * is unset or empty; nothing else about the transaction changes.
   */
  function WithDefaultRef(txn: Transaction, ref: Option<string>): (t: Transaction)
    ensures t == txn.(transactionRef := t.transactionRef)
    ensures ref.Some? ==> t.transactionRef.Some?
    ensures ref.None? ==> t == txn
    ensures ref.Some? && (txn.transactionRef == None || txn.transactionRef == Some("")) ==> t.transactionRef == ref
    ensures !(ref.Some? && (txn.transactionRef == None || txn.transactionRef == Some(""))) ==> t == txn
  {
    if ref.Some? && (txn.transactionRef == None || txn.transactionRef == Some("")) then
      txn.(transactionRef := ref)
    else
      txn
  }

  /** A transaction that already carries a non-empty reference keeps it. */
  lemma SetReferenceIsKept(txn: Transaction, ref: Option<string>)
    requires txn.transactionRef.Some? && txn.transactionRef.value != ""
    ensures WithDefaultRef(txn, ref) == txn
  {
  }

  /** The ledger of account `accountId` reconciles, from the zero opening balance, to `balance`. */
  ghost predicate LedgerReconciles(entries: seq<LedgerEntry>, accountId: nat, balance: int) {
    Reconciled(0, EntriesOf(entries, accountId), balance)
  }

  /**
   * debitAccount. On refusal nothing changes. On success both balances fall
   * by `amount`, exactly one DEBIT entry for this transaction and account is
   * stored with the new current balance as its running balance (so the
   * ledger's current balance for the account is the account's), and the
   * returned transaction is `txn` with the reference rule applied.
   */
  method DebitAccount(account: Account?, amount: int, ref: Option<string>, txn: Transaction, ledger: Ledger)
    returns (r: Result<Transaction, PostingError>)
    modifies Held(account)`currentBalance, Held(account)`availableBalance, ledger
    ensures var spec := DebitBalances(old(StatusOf(account)), old(BalancesOf(account)), amount);
      && (spec.Err? ==>
            && r == Err(spec.error)
            && BalancesOf(account) == old(BalancesOf(account))
            && ledger.entries == old(ledger.entries))
      && (spec.Ok? ==>
            && account != null
            && BalancesOf(account) == spec.value
            && r == Ok(WithDefaultRef(txn, ref))
            && ledger.entries == old(ledger.entries) + [LedgerEntry(txn.id, account.id, Debit, amount, account.currentBalance)]
            && ledger.CurrentBalance(account.id) == account.currentBalance)
    ensures r.Ok? && old(LedgerReconciles(ledger.entries, account.id, account.currentBalance)) ==>
      LedgerReconciles(ledger.entries, account.id, account.currentBalance)
  {
    if account == null || account.status != Active {
      return Err(AccountInactiveOrInvalid);
    }
    if account.currentBalance < amount {
      return Err(InsufficientFunds);
    }
    var posted := WithDefaultRef(txn, ref);
    var oldBalance := account.currentBalance;
    account.currentBalance := oldBalance - amount;
    account.availableBalance := account.availableBalance - amount;
    var entry := LedgerEntry(txn.id, account.id, Debit, amount, account.currentBalance);
    ghost var before := ledger.entries;
    var _ := ledger.CreateLedgerEntry(entry);
    BalanceAfterPosting(before, entry, account.id);
    if LedgerReconciles(before, account.id, oldBalance) {
      StoreKeepsReconciled(before, 0, oldBalance, entry, account.id);
    }
    r := Ok(posted);
  }

  /**
   * creditAccount. Refused, with nothing changed, only for a missing or
   * non-ACTIVE account. On success both balances rise by `amount` and one
   * CREDIT entry is stored with the new current balance as running balance.
   */
  method CreditAccount(account: Account?, amount: int, ref: Option<string>, txn: Transaction, ledger: Ledger)
    returns (r: Result<Transaction, PostingError>)
    modifies Held(account)`currentBalance, Held(account)`availableBalance, ledger
    ensures var spec := CreditBalances(old(StatusOf(account)), old(BalancesOf(account)), amount);
      && (spec.Err? ==>
            && r == Err(spec.error)
            && BalancesOf(account) == old(BalancesOf(account))
            && ledger.entries == old(ledger.entries))
      && (spec.Ok? ==>
            && account != null
            && BalancesOf(account) == spec.value
            && r == Ok(WithDefaultRef(txn, ref))
            && ledger.entries == old(ledger.entries) + [LedgerEntry(txn.id, account.id, Credit, amount, account.currentBalance)]
            && ledger.CurrentBalance(account.id) == account.currentBalance)
    ensures r.Ok? && old(LedgerReconciles(ledger.entries, account.id, account.currentBalance)) ==>
      LedgerReconciles(ledger.entries, account.id, account.currentBalance)
  {
    if account == null || account.status != Active {
      return Err(AccountInactiveOrInvalid);
    }
    var posted := WithDefaultRef(txn, ref);
    var oldBalance := account.currentBalance;
    account.currentBalance := oldBalance + amount;
    account.availableBalance := account.availableBalance + amount;
    var entry := LedgerEntry(txn.id, account.id, Credit, amount, account.currentBalance);
    ghost var before := ledger.entries;
    var _ := ledger.CreateLedgerEntry(entry);
    BalanceAfterPosting(before, entry, account.id);
    if LedgerReconciles(before, account.id, oldBalance) {
      StoreKeepsReconciled(before, 0, oldBalance, entry, account.id);
    }
    r := Ok(posted);
  }

  /** getAccountBalance: the account's current balance, or zero for an unknown id. */
  function GetAccountBalance(accounts: map<nat, Account>, accountId: nat): (r: int)
    reads accounts.Values
    ensures accountId !in accounts ==> r == 0
    ensures accountId in accounts ==> r == accounts[accountId].currentBalance
  {
    if accountId in accounts then accounts[accountId].currentBalance else 0
  }

  /** getAvailableBalance: the account's available balance, or zero for an unknown id. */
  function GetAvailableBalance(accounts: map<nat, Account>, accountId: nat): (r: int)
    reads accounts.Values
    ensures accountId !in accounts ==> r == 0
    ensures accountId in accounts ==> r == accounts[accountId].availableBalance
  {
    if accountId in accounts then accounts[accountId].availableBalance else 0
  }
}
