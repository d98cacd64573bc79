/**
 * The teller's cash deposit (processDepositTransaction): the account is found
 * by its number and must be ACTIVE, a COMPLETED DEPOSIT transaction with a
 * clock-derived reference is stored, the balances are raised and one CREDIT
 * ledger entry records the new balance. Unlike creditAccount, the deposit
 * sets the available balance to the new current balance.
 */
module Teller {
  import opened Common
  import opened Entities
  import opened LedgerEntries
  import opened AccountService
  import opened TransactionRegistry

  datatype DepositRequest = DepositRequest(accountNumber: string, amount: int, description: string)

  datatype DepositError =
    | AccountNotFound                        // "Account not found"
    | AccountNotActive                       // "Account is not active"
    | DepositTypeNotFound                    // "DEPOSIT transaction type not found"
    | DepositStoreRefused(cause: StoreError) // the transaction table refuses the row

  datatype DepositResponse = DepositResponse(
    transactionRef: string,
    accountNumber: string,
    amount: int,
    newBalance: int,
    message: string)

  const RefPrefix: string := "DEP"
  const DepositTypeCode: string := "DEPOSIT"
  const CashDepositPrefix: string := "Cash deposit - "
  const DepositCompleted: string := "Deposit completed successfully"

  /** generateTransactionRef: "DEP" followed by the clock in milliseconds. */
  function GenerateTransactionRef(millis: nat): (ref: string)
    ensures StartsWith(ref, RefPrefix) && |ref| > |RefPrefix|
    ensures AllDigits(ref[|RefPrefix|..])
  {
    RefPrefix + FormatNat(millis)
  }

  /** The digits after the prefix read back as the clock reading. */
  lemma RefCarriesClock(millis: nat)
    ensures DigitsValue(GenerateTransactionRef(millis)[|RefPrefix|..]) == millis
  {
    assert GenerateTransactionRef(millis)[|RefPrefix|..] == FormatNat(millis);
    DigitsValueOfFormat(millis);
  }

  /** Deposits at different instants get different references; two in one millisecond collide. */
  lemma RefInjective(m: nat, n: nat)
    ensures GenerateTransactionRef(m) == GenerateTransactionRef(n) <==> m == n
  {
    if GenerateTransactionRef(m) == GenerateTransactionRef(n) {
      assert FormatNat(m) == GenerateTransactionRef(m)[|RefPrefix|..];
      assert FormatNat(n) == GenerateTransactionRef(n)[|RefPrefix|..];
      FormatNatInjective(m, n);
    }
  }

  /** The account with that number, or null. */
  function AccountByNumber(byNumber: map<string, Account>, accountNumber: string): Account? {
    if accountNumber in byNumber then byNumber[accountNumber] else null
  }

  /** The transaction the deposit asks the store to save (the store issues the id). */
  function DepositRow(req: DepositRequest, accountId: nat, millis: nat, today: int): Transaction {
    Transaction(
      0, Some(GenerateTransactionRef(millis)), None, Some(accountId), DepositTypeCode,
      req.amount, CashDepositPrefix + req.description, Completed, None, today)
  }

  /** The balances after a deposit: both are the old current balance plus the amount. */
  function DepositBalances(b: Balances, amount: int): (r: Balances)
    ensures r.current == r.available
    ensures r.current - amount == b.current
  {
    var newBalance := b.current + amount;
    Balances(newBalance, newBalance)
  }

  /**
   * A deposit agrees with creditAccount exactly when the two balances were
   * equal beforehand; otherwise it overwrites the available balance.
   */
  lemma DepositAgreesWithCredit(b: Balances, amount: int)
    ensures CreditBalances(Some(Active), b, amount) == Ok(DepositBalances(b, amount)) <==> b.current == b.available
  {
  }

  /** The new balance of a deposit exceeds the old one exactly when the amount is positive. */
  lemma DepositRaisesBalance(b: Balances, amount: int)
    ensures DepositBalances(b, amount).current > b.current <==> amount > 0
  {
  }

  /**
   * The posting half of the deposit: both balances are set to the old
   * current balance plus the amount and one CREDIT entry records it.
   */
  method PostDeposit(account: Account, amount: int, transactionId: nat, ledger: Ledger) returns (newBalance: int)
    modifies account`currentBalance, account`availableBalance, ledger
    ensures newBalance == account.currentBalance
    ensures BalancesOf(account) == DepositBalances(old(BalancesOf(account)), amount)
    ensures ledger.entries == old(ledger.entries) + [LedgerEntry(transactionId, account.id, Credit, amount, newBalance)]
    ensures ledger.CurrentBalance(account.id) == newBalance
    ensures old(LedgerReconciles(ledger.entries, account.id, account.currentBalance)) ==>
      LedgerReconciles(ledger.entries, account.id, newBalance)
  {
    var oldBalance := account.currentBalance;
    newBalance := oldBalance + amount;
    account.currentBalance := newBalance;
    account.availableBalance := newBalance;
    var entry := LedgerEntry(transactionId, account.id, Credit, amount, newBalance);
    ghost var before := ledger.entries;
    var _ := ledger.CreateLedgerEntry(entry);
    BalanceAfterPosting(before, entry, account.id);
    if LedgerReconciles(before, account.id, oldBalance) {
      StoreKeepsReconciled(before, 0, oldBalance, entry, account.id);
    }
  }

  /**
   * processDepositTransaction. Refused, with nothing changed, when no account
   * has the number, the account is not ACTIVE, the DEPOSIT type is missing,
   * or the store refuses the row (a deposit in the same millisecond already
   * holds the reference). Otherwise the COMPLETED row is stored, both
   * balances become the old current balance plus the amount, one CREDIT
   * entry with that balance as running balance is stored for the new row,
   * and the response reports the reference and the new balance.
   */
  method ProcessDepositTransaction(
    req: DepositRequest, byNumber: map<string, Account>, depositTypeExists: bool,
    millis: nat, today: int, registry: Registry, ledger: Ledger)
    returns (r: Result<DepositResponse, DepositError>)
    requires registry.Valid()
    modifies registry, ledger
    modifies Held(AccountByNumber(byNumber, req.accountNumber))`currentBalance
    modifies Held(AccountByNumber(byNumber, req.accountNumber))`availableBalance
    ensures registry.Valid()
    ensures var acct := AccountByNumber(byNumber, req.accountNumber);
      && (acct == null ==> r == Err(AccountNotFound))
      && (acct != null && acct.status != Active ==> r == Err(AccountNotActive))
      && (acct != null && acct.status == Active && !depositTypeExists ==> r == Err(DepositTypeNotFound))
      && (acct != null && acct.status == Active && depositTypeExists &&
          old(RefTaken(registry.rows, GenerateTransactionRef(millis))) ==>
            r == Err(DepositStoreRefused(DuplicateReference)))
      && (r.Ok? <==> acct != null && acct.status == Active && depositTypeExists &&
                     !old(RefTaken(registry.rows, GenerateTransactionRef(millis))))
    ensures var acct := AccountByNumber(byNumber, req.accountNumber);
      r.Err? ==>
        && registry.rows == old(registry.rows) && registry.nextId == old(registry.nextId)
        && ledger.entries == old(ledger.entries)
        && BalancesOf(acct) == old(BalancesOf(acct))
    ensures var acct := AccountByNumber(byNumber, req.accountNumber);
      r.Ok? ==>
        var row := DepositRow(req, acct.id, millis, today).(id := old(registry.nextId));
        && registry.rows == old(registry.rows) + [row]
        && registry.nextId == old(registry.nextId) + 1
        && BalancesOf(acct) == DepositBalances(old(BalancesOf(acct)), req.amount)
        && ledger.entries == old(ledger.entries) + [LedgerEntry(row.id, acct.id, Credit, req.amount, acct.currentBalance)]
        && ledger.CurrentBalance(acct.id) == acct.currentBalance
        && r.value == DepositResponse(GenerateTransactionRef(millis), acct.accountNumber, req.amount,
                                      acct.currentBalance, DepositCompleted)
    ensures var acct := AccountByNumber(byNumber, req.accountNumber);
      r.Ok? && old(LedgerReconciles(ledger.entries, acct.id, acct.currentBalance)) ==>
        LedgerReconciles(ledger.entries, acct.id, acct.currentBalance)
  {
    var account := AccountByNumber(byNumber, req.accountNumber);
    if account == null {
      return Err(AccountNotFound);
    }
    if account.status != Active {
      return Err(AccountNotActive);
    }
    if !depositTypeExists {
      return Err(DepositTypeNotFound);
    }
    var saved := registry.CreateTransaction(DepositRow(req, account.id, millis, today));
    if saved.Err? {
      return Err(DepositStoreRefused(saved.error));
    }
    var newBalance := PostDeposit(account, req.amount, saved.value.id, ledger);
    r := Ok(DepositResponse(GenerateTransactionRef(millis), account.accountNumber, req.amount, newBalance, DepositCompleted));
  }
}
