/**
 * The QR payment flow of the mobile API and the web dashboard: validateQR,
 * which checks a scanned payload against the payments core's session and the
 * payer's first account, and processPayment, which re-validates, records a
 * PENDING payment, debits the payer and settles the status from the payments
 * core's completion answer. The session fetch and the completion call are
 * inputs: `sessions` is what the payments core answers per session id (an
 * id it does not answer for is absent) and `completion` the outcome of the
 * completion call.
 */
module Settlement {
  import opened Common
  import opened Entities
  import opened LedgerEntries
  import opened AccountService
  import opened TransactionRegistry
  import opened QrPayload
  import opened PaymentValidation

  // ---------------------------------------------------------------------------
  // validateQR
  // ---------------------------------------------------------------------------

  datatype QrRejection =
    | QrRefused(qrError: QrError)
    | UnparsableAmount                                  // the amount text is not a number
    | InvalidSession                                    // "Invalid or expired payment session"
    | QrMismatch(mismatch: ValidationError)
    | UserLookupFailed                                  // "User lookup failed: ..."
    | NoAccountFound                                    // "No account found"
    | QrInsufficientBalance(required: int, current: int) // "Insufficient balance"

  /** The fields of a successful validation response. */
  datatype QrApproval = QrApproval(
    sessionId: string,
    amount: int,
    currency: string,
    merchantId: string,
    transactionRef: string,
    payerAccountId: nat,
    payerAccountNumber: string,
    payerAccountBalance: int,
    verifiedAmount: int,
    verifiedTransactionRef: string)

  function AccountSet(accounts: seq<Account>): set<Account> {
    set a | a in accounts
  }

  /**
   * validateQR. `owned` is the caller's accounts in repository order, or
   * None when the caller's user record cannot be found (possible only on
   * the dashboard, where the lookup follows validation). The payload is
   * parsed, its amount read, the session fetched and the claimed values
   * checked against it; then the caller's first account must cover the
   * claimed amount.
   */
  function ValidateQr(qr: Option<string>, sessions: map<string, Session>, now: int, owned: Option<seq<Account>>)
    : (r: Result<QrApproval, QrRejection>)
    reads if owned.Some? then AccountSet(owned.value) else {}
    ensures ParseQr(qr).Err? ==> r == Err(QrRefused(ParseQr(qr).error))
    ensures r.Ok? ==>
      && ParseQr(qr).Ok?
      && r.value.sessionId == ParseQr(qr).value.sessionId
      && r.value.sessionId in sessions
      && var s := sessions[r.value.sessionId];
      && r.value.amount == s.amount == r.value.verifiedAmount
      && r.value.merchantId == s.merchantId
      && r.value.transactionRef == s.transactionRef == r.value.verifiedTransactionRef
      && EqualsIgnoreCase(r.value.currency, s.currency)
      && s.status == SessionPending && now <= s.expiryTime
      && owned.Some? && |owned.value| > 0
      && r.value.payerAccountId == owned.value[0].id
      && r.value.payerAccountBalance == owned.value[0].currentBalance >= s.amount
    ensures (r.Err? && r.error.QrInsufficientBalance?) ==>
      owned.Some? && |owned.value| > 0 && owned.value[0].currentBalance < r.error.required
    ensures ParseQr(qr).Ok? ==>
      var f := ParseQr(qr).value;
      var amount := ParseCents(f.amountText);
      && (amount.None? ==> r == Err(UnparsableAmount))
      && (amount.Some? && f.sessionId !in sessions ==> r == Err(InvalidSession))
      && (amount.Some? && f.sessionId in sessions ==>
            var v := ValidatePaymentParameters(sessions[f.sessionId], Claim(amount.value, f.currency, f.merchantId, f.transactionRef), now);
            && (v.Some? ==> r == Err(QrMismatch(v.value)))
            && (v.None? && owned.None? ==> r == Err(UserLookupFailed))
            && (v.None? && owned.Some? && |owned.value| == 0 ==> r == Err(NoAccountFound))
            && (v.None? && owned.Some? && |owned.value| > 0 && owned.value[0].currentBalance < amount.value ==>
                  r == Err(QrInsufficientBalance(amount.value, owned.value[0].currentBalance))))
    ensures r.Ok? <==>
      && ParseQr(qr).Ok?
      && var f := ParseQr(qr).value;
      && ParseCents(f.amountText).Some?
      && f.sessionId in sessions
      && Agrees(sessions[f.sessionId], Claim(ParseCents(f.amountText).value, f.currency, f.merchantId, f.transactionRef), now)
      && owned.Some? && |owned.value| > 0
      && owned.value[0].currentBalance >= ParseCents(f.amountText).value
  {
    match ParseQr(qr)
    case Err(e) => Err(QrRefused(e))
    case Ok(f) =>
      match ParseCents(f.amountText)
      case None => Err(UnparsableAmount)
      case Some(amount) =>
        if f.sessionId !in sessions then Err(InvalidSession)
        else
          var s := sessions[f.sessionId];
          var v := ValidatePaymentParameters(s, Claim(amount, f.currency, f.merchantId, f.transactionRef), now);
          if v.Some? then Err(QrMismatch(v.value))
          else if owned.None? then Err(UserLookupFailed)
          else if |owned.value| == 0 then Err(NoAccountFound)
          else
            var primary := owned.value[0];
            if primary.currentBalance < amount then Err(QrInsufficientBalance(amount, primary.currentBalance))
            else Ok(QrApproval(f.sessionId, amount, f.currency, f.merchantId, f.transactionRef,
                               primary.id, primary.accountNumber, primary.currentBalance,
                               s.amount, s.transactionRef))
  }

  /**
   * A payload that fails the format checks is refused whatever the payments
   * core would have answered: no session is consulted.
   */
  lemma BadPayloadNeedsNoSession(qr: Option<string>, sessions: map<string, Session>, other: map<string, Session>,
                                 now: int, owned: Option<seq<Account>>)
    requires ParseQr(qr).Err?
    ensures ValidateQr(qr, sessions, now, owned) == ValidateQr(qr, other, now, owned)
  {
  }

  // ---------------------------------------------------------------------------
  // processPayment
  // ---------------------------------------------------------------------------

  /** The body of a process-payment request. */
  datatype PaymentRequest = PaymentRequest(
    sessionId: string,
    amount: int,
    merchantId: string,
    transactionRef: string,
    payerAccountId: nat)

  /**
   * How the completion call ended. The service's HTTP client throws on a 4xx
   * or 5xx answer and on a transport failure (CallThrew), so the status test
   * after the call sees only the other non-2xx answers (Non2xx). A 2xx
   * answer whose body is null or does not report success is BodyFailure.
   */
  datatype Completion = Non2xx | BodyFailure | CompletionSuccess | CallThrew

  datatype PaymentRejection =
    | SessionUnavailable                    // "Invalid or expired payment session"
    | Mismatch(mismatch: ValidationError)
    | UserNotFound                          // the caller's user record is missing (dashboard)
    | InvalidAccount                        // "Invalid account"
    | UnauthorizedAccountAccess             // "Unauthorized account access"
    | InsufficientBalance                   // "Insufficient balance"
    | PaymentTypeNotFound                   // "Payment transaction type not found"
    | StoreRefused(storeError: StoreError)
    | PostingRefused(postingError: PostingError)
    | NotificationFailed                    // "PaymentCore notification failed: ..."
    | CompletionRejected                    // "PaymentCore rejected: ..."
    | CompletionCallFailed                  // the HTTP client's exception, e.g. a 500 answer

  datatype PaymentOutcome = PaymentAccepted(transactionId: nat) | PaymentRejected(reason: PaymentRejection)

  /**
   * The checks processPayment makes before it writes anything, in order:
   * the session must be available; the request must agree with it, the
   * session's own currency standing in for the claimed one; the caller must
   * be known; the payer account must exist, belong to the caller and hold at
   * least the SESSION's amount; and the PAYMENT transaction type must exist.
   */
  function Precheck(req: PaymentRequest, caller: Option<nat>, sessions: map<string, Session>, now: int,
                    accounts: map<nat, Account>, paymentTypeExists: bool): (r: Option<PaymentRejection>)
    reads accounts.Values
    ensures r == Some(SessionUnavailable) <==> req.sessionId !in sessions
    ensures r.None? ==>
      && req.sessionId in sessions
      && req.amount == sessions[req.sessionId].amount
      && req.merchantId == sessions[req.sessionId].merchantId
      && req.transactionRef == sessions[req.sessionId].transactionRef
      && caller.Some? && req.payerAccountId in accounts
      && accounts[req.payerAccountId].ownerId == caller.value
      && accounts[req.payerAccountId].currentBalance >= req.amount
      && paymentTypeExists
    ensures r == Some(InsufficientBalance) ==>
      req.sessionId in sessions && req.payerAccountId in accounts &&
      accounts[req.payerAccountId].currentBalance < sessions[req.sessionId].amount
    ensures !(r.Some? && r.value.Mismatch? && r.value.mismatch.CurrencyMismatch?)
    ensures req.sessionId in sessions ==>
      var s := sessions[req.sessionId];
      var v := ValidatePaymentParameters(s, Claim(req.amount, s.currency, req.merchantId, req.transactionRef), now);
      && (v.Some? ==> r == Some(Mismatch(v.value)))
      && (v.None? && caller.None? ==> r == Some(UserNotFound))
      && (v.None? && caller.Some? && req.payerAccountId !in accounts ==> r == Some(InvalidAccount))
      && (v.None? && caller.Some? && req.payerAccountId in accounts ==>
            var payer := accounts[req.payerAccountId];
            && (payer.ownerId != caller.value ==> r == Some(UnauthorizedAccountAccess))
            && (payer.ownerId == caller.value && payer.currentBalance < s.amount ==> r == Some(InsufficientBalance))
            && (payer.ownerId == caller.value && payer.currentBalance >= s.amount && !paymentTypeExists ==>
                  r == Some(PaymentTypeNotFound)))
    ensures r.None? <==>
      && req.sessionId in sessions
      && var s := sessions[req.sessionId];
      && Agrees(s, Claim(req.amount, s.currency, req.merchantId, req.transactionRef), now)
      && caller.Some? && req.payerAccountId in accounts
      && accounts[req.payerAccountId].ownerId == caller.value
      && accounts[req.payerAccountId].currentBalance >= req.amount
      && paymentTypeExists
  {
    if req.sessionId !in sessions then Some(SessionUnavailable)
    else
      var s := sessions[req.sessionId];
      var v := ValidatePaymentParameters(s, Claim(req.amount, s.currency, req.merchantId, req.transactionRef), now);
      OwnCurrencyNeverMismatches(s, req.amount, req.merchantId, req.transactionRef, now);
      if v.Some? then Some(Mismatch(v.value))
      else if caller.None? then Some(UserNotFound)
      else if req.payerAccountId !in accounts then Some(InvalidAccount)
      else if accounts[req.payerAccountId].ownerId != caller.value then Some(UnauthorizedAccountAccess)
      else if accounts[req.payerAccountId].currentBalance < s.amount then Some(InsufficientBalance)
      else if !paymentTypeExists then Some(PaymentTypeNotFound)
      else None
  }

  /**
   * The payment row processPayment records before debiting: from the payer,
   * to no account, the amount negated, the request's reference, PENDING,
   * dated now and effective today. The store issues its id.
   */
  function PendingPayment(req: PaymentRequest, payerId: nat, now: int, today: int): Transaction {
    Transaction(0, Some(req.transactionRef), Some(payerId), None, "PAYMENT", -req.amount,
                "QR Payment to " + req.merchantId, Pending, Some(now), today)
  }

  /**
   * The status the payment row holds after the completion call: never
   * COMPLETED. An answer the status test sees marks it FAILED; a success
   * writes PENDING again; a call that threw skips the update and leaves the
   * row PENDING as it was created.
   */
  function FinalStatus(c: Completion): (s: TransactionStatus)
    ensures s != Completed
    ensures s == Failed <==> c == Non2xx || c == BodyFailure
    ensures s == Pending <==> c == CompletionSuccess || c == CallThrew
  {
    match c
    case Non2xx => Failed
    case BodyFailure => Failed
    case CompletionSuccess => Pending
    case CallThrew => Pending
  }

  /** The payer account a request names, or null. */
  function Payer(accounts: map<nat, Account>, id: nat): Account? {
    if id in accounts then accounts[id] else null
  }

  /** The outcome processPayment reports once the payer has been debited. */
  function CompletionOutcome(completion: Completion, transactionId: nat): (out: PaymentOutcome)
    ensures out.PaymentAccepted? <==> completion == CompletionSuccess
    ensures out.PaymentAccepted? ==> out.transactionId == transactionId
    ensures out == PaymentRejected(CompletionCallFailed) <==> completion == CallThrew
  {
    match completion
    case CompletionSuccess => PaymentAccepted(transactionId)
    case Non2xx => PaymentRejected(NotificationFailed)
    case BodyFailure => PaymentRejected(CompletionRejected)
    case CallThrew => PaymentRejected(CompletionCallFailed)
  }

  /**
   * Rewriting the status of the newest row, which the store has just
   * created, changes that row alone.
   */
  lemma UpdateNewestRow(rows: seq<Transaction>, nextId: nat, i: nat, t: Transaction)
    requires WellFormed(rows, nextId) && i == |rows| - 1 && rows[i].id == t.id
    ensures forall k :: 0 <= k < |rows| ==> (rows[k].id == t.id <==> k == i)
  {
    forall k | 0 <= k < i
      ensures rows[k].id != t.id
    {
      assert rows[k].id < rows[i].id;
    }
  }

  /** updateTransaction on the row the store has just created: only its status changes. */
  method SetNewestStatus(registry: Registry, txn: Transaction, status: TransactionStatus)
    requires registry.Valid() && |registry.rows| > 0 && registry.rows[|registry.rows| - 1] == txn
    requires txn.transactionRef.Some?
    modifies registry
    ensures registry.Valid() && registry.nextId == old(registry.nextId)
    ensures registry.rows == old(registry.rows)[..|old(registry.rows)| - 1] + [txn.(status := status)]
  {
    var settled := txn.(status := status);
    ghost var before := registry.rows;
    UpdateNewestRow(registry.rows, registry.nextId, |registry.rows| - 1, settled);
    assert forall i :: 0 <= i < |registry.rows| && registry.rows[i].transactionRef == settled.transactionRef ==>
      registry.rows[i].id == settled.id;
    var updated := registry.UpdateTransaction(settled);
    assert updated.Ok?;
    assert registry.rows == before[..|before| - 1] + [settled];
  }

  /**
   * The writing half of processPayment, once every precheck has passed: the
   * PENDING payment row is created (a reference already stored makes the
   * store refuse it, and nothing changes). If the payer is not ACTIVE the
   * debit refuses, and the PENDING row stays behind with no posting.
   * Otherwise the payer is debited by the amount, one DEBIT entry is stored,
   * and the row's status becomes FAILED on a failed completion (the debit is
   * not reversed) or is written as PENDING again on success. A completion
   * call that throws rejects the payment with the row still PENDING and the
   * payer still debited.
   */
  method RecordAndDebit(req: PaymentRequest, payer: Account, now: int, today: int, completion: Completion,
                        registry: Registry, ledger: Ledger)
    returns (out: PaymentOutcome)
    requires registry.Valid()
    requires payer.currentBalance >= req.amount
    modifies registry, ledger, payer`currentBalance, payer`availableBalance
    ensures registry.Valid()
    ensures old(RefTaken(registry.rows, req.transactionRef)) ==>
      && out == PaymentRejected(StoreRefused(DuplicateReference))
      && registry.rows == old(registry.rows)
      && ledger.entries == old(ledger.entries)
      && BalancesOf(payer) == old(BalancesOf(payer))
    ensures !old(RefTaken(registry.rows, req.transactionRef)) && payer.status != Active ==>
      && out == PaymentRejected(PostingRefused(AccountInactiveOrInvalid))
      && registry.rows == old(registry.rows) + [PendingPayment(req, payer.id, now, today).(id := old(registry.nextId))]
      && ledger.entries == old(ledger.entries)
      && BalancesOf(payer) == old(BalancesOf(payer))
    ensures !old(RefTaken(registry.rows, req.transactionRef)) && payer.status == Active ==>
      var row := PendingPayment(req, payer.id, now, today).(id := old(registry.nextId));
      && out == CompletionOutcome(completion, row.id)
      && registry.rows == old(registry.rows) + [row.(status := FinalStatus(completion))]
      && payer.currentBalance == old(payer.currentBalance) - req.amount >= 0
      && payer.availableBalance == old(payer.availableBalance) - req.amount
      && ledger.entries == old(ledger.entries) + [LedgerEntry(row.id, payer.id, Debit, req.amount, payer.currentBalance)]
    ensures !old(RefTaken(registry.rows, req.transactionRef)) && payer.status == Active && completion == CallThrew ==>
      && out == PaymentRejected(CompletionCallFailed)
      && registry.rows == old(registry.rows) + [PendingPayment(req, payer.id, now, today).(id := old(registry.nextId))]
      && payer.currentBalance == old(payer.currentBalance) - req.amount
  {
    var created := registry.CreateTransaction(PendingPayment(req, payer.id, now, today));
    if created.Err? {
      return PaymentRejected(StoreRefused(created.error));
    }
    var txn := created.value;
    var debited := DebitAccount(payer, req.amount, Some(req.transactionRef), txn, ledger);
    assert debited.Err? <==> payer.status != Active;
    if debited.Err? {
      return PaymentRejected(PostingRefused(debited.error));
    }
    assert debited.value == txn;
    if completion == CallThrew {
      return PaymentRejected(CompletionCallFailed);
    }
    SetNewestStatus(registry, txn, FinalStatus(completion));
    out := CompletionOutcome(completion, txn.id);
  }

  /**
   * processPayment. A failed precheck changes nothing; otherwise the payment
   * is recorded and the payer debited as RecordAndDebit states. The debit
   * can never fail for lack of funds, the precheck having compared the
   * payer's balance with the session amount the request must equal.
   */
  method ProcessPayment(req: PaymentRequest, caller: Option<nat>, sessions: map<string, Session>, now: int, today: int,
                        accounts: map<nat, Account>, paymentTypeExists: bool, completion: Completion,
                        registry: Registry, ledger: Ledger)
    returns (out: PaymentOutcome)
    requires registry.Valid()
    modifies registry, ledger
    modifies Held(Payer(accounts, req.payerAccountId))`currentBalance
    modifies Held(Payer(accounts, req.payerAccountId))`availableBalance
    ensures registry.Valid()
    ensures var pre := old(Precheck(req, caller, sessions, now, accounts, paymentTypeExists));
      pre.Some? ==>
        && out == PaymentRejected(pre.value)
        && registry.rows == old(registry.rows)
        && ledger.entries == old(ledger.entries)
        && BalancesOf(Payer(accounts, req.payerAccountId)) == old(BalancesOf(Payer(accounts, req.payerAccountId)))
    ensures old(Precheck(req, caller, sessions, now, accounts, paymentTypeExists)).None? ==>
      var payer := accounts[req.payerAccountId];
      var row := PendingPayment(req, payer.id, now, today).(id := old(registry.nextId));
      && (old(RefTaken(registry.rows, req.transactionRef)) ==>
            && out == PaymentRejected(StoreRefused(DuplicateReference))
            && registry.rows == old(registry.rows)
            && ledger.entries == old(ledger.entries)
            && BalancesOf(payer) == old(BalancesOf(payer)))
      && (!old(RefTaken(registry.rows, req.transactionRef)) && payer.status != Active ==>
            && out == PaymentRejected(PostingRefused(AccountInactiveOrInvalid))
            && registry.rows == old(registry.rows) + [row]
            && ledger.entries == old(ledger.entries)
            && BalancesOf(payer) == old(BalancesOf(payer)))
      && (!old(RefTaken(registry.rows, req.transactionRef)) && payer.status == Active ==>
            && out == CompletionOutcome(completion, row.id)
            && registry.rows == old(registry.rows) + [row.(status := FinalStatus(completion))]
            && payer.currentBalance == old(payer.currentBalance) - req.amount >= 0
            && payer.availableBalance == old(payer.availableBalance) - req.amount
            && ledger.entries == old(ledger.entries) + [LedgerEntry(row.id, payer.id, Debit, req.amount, payer.currentBalance)])
    ensures out != PaymentRejected(PostingRefused(InsufficientFunds))
  {
    var pre := Precheck(req, caller, sessions, now, accounts, paymentTypeExists);
    if pre.Some? {
      return PaymentRejected(pre.value);
    }
    var payer := accounts[req.payerAccountId];
    out := RecordAndDebit(req, payer, now, today, completion, registry, ledger);
  }

  /**
   * A QR validation that succeeded for the caller's first account leads to
   * a payment request that passes every precheck, provided the session is
   * still open at `now` and the PAYMENT type exists.
   */
  lemma ApprovedQrPassesPrecheck(qr: Option<string>, sessions: map<string, Session>, validatedAt: int, now: int,
                                 caller: nat, owned: seq<Account>, accounts: map<nat, Account>)
    requires ValidateQr(qr, sessions, validatedAt, Some(owned)).Ok?
    requires |owned| > 0 && owned[0].ownerId == caller
    requires owned[0].id in accounts && accounts[owned[0].id] == owned[0]
    requires now <= sessions[ParseQr(qr).value.sessionId].expiryTime
    ensures var a := ValidateQr(qr, sessions, validatedAt, Some(owned)).value;
      Precheck(PaymentRequest(a.sessionId, a.amount, a.merchantId, a.transactionRef, a.payerAccountId),
               Some(caller), sessions, now, accounts, true).None?
  {
    var a := ValidateQr(qr, sessions, validatedAt, Some(owned)).value;
    var s := sessions[a.sessionId];
    EqualsIgnoreCaseReflexive(s.currency);
  }
}
