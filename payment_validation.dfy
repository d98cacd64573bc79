/**
 * validatePaymentParameters: the payment session held by the payments core is
 * the authority, and the values a client presents are checked against it in
 * a fixed order; the first check that fails decides the error.
 */
module PaymentValidation {
  import opened Common

  /** The session status as the payments core reports it. */
  datatype PaymentStatus = SessionPending | SessionCompleted | SessionFailed | SessionCancelled | SessionExpiredStatus

  /** A payment session: amount in cents, expiry in milliseconds. */
  datatype Session = Session(
    sessionId: string,
    amount: int,
    currency: string,
    merchantId: string,
    transactionRef: string,
    status: PaymentStatus,
    expiryTime: int)

  /** The values a client presents for a session. */
  datatype Claim = Claim(amount: int, currency: string, merchantId: string, transactionRef: string)

  datatype ValidationError =
    | SessionExpired                                    // "Payment session has expired"
    | SessionNoLongerValid(status: PaymentStatus)       // "Payment session is no longer valid (status: ...)"
    | AmountMismatch(expected: int, received: int)      // "Amount mismatch. Expected: ..., Received: ..."
    | MerchantIdMismatch                                // "Merchant ID mismatch"
    | TransactionRefMismatch                            // "Transaction reference mismatch"
    | CurrencyMismatch(expectedCurrency: string, receivedCurrency: string)

  /** The session is expired when its expiry lies strictly before `now`. */
  predicate Expired(s: Session, now: int) {
    s.expiryTime < now
  }

  /** Everything the client claims is what the open session says. */
  predicate Agrees(s: Session, c: Claim, now: int) {
    && !Expired(s, now)
    && s.status == SessionPending
    && c.amount == s.amount
    && c.merchantId == s.merchantId
    && c.transactionRef == s.transactionRef
    && EqualsIgnoreCase(c.currency, s.currency)
  }

  /**
   * None when the claim agrees with the session; otherwise the error of the
   * first failing check in the order expiry, status, amount, merchant,
   * reference, currency.
   */
  function ValidatePaymentParameters(s: Session, c: Claim, now: int): (r: Option<ValidationError>)
    ensures r.None? <==> Agrees(s, c, now)
    ensures r == Some(SessionExpired) <==> Expired(s, now)
    ensures (r.Some? && r.value.SessionNoLongerValid?) <==> !Expired(s, now) && s.status != SessionPending
    ensures (r.Some? && r.value.AmountMismatch?) <==>
      !Expired(s, now) && s.status == SessionPending && c.amount != s.amount
    ensures r == Some(MerchantIdMismatch) <==>
      !Expired(s, now) && s.status == SessionPending && c.amount == s.amount && c.merchantId != s.merchantId
    ensures r == Some(TransactionRefMismatch) <==>
      !Expired(s, now) && s.status == SessionPending && c.amount == s.amount && c.merchantId == s.merchantId &&
      c.transactionRef != s.transactionRef
  {
    if s.expiryTime < now then Some(SessionExpired)
    else if s.status != SessionPending then Some(SessionNoLongerValid(s.status))
    else if c.amount != s.amount then Some(AmountMismatch(s.amount, c.amount))
    else if c.merchantId != s.merchantId then Some(MerchantIdMismatch)
    else if c.transactionRef != s.transactionRef then Some(TransactionRefMismatch)
    else if !EqualsIgnoreCase(c.currency, s.currency) then Some(CurrencyMismatch(s.currency, c.currency))
    else None
  }

  /** A session whose expiry is exactly `now` has not expired. */
  lemma ExpiryInstantStillValid(s: Session, c: Claim, now: int)
    requires s.expiryTime == now
    ensures ValidatePaymentParameters(s, c, now) != Some(SessionExpired)
  {
  }

  /** Case-insensitive equality is reflexive. */
  lemma EqualsIgnoreCaseReflexive(a: string)
    ensures EqualsIgnoreCase(a, a)
  {
  }

  /**
   * Processing a payment presents the session's own currency as the claimed
   * one, so the currency check can never be the one that fails there.
   */
  lemma OwnCurrencyNeverMismatches(s: Session, amount: int, merchantId: string, transactionRef: string, now: int)
    ensures var r := ValidatePaymentParameters(s, Claim(amount, s.currency, merchantId, transactionRef), now);
      !(r.Some? && r.value.CurrencyMismatch?)
  {
    EqualsIgnoreCaseReflexive(s.currency);
  }

  /** A currency that differs from the session's only in letter case is accepted. */
  lemma CurrencyCaseIgnored(s: Session, c: Claim, now: int)
    requires Agrees(s, c.(currency := s.currency), now)
    requires |c.currency| == |s.currency|
    requires forall i :: 0 <= i < |c.currency| ==> UpperAscii(c.currency[i]) == UpperAscii(s.currency[i])
    ensures ValidatePaymentParameters(s, c, now).None?
  {
  }
}
