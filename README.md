# Banking service core — a verified model

This project models the core of a small core-banking service and proves properties about it. The service keeps accounts, a transaction table and a ledger of per-account entries, and settles QR payments against an external payments core. The model covers:

- **Posting engine** (`account_service.dfy`, `ledger.dfy`, `teller.dfy`). `debitAccount`, `creditAccount` and the teller's cash deposit move an account's current and available balances. Each posting stores one DEBIT or CREDIT ledger entry whose running balance is the new current balance. The ledger invariant is that an account's entries, in creation order, form a chain: each running balance is the previous one plus a credit or minus a debit, and the newest one is the account's current balance. Every posting preserves this invariant, and afterwards the ledger's `getCurrentBalance` equals the account's balance.
- **Transaction registry** (`transaction_registry.dfy`). The transaction table is a class whose rows carry unique, non-null references and ascending ids. It supports create, update, delete and the lookups by reference, account and status.
- **QR payload and session validation** (`qr.dfy`, `payment_validation.dfy`):
  - the `QRPAY|sessionId|amount|currency|merchantId|transactionRef` payload, parsed with Java's split semantics (trailing empty fields are dropped);
  - the amount text, read as cents;
  - the ordered chain of checks of a claim against a payment session.
- **Payment settlement** (`settlement.dfy`):
  - `validateQR` from both controllers;
  - `processPayment`: its prechecks, the PENDING payment row with the negated amount, the debit of the payer, and the status the completion answer leads to, which is never COMPLETED.
- **Dashboards** (`dashboard.dfy`):
  - the total balance and the gathering of an owner's transactions;
  - the in-place newest-first sort;
  - the ten most recent transactions;
  - `getTransactions` pagination.
- **Helpers**:
  - the login decision and its role mapping (`authentication.dfy`);
  - the temporary-password and account-number generators and the initial state of a newly opened customer (`account_provisioning.dfy`);
  - the identity provider's admin-token cache and the created user's id (`keycloak_admin.dfy`).

Money is integer cents, because every amount column is a decimal of scale 2. Instants are integer milliseconds and dates are day numbers. Everything outside the service is an input to the model: the payment session the payments core answers, the completion call's outcome, the clock, the random draws, the password verifier and the identity provider's HTTP answers. Accounts, the ledger, the transaction table and the token cache are classes whose fields the methods update in place. Everything else is a value.

Four behaviours of the code are easy to miss, and the model states each of them as the code has it:

- **Deposits and the available balance.** `debitAccount` and `creditAccount` move the two balances by the same amount (`AccountService.java:100-102`, `:123-125`). The teller deposit instead sets the available balance to the new current balance (`TellerController.java:94-96`; `Teller.DepositAgreesWithCredit`).
- **Refused debits.** `processPayment` stores the PENDING payment row before it calls `debitAccount` (`MobileApiController.java:412-415`). A debit refused for a non-ACTIVE payer therefore leaves that row stored with no posting (`Settlement.RecordAndDebit`).
- **Successful completion.** After a successful completion call the code writes PENDING again (`MobileApiController.java:453`), so a payment never ends COMPLETED (`Settlement.FinalStatus`).
- **A completion call that throws.** The HTTP client is a plain `new RestTemplate()` (`SecurityConfig.java:87-88`), which throws on a 4xx or 5xx answer and on a transport failure. Such a call jumps to the catch (`MobileApiController.java:464`) before any status is written. The row stays PENDING, the payer stays debited, and the payment is rejected (`Settlement.Completion`'s `CallThrew`).

## Model

| member | source | states |
|---|---|---|
| LedgerEntries.ChainedReplay | src/main/java/com/roshansutihar/bankingservice/service/AccountService.java:100-111 | In a chained history, the newest running balance is the replay of every posting from the opening balance. |
| LedgerEntries.PostingKeepsReconciled | src/main/java/com/roshansutihar/bankingservice/service/AccountService.java:100-111 | Appending an entry whose running balance is the posted balance keeps the history chained and ending at the new balance. |
| LedgerEntries.BalanceFromLedger | src/main/java/com/roshansutihar/bankingservice/service/LedgerEntryService.java:50-53 | The ledger balance is the newest running balance among the account's entries, or 0 when it has none. |
| LedgerEntries.BalanceAfterPosting | src/main/java/com/roshansutihar/bankingservice/service/LedgerEntryService.java:38-53 | After an entry is stored, the ledger balance of its account is that entry's running balance, and every other account's balance is unchanged. |
| LedgerEntries.StoreKeepsReconciled | src/main/java/com/roshansutihar/bankingservice/service/LedgerEntryService.java:38-40 | Storing a posting keeps the posted account's history reconciled and leaves every other account's entries as they were. |
| LedgerEntries.Ledger.CreateLedgerEntry | src/main/java/com/roshansutihar/bankingservice/service/LedgerEntryService.java:38-40 | Stores the entry unchanged, at the end, and returns it. |
| LedgerEntries.Ledger.LedgerEntriesByAccountId | src/main/java/com/roshansutihar/bankingservice/service/LedgerEntryService.java:26-28 | Returns exactly the stored entries of that account. |
| LedgerEntries.Ledger.LedgerEntriesByAccountIdOrderByDate | src/main/java/com/roshansutihar/bankingservice/service/LedgerEntryService.java:30-32 | Returns the same entries, newest first. |
| LedgerEntries.Ledger.CurrentBalance | src/main/java/com/roshansutihar/bankingservice/service/LedgerEntryService.java:50-53 | Returns 0 for an account without entries, otherwise the running balance of its newest entry. |
| AccountService.DebitBalances | src/main/java/com/roshansutihar/bankingservice/service/AccountService.java:88-103 | A debit succeeds iff the account is present and ACTIVE and its current balance covers the amount; a missing or non-ACTIVE account is refused first, and an ACTIVE account whose balance falls short is refused with "Insufficient funds". On success both balances fall by the amount and the current balance stays at or above 0. |
| AccountService.CreditBalances | src/main/java/com/roshansutihar/bankingservice/service/AccountService.java:114-126 | A credit succeeds iff the account is present and ACTIVE, with no check on the amount; both balances rise by it. |
| AccountService.DebitThenCreditRestores | src/main/java/com/roshansutihar/bankingservice/service/AccountService.java:88-135 | An accepted debit followed by a credit of the same amount restores both balances. |
| AccountService.WithDefaultRef | src/main/java/com/roshansutihar/bankingservice/service/AccountService.java:96-98 | Only the reference may change. When a reference is given and the transaction's own is unset or empty, the given reference is written; in every other case the transaction is returned unchanged. |
| AccountService.SetReferenceIsKept | src/main/java/com/roshansutihar/bankingservice/service/AccountService.java:96-98 | A transaction that already has a non-empty reference keeps it. |
| AccountService.DebitAccount | src/main/java/com/roshansutihar/bankingservice/service/AccountService.java:88-112 | A refusal changes nothing. On success the balances are those of DebitBalances and exactly one DEBIT entry is appended, carrying the txn, the account, the amount and the new current balance. The ledger balance then equals the account balance, and reconciliation is preserved. |
| AccountService.CreditAccount | src/main/java/com/roshansutihar/bankingservice/service/AccountService.java:114-135 | The same as DebitAccount, for CREDIT, following CreditBalances. |
| AccountService.GetAccountBalance | src/main/java/com/roshansutihar/bankingservice/service/AccountService.java:61-65 | The account's current balance, or 0 for an unknown id. |
| AccountService.GetAvailableBalance | src/main/java/com/roshansutihar/bankingservice/service/AccountService.java:73-77 | The account's available balance, or 0 for an unknown id. |
| TransactionRegistry.RemoveAtKeepsOthers | src/main/java/com/roshansutihar/bankingservice/service/TransactionService.java:59-61 | Removing one row keeps the table well formed and removes exactly the rows with that id. |
| TransactionRegistry.Registry.CreateTransaction | src/main/java/com/roshansutihar/bankingservice/service/TransactionService.java:51-53 | A missing reference or an already-stored reference is refused, and nothing changes. Otherwise the row is appended with the next id, and the table stays well formed. |
| TransactionRegistry.Registry.UpdateTransaction | src/main/java/com/roshansutihar/bankingservice/service/TransactionService.java:55-57 | Replaces the row with the same id and leaves every other row as it was. It is refused, with nothing changed, for a missing reference, an unknown id, or a reference held by another row. |
| TransactionRegistry.Registry.DeleteTransaction | src/main/java/com/roshansutihar/bankingservice/service/TransactionService.java:59-61 | Afterwards the rows are exactly the old rows with a different id. A stored id also takes its ledger entries with it, by the cascade of src/main/java/com/roshansutihar/bankingservice/entity/Transaction.java:58-59; an unknown id changes neither the table nor the ledger. |
| LedgerEntries.WithoutTransaction | src/main/java/com/roshansutihar/bankingservice/entity/Transaction.java:58-59 | The entries left after a transaction's cascade are exactly those of other transactions. |
| LedgerEntries.Ledger.DeleteEntriesOfTransaction | src/main/java/com/roshansutihar/bankingservice/entity/Transaction.java:58-59 | Removes every entry of the transaction and keeps the others in order. |
| LedgerEntries.DeleteUndoesPosting | src/main/java/com/roshansutihar/bankingservice/service/LedgerEntryService.java:50-53 | Deleting the transaction of the entry just posted removes exactly that entry, so every account's ledger balance falls back to what it was before the posting. |
| TransactionRegistry.Registry.TransactionByRef | src/main/java/com/roshansutihar/bankingservice/service/TransactionService.java:27-29 | Returns a stored row with that reference, or None when no row has it. |
| TransactionRegistry.Registry.ByRefFindsTheRow | src/main/java/com/roshansutihar/bankingservice/service/TransactionService.java:27-29 | References are unique, so the lookup by a stored row's reference returns that very row. |
| TransactionRegistry.Registry.TransactionsByAccountId | src/main/java/com/roshansutihar/bankingservice/service/TransactionService.java:39-41 | Returns exactly the rows whose from- or to-account is the id. |
| TransactionRegistry.Registry.TransactionsByStatus | src/main/java/com/roshansutihar/bankingservice/service/TransactionService.java:47-49 | Returns exactly the rows with that status. |
| Common.JavaSplit | src/main/java/com/roshansutihar/bankingservice/resource/MobileApiController.java:254-255 | String.split on one character. When the separator occurs, the result is the fields between separators with exactly the trailing empty ones dropped: a prefix of the full split whose remaining fields are all empty, none holding the separator, the last not empty. When it does not occur, the string is returned whole. |
| Common.JoinSplitAll | src/main/java/com/roshansutihar/bankingservice/resource/MobileApiController.java:254 | Joining the fields of the full split with the separator gives the string back. |
| QrPayload.ParseQr | src/main/java/com/roshansutihar/bankingservice/resource/MobileApiController.java:247-260 | "Invalid QR format" iff the payload is missing or lacks the `QRPAY\|` prefix. Past the prefix, "Malformed QR data" iff the split does not give exactly six parts. On success the five fields are parts 1 to 5 of the split, and are ones the formatter reproduces. |
| QrPayload.ParsedPayloadIsFormatted | src/main/java/com/roshansutihar/bankingservice/resource/MobileApiController.java:247-266 | Every payload that parses is the formatting of its five fields followed by nothing but separators (the converse of ParseFormatQr). |
| QrPayload.ExtraFieldIsMalformed | src/main/java/com/roshansutihar/bankingservice/resource/MobileApiController.java:254-259 | A payload with a non-empty seventh field is "Malformed QR data". |
| QrPayload.ParseFormatQr | src/main/java/com/roshansutihar/bankingservice/resource/MobileApiController.java:254-260 | Parsing a formatted payload gives back its five fields (round trip). |
| QrPayload.EmptyReferenceIsMalformed | src/main/java/com/roshansutihar/bankingservice/resource/MobileApiController.java:254-258 | An empty last field is dropped by the split, so such a payload is "Malformed QR data". |
| QrPayload.TrailingSeparatorsIgnored | src/main/java/com/roshansutihar/bankingservice/resource/MobileApiController.java:254-258 | Trailing separators after a valid payload do not change its parse. |
| QrPayload.UnsignedCentsRoundTrip | src/main/java/com/roshansutihar/bankingservice/resource/MobileApiController.java:262-263 | Reading the two-place text of a non-negative amount gives the amount back. |
| QrPayload.ParseFormatCents | src/main/java/com/roshansutihar/bankingservice/resource/MobileApiController.java:262-263 | Reading the signed two-place text of any amount gives the amount back. |
| PaymentValidation.ValidatePaymentParameters | src/main/java/com/roshansutihar/bankingservice/resource/MobileApiController.java:689-723 | No error iff the claim agrees with an unexpired PENDING session. Each error holds exactly when every earlier check passes and its own fails, in the order expiry, status, amount, merchant, reference, currency. |
| PaymentValidation.ExpiryInstantStillValid | src/main/java/com/roshansutihar/bankingservice/resource/MobileApiController.java:695-697 | A session expiring exactly now has not expired. |
| PaymentValidation.OwnCurrencyNeverMismatches | src/main/java/com/roshansutihar/bankingservice/resource/MobileApiController.java:367 | Presenting the session's own currency never fails the currency check. |
| PaymentValidation.CurrencyCaseIgnored | src/main/java/com/roshansutihar/bankingservice/resource/MobileApiController.java:719-722 | A currency that differs only in letter case is accepted. |
| Settlement.ValidateQr | src/main/java/com/roshansutihar/bankingservice/resource/MobileApiController.java:225-326 | Approved iff the payload parses, its amount reads, the session is present and agrees with the claim, and the caller's first account covers the amount. Each refusal is tied to its cause, in the source's order: payload errors unchanged, an unreadable amount, an absent session, the first failing session check, a failed user lookup, no account, and a first account below the claimed amount (reported as required and current). An approval carries the session's values and the first account's id, number and balance. |
| Settlement.BadPayloadNeedsNoSession | src/main/java/com/roshansutihar/bankingservice/resource/MobileApiController.java:247-258 | A payload that fails parsing is refused whatever sessions exist. |
| Settlement.Precheck | src/main/java/com/roshansutihar/bankingservice/resource/MobileApiController.java:361-397 | The session is unavailable iff it is absent. Passing holds iff the request agrees with the session, the caller is known, the payer account exists, is the caller's and covers the amount, and the PAYMENT type exists. Each refusal is tied to its cause, in the source's order: the first failing session check, an unknown caller, "Invalid account", "Unauthorized account access", "Insufficient balance" judged against the session amount, and "Payment transaction type not found". A currency mismatch never occurs. |
| Settlement.FinalStatus | src/main/java/com/roshansutihar/bankingservice/resource/MobileApiController.java:436-454 | FAILED iff the call answered a non-2xx status without throwing or a 2xx without success in its body. PENDING iff the call succeeded (written again) or threw (left as created). Never COMPLETED. |
| Settlement.CompletionOutcome | src/main/java/com/roshansutihar/bankingservice/resource/MobileApiController.java:417-460 | The payment is reported accepted, with the new transaction's id, iff the completion call succeeded; the thrown call is its own rejection. |
| Settlement.SetNewestStatus | src/main/java/com/roshansutihar/bankingservice/resource/MobileApiController.java:436-454 | Rewriting the status of the row the store has just created changes that row's status and nothing else; the table stays well formed and the next id is kept. |
| Settlement.RecordAndDebit | src/main/java/com/roshansutihar/bankingservice/resource/MobileApiController.java:399-460 | A duplicate reference changes nothing. For an inactive payer, a PENDING row is left with no posting. Otherwise the row is stored with the final status, the payer is debited by the amount (not below 0), and one DEBIT entry is stored. A completion call that throws leaves the row PENDING and the payer debited, and rejects the payment. |
| Settlement.ProcessPayment | src/main/java/com/roshansutihar/bankingservice/resource/MobileApiController.java:331-470 | A failed precheck rejects with that precheck's error and changes nothing; otherwise the cases of RecordAndDebit apply, including the thrown completion call. The debit never fails for lack of funds. |
| Settlement.ApprovedQrPassesPrecheck | src/main/java/com/roshansutihar/bankingservice/resource/MobileApiController.java:225-397 | A QR approval for the caller's own first account yields a payment request that passes every precheck while the session is open. |
| Dashboard.SumBalancesAppend | src/main/java/com/roshansutihar/bankingservice/resource/DashboardController.java:135-138 | The total of two account lists is the sum of their totals. |
| Dashboard.TotalBalance | src/main/java/com/roshansutihar/bankingservice/resource/MobileApiController.java:142-159 | The loop's total is the sum of the accounts' current balances. |
| Dashboard.GatheredSound | src/main/java/com/roshansutihar/bankingservice/resource/MobileApiController.java:166-170 | Everything gathered is a stored transaction touching one of the accounts. |
| Dashboard.GatheredComplete | src/main/java/com/roshansutihar/bankingservice/resource/MobileApiController.java:166-170 | Every stored transaction touching one of the accounts is gathered. |
| Dashboard.TransferBetweenOwnAccountsGatheredTwice | src/main/java/com/roshansutihar/bankingservice/resource/MobileApiController.java:166-170 | A transfer between two of the listed accounts is gathered at least twice. |
| Dashboard.GatherTransactions | src/main/java/com/roshansutihar/bankingservice/resource/MobileApiController.java:166-170 | The loop returns each account's transactions in turn. |
| Dashboard.SortNewestFirst | src/main/java/com/roshansutihar/bankingservice/resource/MobileApiController.java:173-178 | The array ends newest first, with undated transactions last, and is a permutation of what it held. |
| Dashboard.RecentTransactions | src/main/java/com/roshansutihar/bankingservice/resource/DashboardController.java:143-164 | Returns at most 10 of the gathered transactions, newest first, and no transaction left out is newer than one kept. |
| Dashboard.CutIsNoNewer | src/main/java/com/roshansutihar/bankingservice/resource/DashboardController.java:162-164 | Truncating a newest-first list keeps it newest first, and nothing cut is newer than anything kept. |
| Dashboard.PageAsWritten | src/main/java/com/roshansutihar/bankingservice/resource/MobileApiController.java:604-608 | The page computed in 32-bit arithmetic, as written; a page never holds more than the list. |
| Dashboard.PageOverflowReturnsFirstPage | src/main/java/com/roshansutihar/bankingservice/resource/MobileApiController.java:604-608 | Page 65536 of size 65536 wraps to offset 0, so it returns the list's start where the page should be empty. |
| Dashboard.Page | src/main/java/com/roshansutihar/bankingservice/resource/MobileApiController.java:604-608 | Never fails for a non-negative page and size. It holds exactly the elements whose index lies in [page·size, page·size+size), and a page starting at or past the end is empty. |
| Dashboard.ConsecutivePagesAdjoin | src/main/java/com/roshansutihar/bankingservice/resource/MobileApiController.java:604-608 | Page p followed by page p+1 is the contiguous slice covering both. |
| Dashboard.TransactionsPage | src/main/java/com/roshansutihar/bankingservice/resource/MobileApiController.java:567-648 | Reports the gathered count. The result is the corrected page (Page) of a newest-first permutation of the gathered transactions; it does not fail for a non-negative page and size. |
| Dashboard.PageAgreesWithoutOverflow | src/main/java/com/roshansutihar/bankingservice/resource/MobileApiController.java:604-608 | Whenever (page + 1) * size fits in 32 bits, the page as written and the corrected page are the same. |
| Dashboard.PageOverflowRefused | src/main/java/com/roshansutihar/bankingservice/resource/MobileApiController.java:604-608 | Page 1 of size 2^30 on a three-element list: the wrapped end bound makes subList refuse, where the corrected page is empty. |
| Teller.GenerateTransactionRef | src/main/java/com/roshansutihar/bankingservice/resource/TellerController.java:117-119 | "DEP" followed by digits only. |
| Teller.RefCarriesClock | src/main/java/com/roshansutihar/bankingservice/resource/TellerController.java:117-119 | The digits read back as the clock value. |
| Teller.RefInjective | src/main/java/com/roshansutihar/bankingservice/resource/TellerController.java:117-119 | Two references are equal iff they come from the same millisecond. |
| Teller.DepositBalances | src/main/java/com/roshansutihar/bankingservice/resource/TellerController.java:94-97 | Both balances become the old current balance plus the amount. |
| Teller.DepositAgreesWithCredit | src/main/java/com/roshansutihar/bankingservice/resource/TellerController.java:94-97 | A deposit agrees with creditAccount iff the two balances were equal; otherwise it erases the gap between them. |
| Teller.DepositRaisesBalance | src/main/java/com/roshansutihar/bankingservice/resource/TellerController.java:94-97 | The balance rises iff the amount is positive; no sign check is made. |
| Teller.ProcessDepositTransaction | src/main/java/com/roshansutihar/bankingservice/resource/TellerController.java:68-115 | Refused, with nothing changed, in this order: unknown number, non-ACTIVE account, missing DEPOSIT type, duplicate reference. On success it stores a COMPLETED DEPOSIT row and sets the DepositBalances balances. It stores one CREDIT entry for the new row with the new balance, and the response carries reference, number, amount and new balance. The ledger balance then equals the account balance, and reconciliation is preserved. |
| Authentication.TypeRole | src/main/java/com/roshansutihar/bankingservice/service/CustomAuthenticationProvider.java:47-51 | ROLE_INDIVIDUAL iff INDIVIDUAL, ROLE_BUSINESS iff BUSINESS, ROLE_USER iff any other type. |
| Authentication.Authenticate | src/main/java/com/roshansutihar/bankingservice/service/CustomAuthenticationProvider.java:31-58 | Refusals come in order: unknown user, then inactive user, then rejected password. Success iff the user is known, ACTIVE and verified. The token carries the submitted username and password and exactly [ROLE_USER, type role]. |
| Authentication.InactiveRefusedWhateverPassword | src/main/java/com/roshansutihar/bankingservice/service/CustomAuthenticationProvider.java:38-42 | An inactive user is refused whatever the password and whatever the verifier answers. |
| Authentication.LoginAlwaysGrantsRoleUser | src/main/java/com/roshansutihar/bankingservice/service/CustomAuthenticationProvider.java:44-45 | Every login holds ROLE_USER. |
| Authentication.TypeRolesExact | src/main/java/com/roshansutihar/bankingservice/service/CustomAuthenticationProvider.java:44-52 | A login holds ROLE_BUSINESS iff the user is BUSINESS, and ROLE_INDIVIDUAL iff INDIVIDUAL. |
| AccountProvisioning.GenerateTemporaryPassword | src/main/java/com/roshansutihar/bankingservice/resource/AccountController.java:213-221 | 12 characters; the i-th is the alphabet's character at the i-th draw, so all come from the 70-character alphabet. |
| AccountProvisioning.SpellDraws | src/main/java/com/roshansutihar/bankingservice/resource/AccountController.java:213-221 | Every string over the alphabet is spelled by some draws. |
| AccountProvisioning.GenerateAccountNumber | src/main/java/com/roshansutihar/bankingservice/resource/AccountController.java:223-226 | 11 digits: "01" followed by nine digits whose value is the draw. |
| AccountProvisioning.AccountNumberInjective | src/main/java/com/roshansutihar/bankingservice/resource/AccountController.java:223-226 | Two numbers are equal iff the draws are. |
| AccountProvisioning.NewUser | src/main/java/com/roshansutihar/bankingservice/resource/AccountController.java:111-117 | The new user is ACTIVE, has the opening kind's type (INDIVIDUAL or BUSINESS), and carries the subject and the request's login and contact data. |
| AccountProvisioning.OpenCustomer | src/main/java/com/roshansutihar/bankingservice/resource/AccountController.java:100-139 | A failing identity-provider call creates nothing and shows the kind's failure message. Otherwise the user and a fresh account are created: ACTIVE, zero balances, routing number, generated number, overdraft copied from the request, owned by the user. |
| AccountProvisioning.FailureNamesItsKind | src/main/java/com/roshansutihar/bankingservice/resource/AccountController.java:64-97 | The failure message starts with "Business account creation failed: " iff the opening was a business one. |
| KeycloakAdmin.TokenFromReply | src/main/java/com/roshansutihar/bankingservice/service/KeycloakAdminService.java:45-69 | A null body or a missing access_token is an invalid response. Success iff there is a body holding a string or null access_token, and then the token is that value. |
| KeycloakAdmin.ReusedUntilMargin | src/main/java/com/roshansutihar/bankingservice/service/KeycloakAdminService.java:37-43 | A token fetched at t is reused iff now ≤ t + 270 s. |
| KeycloakAdmin.ExtractUserId | src/main/java/com/roshansutihar/bankingservice/service/KeycloakAdminService.java:101-106 | Any status other than CREATED is an error. Otherwise the id is the part of the Location after its last '/', and contains no '/'. |
| KeycloakAdmin.ExtractUserIdOfResource | src/main/java/com/roshansutihar/bankingservice/service/KeycloakAdminService.java:101-106 | For a Location `base/id`, the extracted id is `id`. |
| KeycloakAdmin.AdminTokenCache.constructor | src/main/java/com/roshansutihar/bankingservice/service/KeycloakAdminService.java:30-31 | A new cache holds no token, and its expiry is its creation instant. |
| KeycloakAdmin.AdminTokenCache.FirstUseRefreshes | src/main/java/com/roshansutihar/bankingservice/service/KeycloakAdminService.java:30-38 | Without a token, a refresh is always due. |
| KeycloakAdmin.AdminTokenCache.EnsureValidToken | src/main/java/com/roshansutihar/bankingservice/service/KeycloakAdminService.java:37-43 | No refresh due means nothing changes. A due refresh that fails changes nothing and reports the error. A due refresh that succeeds stores the token and sets the expiry to 300 s after the fetch. |
| KeycloakAdmin.AdminTokenCache.CreateUserInKeycloak | src/main/java/com/roshansutihar/bankingservice/service/KeycloakAdminService.java:71-107 | A token failure is the result. Otherwise the result is the id read from the answer. The cache ends as ensureValidToken leaves it: unchanged when no refresh is due or the fetch failed, else the fetched token with an expiry five minutes after the fetch. |
| Entities.Account.Open | src/main/java/com/roshansutihar/bankingservice/resource/AccountController.java:129-139 | A new account has zero balances, is ACTIVE, and carries the given number, owner, routing number and overdraft protection. |

## Left out

- HTTP and JSON plumbing are inputs. These are the session fetch, the completion POST, and the identity provider's token and user calls. The response maps, messages and view models are not modelled beyond the error datatypes.
- QrPayload.ParseCents: the amount text goes through `Double.parseDouble` and `BigDecimal.valueOf` in the source. The model reads plain decimals with at most two fraction digits and an optional sign. Exponents, more fraction digits, "NaN" and binary rounding are not modelled.
- Date and time parsing (`LocalDateTime.parse`) is not modelled. Instants are integer milliseconds given as `now`.
- Null balance columns are not modelled: balances are `int`. The dashboard total's filter on non-null balances therefore has nothing to drop.
- The dashboard controller reads the session status with `TransactionStatus.valueOf` (`DashboardController.java:474`), and that enumeration has no EXPIRED. An EXPIRED session therefore fails to load there and is refused as an invalid or expired session. The model uses the mobile controller's reading for both controllers: the session loads, and the status check refuses it as no longer valid. The other statuses read the same in both controllers, and PENDING is the only one accepted.
- Dashboard.RecentTransactions and Dashboard.TransactionsPage do not state the stability of Java's sort. Only the newest-first order and the permutation are stated.
- Dashboard.TransactionsPage pages with the corrected Page, not the 32-bit PageAsWritten. Where the source's bounds overflow, the source returns a wrapped page or answers 500 from the failing `subList`; the model returns the overflow-free page instead. PageAsWritten, PageOverflowReturnsFirstPage and PageOverflowRefused model the code as written, and PageAgreesWithoutOverflow shows the two agree wherever nothing overflows.
- Common.EqualsIgnoreCase folds only ASCII letters. Java's `equalsIgnoreCase` also folds non-ASCII letters, which ISO currency codes do not contain.
- KeycloakAdmin.ExtractUserId: the user-creation call also goes through the throwing HTTP client, so a 4xx or 5xx answer ends in the client's exception rather than in "Failed to create user in Keycloak: <status>". The model's UserCreationFailed covers only the statuses the client returns.
- The thrown completion call's message (the HTTP client's exception text) is not modelled; Settlement.CompletionCallFailed stands for it.
- The `totalPages` value (`Math.ceil` on doubles), debug output, email sending, audit and session logs are not modelled.
- Transaction boundaries are not modelled: rollback, locking and concurrency. Each operation is one sequential method, and writes made before a failure stay made. For the teller deposit and the account openings this matches the source, whose `@Transactional` sits on private methods and so has no effect. The dashboard's processPayment carries an effective `@Transactional` (`DashboardController.java:325`) and catches every exception itself. There, a duplicate reference raised inside the repository marks the transaction rollback-only, and the caught 400 turns into an error at commit. The model returns `StoreRefused(DuplicateReference)` with nothing changed instead.
- TransactionRegistry.Registry.UpdateTransaction: the repository's `save` of an unknown id would insert a row. The model refuses it with `UnknownTransaction`, because the core only ever updates rows it has just created.
- AccountProvisioning.OpenCustomer: failures after the identity-provider call are not modelled. These are a missing account type, a duplicate account number, and a mail failure after the account was stored. The stores of users, individuals and businesses are not modelled either. Only the initial field values and the failure message of the identity-provider call are.
- The password hashing and the last-login update of the credential service are not modelled. They are not part of this model; the verifier is an input.
- KeycloakAdmin.AdminTokenCache.EnsureValidToken reads the clock twice in the source: before the fetch, and after it for the expiry. The model takes both readings as inputs.
- The user and account id lookups behind the JWT principal are inputs: the caller's user id, and the caller's accounts in repository order.

## Findings

| source | as written | input that shows it | evidently intended | confidence | as-written member | corrected member |
|---|---|---|---|---|---|---|
| src/main/java/com/roshansutihar/bankingservice/resource/MobileApiController.java:604-608 | `page * size` and `(page + 1) * size` are computed in 32-bit `int` and wrap around | page = 65536, size = 65536 on a list of 3 transactions: the product wraps to 0 and the first page is returned; page = 1, size = 2^30: the end bound wraps below the start and `subList` throws | a page beyond the list is empty | not executed | Dashboard.PageOverflowReturnsFirstPage | Dashboard.Page |
