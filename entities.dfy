/**
 * The persistent entities the ledger core works on. Money is held in integer
 * cents: the balance and amount columns are decimals of scale 2. Timestamps
 * are integer milliseconds and calendar dates integer day numbers.
 */
module Entities {
  import opened Common

  /**
   * Account status. The core only ever tests for ACTIVE; every other status
   * of the enumeration is carried by name.
   */
  datatype AccountStatus = Active | OtherAccountStatus(name: string)

  datatype EntryType = Debit | Credit

  /** The transaction status enumeration, PAYMENT included. */
  datatype TransactionStatus = Pending | Completed | Failed | Cancelled | Payment

  /**
   * One immutable ledger row: the transaction and the account it belongs to
   * (by id), its type, its amount and the account's current balance right
   * after it was applied. Its creation time is its position in the store.
   */
  datatype LedgerEntry = LedgerEntry(
    transactionId: nat,
    accountId: nat,
    entryType: EntryType,
    amount: int,
    runningBalance: int)

  /**
   * A transaction row. `transactionRef` is None while unset (the column is
   * unique and not null, so the store refuses None); `typeCode` is the code
   * of the transaction type ("PAYMENT", "DEPOSIT", ...).
   */
  datatype Transaction = Transaction(
    id: nat,
    transactionRef: Option<string>,
    fromAccount: Option<nat>,
    toAccount: Option<nat>,
    typeCode: string,
    amount: int,
    description: string,
    status: TransactionStatus,
    transactionDate: Option<int>,
    effectiveDate: int)

  /** True when `accountId` is on either side of `t`. */
  predicate Touches(t: Transaction, accountId: nat) {
    t.fromAccount == Some(accountId) || t.toAccount == Some(accountId)
  }

  /** The user type; the core names INDIVIDUAL and BUSINESS, any other value is carried by name. */
  datatype UserType = Individual | Business | OtherUserType(name: string)

  /** The user status; the core only ever tests for ACTIVE. */
  datatype UserStatus = UserActive | OtherUserStatus(name: string)

  /** A bank user: its id, identity-provider subject, type, login name, contact data and status. */
  datatype User = User(
    id: nat,
    keycloakSub: string,
    userType: UserType,
    username: string,
    email: string,
    phone: string,
    status: UserStatus)

  /** A bank account; its balances and status are updated in place. */
  class Account {
    const id: nat
    var accountNumber: string
    var ownerId: nat
    var routingNumber: string
    var currentBalance: int
    var availableBalance: int
    var status: AccountStatus
    var overdraftProtection: bool
    var overdraftLimit: int

    /**
     * A freshly opened account: both balances zero, ACTIVE, the bank's
     * routing number, the requested overdraft protection and the column
     * default of a zero overdraft limit.
     */
    constructor Open(id: nat, accountNumber: string, ownerId: nat, routingNumber: string, overdraftProtection: bool)
      ensures this.id == id && this.accountNumber == accountNumber && this.ownerId == ownerId
      ensures this.routingNumber == routingNumber && this.overdraftProtection == overdraftProtection
      ensures currentBalance == 0 && availableBalance == 0 && overdraftLimit == 0
      ensures status == Active
    {
      this.id := id;
      this.accountNumber := accountNumber;
      this.ownerId := ownerId;
      this.routingNumber := routingNumber;
      this.overdraftProtection := overdraftProtection;
      currentBalance := 0;
      availableBalance := 0;
      overdraftLimit := 0;
      status := Active;
    }
  }

  /** An account store indexed by id: every key is the id of its account. */
  ghost predicate IndexedById(accounts: map<nat, Account>) {
    forall k :: k in accounts ==> accounts[k].id == k
  }
}
