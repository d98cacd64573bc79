/**
 * Opening a customer (AccountController): the temporary password and the
 * account number, both drawn from random numbers given here as inputs, and
 * the initial state of the user and the account an individual or business
 * opening creates. The identity-provider call is an input too: its answer is
 * the new user's subject, or the message of the failure.
 */
module AccountProvisioning {
  import opened Common
  import opened Entities

  /** The 70 characters a temporary password is drawn from. */
  const PasswordAlphabet: string := "ABCDEFGHIJKLMNOPQRSTUVWXYZabcdefghijklmnopqrstuvwxyz0123456789!@#$%^&*"
  const PasswordLength: nat := 12
  const AccountNumberBound: nat := 1_000_000_000

  /** The characters the draws select, in order: the specification of the password loop. */
  function Spell(draws: seq<nat>): (s: string)
    requires forall i :: 0 <= i < |draws| ==> draws[i] < |PasswordAlphabet|
    ensures |s| == |draws|
    decreases |draws|
  {
    if |draws| == 0 then [] else Spell(draws[..|draws| - 1]) + [PasswordAlphabet[draws[|draws| - 1]]]
  }

  /**
   * generateTemporaryPassword: twelve characters, the i-th being the
   * alphabet's character at the i-th draw.
   */
  method GenerateTemporaryPassword(draws: seq<nat>) returns (pw: string)
    requires |draws| >= PasswordLength
    requires forall i :: 0 <= i < |draws| ==> draws[i] < |PasswordAlphabet|
    ensures pw == Spell(draws[..PasswordLength])
    ensures |pw| == PasswordLength
    ensures forall i :: 0 <= i < |pw| ==> pw[i] in PasswordAlphabet && pw[i] == PasswordAlphabet[draws[i]]
  {
    pw := [];
    var i := 0;
    while i < PasswordLength
      invariant 0 <= i <= PasswordLength
      invariant pw == Spell(draws[..i])
      invariant forall k :: 0 <= k < i ==> pw[k] == PasswordAlphabet[draws[k]]
    {
      assert draws[..i + 1][..i] == draws[..i];
      pw := pw + [PasswordAlphabet[draws[i]]];
      i := i + 1;
    }
  }

  /** The position of the last occurrence of `c` in `s`. */
  function IndexIn(s: string, c: char): (k: nat)
    requires c in s
    ensures k < |s| && s[k] == c
    decreases |s|
  {
    if s[|s| - 1] == c then |s| - 1 else IndexIn(s[..|s| - 1], c)
  }

  /** The draws that spell `s`. */
  function Draws(s: string): (d: seq<nat>)
    requires forall i :: 0 <= i < |s| ==> s[i] in PasswordAlphabet
    ensures |d| == |s| && forall i :: 0 <= i < |d| ==> d[i] < |PasswordAlphabet|
    decreases |s|
  {
    if |s| == 0 then [] else Draws(s[..|s| - 1]) + [IndexIn(PasswordAlphabet, s[|s| - 1])]
  }

  /** Every string over the alphabet is spelled by some draws: no such password is out of reach. */
  lemma {:induction false} SpellDraws(s: string)
    requires forall i :: 0 <= i < |s| ==> s[i] in PasswordAlphabet
    ensures Spell(Draws(s)) == s
    decreases |s|
  {
    if |s| > 0 {
      var init := s[..|s| - 1];
      SpellDraws(init);
      var d := Draws(s);
      assert d[..|d| - 1] == Draws(init);
    }
  }

  /**
   * generateAccountNumber: "01" followed by the draw written with nine
   * digits, zero-padded; eleven digits in all.
   */
  function GenerateAccountNumber(n: nat): (s: string)
    requires n < AccountNumberBound
    ensures |s| == 11 && AllDigits(s)
    ensures s[..2] == "01" && DigitsValue(s[2..]) == n
  {
    FormatNatLength(n, 9);
    ZeroPaddedValue(n, 9);
    var s := "01" + ZeroPadded(n, 9);
    assert s[2..] == ZeroPadded(n, 9);
    s
  }

  /** Different draws give different account numbers. */
  lemma AccountNumberInjective(m: nat, n: nat)
    requires m < AccountNumberBound && n < AccountNumberBound
    ensures GenerateAccountNumber(m) == GenerateAccountNumber(n) <==> m == n
  {
  }

  /** The two kinds of opening. */
  datatype AccountKind = IndividualOpening | BusinessOpening

  /** What the teller enters that ends up on the user and the account. */
  datatype AccountRequest = AccountRequest(username: string, email: string, phone: string, overdraftProtection: bool)

  /** The result the form shows: success with the account's numbers, or the failure message. */
  datatype CreationPage =
    | Created(accountNumber: string, routingNumber: string)
    | CreationFailed(error: string)

  function KindType(kind: AccountKind): (t: UserType)
    ensures t == Individual <==> kind == IndividualOpening
    ensures t == Business <==> kind == BusinessOpening
  {
    match kind
    case IndividualOpening => Individual
    case BusinessOpening => Business
  }

  function FailurePrefix(kind: AccountKind): string {
    match kind
    case IndividualOpening => "Account creation failed: "
    case BusinessOpening => "Business account creation failed: "
  }

  /** The user an opening stores: ACTIVE, of the kind's type, with the request's login and contact data. */
  function NewUser(kind: AccountKind, id: nat, keycloakSub: string, req: AccountRequest): (u: User)
    ensures u.status == UserActive && u.userType == KindType(kind)
    ensures u.id == id && u.keycloakSub == keycloakSub
    ensures u.username == req.username && u.email == req.email && u.phone == req.phone
  {
    User(id, keycloakSub, KindType(kind), req.username, req.email, req.phone, UserActive)
  }

  /**
   * createIndividualAccount / createBusinessAccountInternal. A failing
   * identity-provider call ends the opening with the kind's failure message
   * and creates nothing. Otherwise an ACTIVE user of the kind's type and a
   * fresh ACTIVE account owned by it are created: zero balances, the bank's
   * routing number, the generated account number and the requested
   * overdraft protection; the page shows the account's numbers.
   */
  method OpenCustomer(
    kind: AccountKind, req: AccountRequest, keycloak: Result<string, string>,
    userId: nat, accountId: nat, numberDraw: nat, routingNumber: string)
    returns (page: CreationPage, user: Option<User>, account: Account?)
    requires numberDraw < AccountNumberBound
    ensures keycloak.Err? ==>
      page == CreationFailed(FailurePrefix(kind) + keycloak.error) && user.None? && account == null
    ensures keycloak.Ok? ==>
      && user == Some(NewUser(kind, userId, keycloak.value, req))
      && account != null && fresh(account)
      && account.id == accountId && account.ownerId == userId
      && account.accountNumber == GenerateAccountNumber(numberDraw)
      && account.routingNumber == routingNumber
      && account.currentBalance == 0 && account.availableBalance == 0
      && account.status == Active
      && account.overdraftProtection == req.overdraftProtection
      && page == Created(account.accountNumber, routingNumber)
  {
    if keycloak.Err? {
      return CreationFailed(FailurePrefix(kind) + keycloak.error), None, null;
    }
    user := Some(NewUser(kind, userId, keycloak.value, req));
    account := new Account.Open(accountId, GenerateAccountNumber(numberDraw), userId, routingNumber, req.overdraftProtection);
    page := Created(account.accountNumber, routingNumber);
  }

  /** The failure page names the kind of opening that failed and carries the cause. */
  lemma FailureNamesItsKind(kind: AccountKind, cause: string)
    ensures var e := FailurePrefix(kind) + cause;
      (kind == BusinessOpening <==> StartsWith(e, "Business account creation failed: "))
  {
    var e := FailurePrefix(kind) + cause;
    var business := "Business account creation failed: ";
    if kind == IndividualOpening {
      assert e[0] == 'A' && business[0] == 'B';
      assert |e| >= |business| ==> e[..|business|][0] != business[0];
    } else {
      assert e[..|business|] == business;
    }
  }
}
