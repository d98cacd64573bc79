/**
 * The login decision (CustomAuthenticationProvider.authenticate): the user
 * is looked up by username, must be ACTIVE, and only then is the password
 * checked; a successful login carries ROLE_USER and a role for the user's
 * type. The password check of AuthService is an input: `verify(userId,
 * password)` is its answer.
 */
module Authentication {
  import opened Common
  import opened Entities

  const RoleUser: string := "ROLE_USER"
  const RoleIndividual: string := "ROLE_INDIVIDUAL"
  const RoleBusiness: string := "ROLE_BUSINESS"

  datatype AuthError =
    | UserNotFound        // "User not found"
    | UserNotActive       // "Account is not active"
    | InvalidCredentials  // "Invalid credentials"

  /** The authenticated token: the submitted principal and credentials and the granted authorities. */
  datatype AuthToken = AuthToken(username: string, password: string, authorities: seq<string>)

  /** The role a user's type adds to ROLE_USER. */
  function TypeRole(t: UserType): (role: string)
    ensures role == RoleIndividual <==> t == Individual
    ensures role == RoleBusiness <==> t == Business
    ensures role == RoleUser <==> t.OtherUserType?
  {
    match t
    case Individual => RoleIndividual
    case Business => RoleBusiness
    case OtherUserType(_) => RoleUser
  }

  /**
   * authenticate. Unknown users, then users that are not ACTIVE, are refused
   * before the password is looked at; a password the verifier rejects is
   * refused last. A login that succeeds returns the submitted username and
   * password with exactly the authorities [ROLE_USER, type role].
   */
  function Authenticate(username: string, password: string, users: map<string, User>, verify: (nat, string) -> bool)
    : (r: Result<AuthToken, AuthError>)
    ensures username !in users ==> r == Err(UserNotFound)
    ensures username in users && users[username].status != UserActive ==> r == Err(UserNotActive)
    ensures username in users && users[username].status == UserActive && !verify(users[username].id, password) ==>
      r == Err(InvalidCredentials)
    ensures r.Ok? <==> username in users && users[username].status == UserActive && verify(users[username].id, password)
    ensures r.Ok? ==>
      && r.value.username == username && r.value.password == password
      && r.value.authorities == [RoleUser, TypeRole(users[username].userType)]
  {
    if username !in users then Err(UserNotFound)
    else
      var user := users[username];
      if user.status != UserActive then Err(UserNotActive)
      else if verify(user.id, password) then
        Ok(AuthToken(username, password, [RoleUser, TypeRole(user.userType)]))
      else Err(InvalidCredentials)
  }

  /** The status check comes first: a user that is not ACTIVE is refused whatever the password. */
  lemma InactiveRefusedWhateverPassword(
    username: string, p1: string, p2: string, users: map<string, User>, v1: (nat, string) -> bool, v2: (nat, string) -> bool)
    requires username in users && users[username].status != UserActive
    ensures Authenticate(username, p1, users, v1) == Authenticate(username, p2, users, v2) == Err(UserNotActive)
  {
  }

  /** Every successful login holds ROLE_USER. */
  lemma LoginAlwaysGrantsRoleUser(username: string, password: string, users: map<string, User>, verify: (nat, string) -> bool)
    requires Authenticate(username, password, users, verify).Ok?
    ensures RoleUser in Authenticate(username, password, users, verify).value.authorities
  {
  }

  /**
   * A login holds ROLE_BUSINESS exactly for a BUSINESS user and
   * ROLE_INDIVIDUAL exactly for an INDIVIDUAL one.
   */
  lemma TypeRolesExact(username: string, password: string, users: map<string, User>, verify: (nat, string) -> bool)
    requires Authenticate(username, password, users, verify).Ok?
    ensures var auths := Authenticate(username, password, users, verify).value.authorities;
      && (RoleBusiness in auths <==> users[username].userType == Business)
      && (RoleIndividual in auths <==> users[username].userType == Individual)
  {
    var auths := Authenticate(username, password, users, verify).value.authorities;
    assert auths == [RoleUser, TypeRole(users[username].userType)];
  }
}
