/**
 * The identity-provider admin client (KeycloakAdminService): a cached admin
 * token refreshed when it is missing or within 30 seconds of its assumed
 * expiry, and the id of a created user read from the Location of the
 * CREATED answer. The HTTP exchanges are inputs; instants are milliseconds.
 */
module KeycloakAdmin {
  import opened Common

  /** The token is assumed to live five minutes from the moment it was fetched. */
  const TokenLifetime: int := 300_000
  /** A token is refreshed once fewer than thirty seconds of its life remain. */
  const RefreshMargin: int := 30_000
  const HttpCreated: int := 201

  /** A value of the token endpoint's JSON body, as far as the client looks at it. */
  datatype JsonValue = JString(s: string) | JNull | JOther

  /**
   * What the token request gives: the request itself failed (an HTTP or
   * transport error), or a body, possibly null.
   */
  datatype TokenReply = RequestFailed | Body(fields: Option<map<string, JsonValue>>)

  datatype AdminError =
    | TokenFetchFailed        // "Failed to get Keycloak admin token"
    | InvalidTokenResponse    // "Invalid response from Keycloak token endpoint"
    | MissingLocation         // the CREATED answer carries no Location
    | UserCreationFailed(status: int)  // "Failed to create user in Keycloak: <status>"

  /**
   * fetchAdminAccessToken: the access_token of the body. A failed request,
   * and a value of the wrong type (a failed cast inside the same try), give
   * the fetch failure; a null body or one without the key is an invalid
   * response; a JSON null is returned as a null token.
   */
  function TokenFromReply(reply: TokenReply): (r: Result<Option<string>, AdminError>)
    ensures r == Err(InvalidTokenResponse) <==>
      reply.Body? && (reply.fields.None? || "access_token" !in reply.fields.value)
    ensures r.Ok? <==>
      reply.Body? && reply.fields.Some? && "access_token" in reply.fields.value &&
      !reply.fields.value["access_token"].JOther?
    ensures r.Ok? && r.value.Some? ==> reply.fields.value["access_token"] == JString(r.value.value)
  {
    match reply
    case RequestFailed => Err(TokenFetchFailed)
    case Body(fields) =>
      if fields.None? || "access_token" !in fields.value then Err(InvalidTokenResponse)
      else
        match fields.value["access_token"]
        case JString(s) => Ok(Some(s))
        case JNull => Ok(None)
        case JOther => Err(TokenFetchFailed)
  }

  /** The refresh rule: no token yet, or `now` strictly after thirty seconds before the expiry. */
  predicate NeedsRefresh(token: Option<string>, expiry: int, now: int) {
    token.None? || now > expiry - RefreshMargin
  }

  /** A token fetched at `fetchedAt` is reused exactly up to 270 seconds later. */
  lemma ReusedUntilMargin(token: string, fetchedAt: int, now: int)
    ensures !NeedsRefresh(Some(token), fetchedAt + TokenLifetime, now) <==> now <= fetchedAt + 270_000
  {
  }

  /**
   * createUserInKeycloak's reading of the answer: on CREATED the id is what
   * follows the last '/' of the Location (all of it when it has none);
   * anything else is an error.
   */
  function ExtractUserId(status: int, location: Option<string>): (r: Result<string, AdminError>)
    ensures status != HttpCreated ==> r == Err(UserCreationFailed(status))
    ensures status == HttpCreated && location.None? ==> r == Err(MissingLocation)
    ensures r.Ok? ==> '/' !in r.value && location.Some?
    ensures r.Ok? && '/' !in location.value ==> r.value == location.value
  {
    if status != HttpCreated then Err(UserCreationFailed(status))
    else if location.None? then Err(MissingLocation)
    else Ok(AfterLast(location.value, '/'))
  }

  /** The id of a user resource URL `base/id` is `id`. */
  lemma ExtractUserIdOfResource(base: string, id: string)
    requires '/' !in id
    ensures ExtractUserId(HttpCreated, Some(base + "/" + id)) == Ok(id)
  {
    var s := base + "/" + id;
    var r := AfterLast(s, '/');
    assert s[|s| - |id| - 1] == '/' && s[|s| - |id|..] == id;
    assert |r| == |id|;
  }

  /** The cached admin token and its assumed expiry. */
  class AdminTokenCache {
    var adminToken: Option<string>
    var tokenExpiry: int

    /** A new service holds no token and an expiry of its creation instant. */
    constructor (now: int)
      ensures adminToken == None && tokenExpiry == now
    {
      adminToken := None;
      tokenExpiry := now;
    }

    /** The first use of a new service always fetches a token. */
    lemma FirstUseRefreshes(now: int)
      requires adminToken.None?
      ensures NeedsRefresh(adminToken, tokenExpiry, now)
    {
    }

    /**
     * ensureValidToken. Without a refresh due nothing changes. A due
     * refresh whose fetch fails leaves the cache as it was and reports the
     * error; one that succeeds stores the fetched token (a JSON null stores
     * no token, so the next use fetches again) and sets the expiry five
     * minutes after `afterFetch`, the instant read once the fetch returned.
     */
    method EnsureValidToken(now: int, reply: TokenReply, afterFetch: int) returns (err: Option<AdminError>)
      modifies this
      ensures !old(NeedsRefresh(adminToken, tokenExpiry, now)) ==>
        err.None? && adminToken == old(adminToken) && tokenExpiry == old(tokenExpiry)
      ensures old(NeedsRefresh(adminToken, tokenExpiry, now)) && TokenFromReply(reply).Err? ==>
        err == Some(TokenFromReply(reply).error) && adminToken == old(adminToken) && tokenExpiry == old(tokenExpiry)
      ensures old(NeedsRefresh(adminToken, tokenExpiry, now)) && TokenFromReply(reply).Ok? ==>
        err.None? && adminToken == TokenFromReply(reply).value && tokenExpiry == afterFetch + TokenLifetime
    {
      if NeedsRefresh(adminToken, tokenExpiry, now) {
        var fetched := TokenFromReply(reply);
        if fetched.Err? {
          return Some(fetched.error);
        }
        adminToken := fetched.value;
        tokenExpiry := afterFetch + TokenLifetime;
      }
      err := None;
    }

    /**
     * createUserInKeycloak: make sure a token is held, then read the new
     * user's id from the provider's answer. A token failure is the result.
     */
    method CreateUserInKeycloak(now: int, reply: TokenReply, afterFetch: int, status: int, location: Option<string>)
      returns (r: Result<string, AdminError>)
      modifies this
      ensures var due := old(NeedsRefresh(adminToken, tokenExpiry, now));
        && (due && TokenFromReply(reply).Err? ==> r == Err(TokenFromReply(reply).error))
        && (!(due && TokenFromReply(reply).Err?) ==> r == ExtractUserId(status, location))
      ensures !old(NeedsRefresh(adminToken, tokenExpiry, now)) ==>
        adminToken == old(adminToken) && tokenExpiry == old(tokenExpiry)
      ensures old(NeedsRefresh(adminToken, tokenExpiry, now)) && TokenFromReply(reply).Err? ==>
        adminToken == old(adminToken) && tokenExpiry == old(tokenExpiry)
      ensures old(NeedsRefresh(adminToken, tokenExpiry, now)) && TokenFromReply(reply).Ok? ==>
        adminToken == TokenFromReply(reply).value && tokenExpiry == afterFetch + TokenLifetime
    {
      var err := EnsureValidToken(now, reply, afterFetch);
      if err.Some? {
        return Err(err.value);
      }
      r := ExtractUserId(status, location);
    }
  }
}
