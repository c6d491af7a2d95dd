/**
 * `GET /api/auth/microsoft/callback` (`src/app/api/auth/microsoft/callback/route.ts`):
 * the redirection endpoint of the authorization code grant (sections 4.1.2 and
 * 4.1.3 of RFC 6749). It reads the provider's response from the query, exchanges
 * the code for tokens, stores them on the user named by `state`, and redirects to
 * the dashboard. Every outcome is a redirect; locations are relative to the
 * request's origin.
 */
module MicrosoftCallback {
  import opened Wrappers
  import opened Js
  import opened UrlEncoding
  import opened SearchParams
  import opened Environment
  import opened Store
  import MicrosoftInitiate

  /**
   * The token endpoint's JSON (section 5.1 of RFC 6749). A token field that is
   * absent is `None`; Prisma leaves a field it is given as `undefined` unchanged.
   * `expires_in` is in seconds.
   */
  datatype TokenSet = TokenSet(accessToken: Option<string>, refreshToken: Option<string>, expiresIn: int)

  /** The `fetch` to the token endpoint: a 2xx with its JSON, another status, or a throw. */
  datatype ExchangeOutcome = ExchangeOk(tokens: TokenSet) | ExchangeNotOk(status: int) | ExchangeThrows

  /** Where the handler redirects to, on the request's origin. */
  datatype Redirect = DashboardError(error: string) | Connected

  function Location(r: Redirect): string {
    match r
    case DashboardError(error) => "/dashboard?error=" + error
    case Connected => "/dashboard?microsoft_connected=true"
  }

  /** The form body of the code exchange, in the order the handler lists the fields. */
  function ExchangeParams(clientId: string, clientSecret: string, code: string, redirectUri: string): seq<Param> {
    [ Param("client_id", clientId),
      Param("client_secret", clientSecret),
      Param("code", code),
      Param("redirect_uri", redirectUri),
      Param("grant_type", "authorization_code") ]
  }

  /** The user record after a successful exchange: the three link fields, nothing else. */
  function Linked(u: User, tokens: TokenSet, now: int): (v: User)
    ensures v.(msAccessToken := u.msAccessToken, msRefreshToken := u.msRefreshToken, msTokenExpiry := u.msTokenExpiry) == u
    ensures v.msTokenExpiry == Some(now + tokens.expiresIn * 1000)
    ensures tokens.accessToken.Some? ==> v.msAccessToken == tokens.accessToken
    ensures tokens.accessToken.None? ==> v.msAccessToken == u.msAccessToken
    ensures tokens.refreshToken.Some? ==> v.msRefreshToken == tokens.refreshToken
    ensures tokens.refreshToken.None? ==> v.msRefreshToken == u.msRefreshToken
  {
    u.(msAccessToken := if tokens.accessToken.Some? then tokens.accessToken else u.msAccessToken,
       msRefreshToken := if tokens.refreshToken.Some? then tokens.refreshToken else u.msRefreshToken,
       msTokenExpiry := Some(now + tokens.expiresIn * 1000))
  }

  datatype CallbackResult = CallbackResult(redirect: Redirect, users: map<int, User>)

  /**
   * `prisma.user.update` on the user named by `state`: it throws (and the handler
   * redirects with `oauth_callback_failed`) when that user does not exist or the
   * store fails.
   */
  function Link(users: map<int, User>, userId: int, tokens: TokenSet, now: int, fault: bool): (r: CallbackResult)
    requires UsersWellFormed(users)
    ensures UsersWellFormed(r.users) && r.users.Keys == users.Keys
    ensures r.redirect == Connected <==> !fault && userId in users
    ensures r.redirect == Connected ==> r.users == users[userId := Linked(users[userId], tokens, now)]
    ensures r.redirect != Connected ==> r == CallbackResult(DashboardError("oauth_callback_failed"), users)
  {
    if fault || userId !in users then CallbackResult(DashboardError("oauth_callback_failed"), users)
    else
      var u := Linked(users[userId], tokens, now);
      ReplaceUserWellFormed(users, u);
      CallbackResult(Connected, users[userId := u])
  }

  /** The form body posted to the token endpoint. */
  function ExchangeBody(env: Env, code: string): string
    requires env.azureClientId.Some? && env.azureClientSecret.Some?
  {
    Serialize(ExchangeParams(env.azureClientId.value, env.azureClientSecret.value, code, RedirectUri(env)))
  }

  /**
   * The handler on the users table. `query` is the request's query, `exchange`
   * answers the token request for a given form body, and `fault` is whether the
   * store's update throws.
   */
  function Callback(query: seq<Param>, env: Env, exchange: string -> ExchangeOutcome,
                    users: map<int, User>, now: int, fault: bool): (r: CallbackResult)
    requires UsersWellFormed(users)
    ensures UsersWellFormed(r.users) && r.users.Keys == users.Keys
    ensures r.redirect.DashboardError? ==> r.users == users
    ensures Truthy(SearchParams.Get(query, "error")) ==>
      r == CallbackResult(DashboardError(EncodeUriComponent(SearchParams.Get(query, "error").value)), users)
    ensures r.redirect == Connected ==>
      && SearchParams.Get(query, "code").Some? && env.azureClientId.Some? && env.azureClientSecret.Some?
      && exchange(ExchangeBody(env, SearchParams.Get(query, "code").value)).ExchangeOk?
    ensures !Truthy(SearchParams.Get(query, "error"))
              && (!Truthy(SearchParams.Get(query, "code")) || !Truthy(SearchParams.Get(query, "state"))) ==>
      r == CallbackResult(DashboardError("missing_code_or_state"), users)
    ensures !Truthy(SearchParams.Get(query, "error"))
              && Truthy(SearchParams.Get(query, "code")) && Truthy(SearchParams.Get(query, "state")) ==>
      match ParseInt(SearchParams.Get(query, "state").value)
      case NaN => r == CallbackResult(DashboardError("invalid_state"), users)
      case Int(userId) => r == Exchange(userId, SearchParams.Get(query, "code").value, env, exchange, users, now, fault)
  {
    var code := SearchParams.Get(query, "code");
    var state := SearchParams.Get(query, "state");
    var error := SearchParams.Get(query, "error");
    if Truthy(error) then CallbackResult(DashboardError(EncodeUriComponent(error.value)), users)
    else if !Truthy(code) || !Truthy(state) then CallbackResult(DashboardError("missing_code_or_state"), users)
    else match ParseInt(state.value)
      case NaN => CallbackResult(DashboardError("invalid_state"), users)
      case Int(userId) => Exchange(userId, code.value, env, exchange, users, now, fault)
  }

  /** The steps after the query is accepted: configuration, code exchange, update. */
  function Exchange(userId: int, code: string, env: Env, exchange: string -> ExchangeOutcome,
                    users: map<int, User>, now: int, fault: bool): (r: CallbackResult)
    requires UsersWellFormed(users)
    ensures UsersWellFormed(r.users) && r.users.Keys == users.Keys
    ensures r.redirect.DashboardError? ==> r.users == users
    ensures !OAuthConfigured(env) ==> r == CallbackResult(DashboardError("oauth_not_configured"), users)
    ensures OAuthConfigured(env) ==>
      match exchange(ExchangeBody(env, code))
      case ExchangeNotOk(_) => r == CallbackResult(DashboardError("token_exchange_failed"), users)
      case ExchangeThrows => r == CallbackResult(DashboardError("oauth_callback_failed"), users)
      case ExchangeOk(_) =>
        && (r.redirect == Connected <==> !fault && userId in users)
        && (r.redirect != Connected ==> r == CallbackResult(DashboardError("oauth_callback_failed"), users))
    ensures r.redirect == Connected ==>
      && OAuthConfigured(env) && exchange(ExchangeBody(env, code)).ExchangeOk? && !fault && userId in users
      && r.users == users[userId := Linked(users[userId], exchange(ExchangeBody(env, code)).tokens, now)]
  {
    if !OAuthConfigured(env) then CallbackResult(DashboardError("oauth_not_configured"), users)
    else match exchange(ExchangeBody(env, code))
      case ExchangeNotOk(_) => CallbackResult(DashboardError("token_exchange_failed"), users)
      case ExchangeThrows => CallbackResult(DashboardError("oauth_callback_failed"), users)
      case ExchangeOk(tokens) => Link(users, userId, tokens, now, fault)
  }

  /** `GET(request)` on the database. */
  method Get(db: Database, query: seq<Param>, env: Env, exchange: string -> ExchangeOutcome, now: int, fault: bool)
    returns (location: string)
    requires db.Valid()
    modifies db
    ensures db.Valid()
    ensures var r := Callback(query, env, exchange, old(db.users), now, fault);
      location == Location(r.redirect) && db.users == r.users
    ensures db.projects == old(db.projects) && db.tasks == old(db.tasks)
    ensures db.nextUserId == old(db.nextUserId) && db.nextTaskId == old(db.nextTaskId)
  {
    var r := Callback(query, env, exchange, db.users, now, fault);
    db.users := r.users;
    location := Location(r.redirect);
  }

  /**
   * The provider's `error`, carried in the redirect, reads back exactly once the
   * dashboard decodes it.
   */
  lemma ErrorCarried(query: seq<Param>, env: Env, exchange: string -> ExchangeOutcome,
                     users: map<int, User>, now: int, fault: bool)
    requires UsersWellFormed(users)
    requires Truthy(SearchParams.Get(query, "error"))
    ensures var r := Callback(query, env, exchange, users, now, fault).redirect;
      r.DashboardError? && Decode(r.error, false) == SearchParams.Get(query, "error").value
  {
    UriComponentDecodeEncode(SearchParams.Get(query, "error").value);
  }

  lemma ExchangeNamesDistinct(clientId: string, clientSecret: string, code: string, redirectUri: string)
    ensures var ps := ExchangeParams(clientId, clientSecret, code, redirectUri);
      forall i, j | 0 <= i < j < |ps| :: ps[i].name != ps[j].name
  {
  }

  /** The token endpoint receives exactly the five fields, in order, as form data. */
  lemma ExchangeBodyParses(env: Env, code: string)
    requires env.azureClientId.Some? && env.azureClientSecret.Some?
    ensures ParseQuery(ExchangeBody(env, code))
      == ExchangeParams(env.azureClientId.value, env.azureClientSecret.value, code, RedirectUri(env))
  {
    ParseSerialize(ExchangeParams(env.azureClientId.value, env.azureClientSecret.value, code, RedirectUri(env)));
  }

  /** The endpoint reads the grant type and the code it issued from that body. */
  lemma ExchangeBodyFields(env: Env, code: string)
    requires env.azureClientId.Some? && env.azureClientSecret.Some?
    ensures var ps := ParseQuery(ExchangeBody(env, code));
      SearchParams.Get(ps, "grant_type") == Some("authorization_code") && SearchParams.Get(ps, "code") == Some(code)
  {
    var ps := ExchangeParams(env.azureClientId.value, env.azureClientSecret.value, code, RedirectUri(env));
    ExchangeBodyParses(env, code);
    ExchangeNamesDistinct(env.azureClientId.value, env.azureClientSecret.value, code, RedirectUri(env));
    GetDistinct(ps, 2);
    GetDistinct(ps, 4);
  }

  /** The `state` the initiation route sends is the caller's id in decimal. */
  lemma InitiatedState(clientId: string, redirectUri: string, userId: int)
    ensures SearchParams.Get(MicrosoftInitiate.AuthorizationParams(clientId, redirectUri, userId), "state")
      == Some(IntToString(userId))
  {
    MicrosoftInitiate.AuthorizationUrlParses(clientId, redirectUri, userId);
  }

  lemma CodeAndState(code: string, state: string)
    ensures var q := [Param("code", code), Param("state", state)];
      SearchParams.Get(q, "code") == Some(code) && SearchParams.Get(q, "state") == Some(state)
      && SearchParams.Get(q, "error") == None
  {
    var q := [Param("code", code), Param("state", state)];
    assert q[1..] == [Param("state", state)];
  }

  /**
   * The whole round trip: when the provider sends back, with a code, the `state`
   * the initiation route put in its URL (`InitiatedState`), and the exchange
   * succeeds, exactly the user who started the flow is linked, and no other user
   * changes.
   */
  lemma StateLinksInitiatingUser(userId: int, code: string, env: Env,
                                 exchange: string -> ExchangeOutcome, users: map<int, User>, now: int)
    requires UsersWellFormed(users)
    requires code != "" && userId in users
    requires OAuthConfigured(env)
    requires exchange(ExchangeBody(env, code)).ExchangeOk?
    ensures var r := Callback([Param("code", code), Param("state", IntToString(userId))], env, exchange, users, now, false);
      r.redirect == Connected
      && r.users == users[userId := Linked(users[userId], exchange(ExchangeBody(env, code)).tokens, now)]
  {
    var q := [Param("code", code), Param("state", IntToString(userId))];
    CodeAndState(code, IntToString(userId));
    ParseIntOfIntToString(userId);
    CallbackExchanges(q, userId, env, exchange, users, now);
    ExchangeLinks(userId, code, env, exchange, users, now);
  }

  /** A query without `error`, with a code and a numeric `state`, goes on to the exchange. */
  lemma CallbackExchanges(query: seq<Param>, userId: int, env: Env, exchange: string -> ExchangeOutcome,
                          users: map<int, User>, now: int)
    requires UsersWellFormed(users)
    requires !Truthy(SearchParams.Get(query, "error"))
    requires Truthy(SearchParams.Get(query, "code")) && Truthy(SearchParams.Get(query, "state"))
    requires ParseInt(SearchParams.Get(query, "state").value) == Int(userId)
    ensures Callback(query, env, exchange, users, now, false)
      == Exchange(userId, SearchParams.Get(query, "code").value, env, exchange, users, now, false)
  {
  }

  /** A configured, successful exchange ends in the update of the user named by `state`. */
  lemma ExchangeLinks(userId: int, code: string, env: Env, exchange: string -> ExchangeOutcome,
                      users: map<int, User>, now: int)
    requires UsersWellFormed(users) && userId in users
    requires OAuthConfigured(env)
    requires exchange(ExchangeBody(env, code)).ExchangeOk?
    ensures var r := Exchange(userId, code, env, exchange, users, now, false);
      r.redirect == Connected
      && r.users == users[userId := Linked(users[userId], exchange(ExchangeBody(env, code)).tokens, now)]
  {
  }
}
