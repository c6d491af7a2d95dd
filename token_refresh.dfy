/**
 * The access-token step shared by the two vault routes
 * (`src/app/api/obsidian/notes/route.ts` and `src/app/api/obsidian/structure/route.ts`):
 * the stored access token is used while it is fresh; otherwise the refresh token
 * grant (section 6 of RFC 6749) is run and its result stored.
 */
module TokenRefresh {
  import opened Wrappers
  import opened Js
  import opened Store

  /** The MSAL `AuthenticationResult` fields the routes read; `expiresOn` is an absolute time in ms. */
  datatype TokenResult = TokenResult(accessToken: Option<string>, expiresOn: Option<int>)

  /** `acquireTokenByRefreshToken`: it throws, or resolves to `null` or a result. */
  datatype RefreshOutcome = RefreshThrows | RefreshResolved(result: Option<TokenResult>)

  const DefaultLifetime: int := 3600000

  /** The user exists and holds a refresh token: what both routes ask before anything else. */
  predicate HasRefreshToken(users: map<int, User>, userId: int) {
    userId in users && Truthy(users[userId].msRefreshToken)
  }

  /** `!expiry || new Date() >= new Date(expiry)`. */
  predicate NeedsRefresh(expiry: Option<int>, now: int) {
    expiry.None? || now >= expiry.value
  }

  /**
   * `Date.now() + (expiresOn?.getTime() || 3600000)`, as the routes write it: the
   * absolute `expiresOn` is added to the current time.
   */
  function RefreshedExpiry(now: int, expiresOn: Option<int>): int {
    now + if expiresOn.Some? && expiresOn.value != 0 then expiresOn.value else DefaultLifetime
  }

  /** The user after a refresh is stored: the access token and the expiry, nothing else. */
  function Refreshed(u: User, accessToken: string, expiresOn: Option<int>, now: int): (v: User)
    ensures v.(msAccessToken := u.msAccessToken, msTokenExpiry := u.msTokenExpiry) == u
    ensures v.msRefreshToken == u.msRefreshToken
    ensures v.msAccessToken == Some(accessToken)
    ensures v.msTokenExpiry == Some(RefreshedExpiry(now, expiresOn))
  {
    u.(msAccessToken := Some(accessToken), msTokenExpiry := Some(RefreshedExpiry(now, expiresOn)))
  }

  /** The token to call Graph with and the table afterwards, or the refresh failed. */
  datatype Access = RefreshFailed | Access(token: Option<string>, users: map<int, User>)

  /**
   * From `let accessToken = user.microsoftAccessToken` to the end of the refresh
   * block, for the user `userId` the route looked up. `refresh` answers the grant
   * for a refresh token; `writeFault` is whether the store's update throws, which
   * the same `catch` turns into a failed refresh.
   */
  function AccessToken(users: map<int, User>, userId: int, refresh: string -> RefreshOutcome,
                       now: int, writeFault: bool): (r: Access)
    requires UsersWellFormed(users) && userId in users
    ensures r.Access? ==> UsersWellFormed(r.users) && r.users.Keys == users.Keys
    ensures !NeedsRefresh(users[userId].msTokenExpiry, now) || !Truthy(users[userId].msRefreshToken) ==>
      r == Access(users[userId].msAccessToken, users)
    ensures r == RefreshFailed <==>
      && NeedsRefresh(users[userId].msTokenExpiry, now) && Truthy(users[userId].msRefreshToken)
      && match refresh(users[userId].msRefreshToken.value)
         case RefreshThrows => true
         case RefreshResolved(result) => result.Some? && Truthy(result.value.accessToken) && writeFault
  {
    var u := users[userId];
    if NeedsRefresh(u.msTokenExpiry, now) && Truthy(u.msRefreshToken) then
      match refresh(u.msRefreshToken.value)
      case RefreshThrows => RefreshFailed
      case RefreshResolved(result) =>
        if result.Some? && Truthy(result.value.accessToken) then
          if writeFault then RefreshFailed
          else
            var v := Refreshed(u, result.value.accessToken.value, result.value.expiresOn, now);
            ReplaceUserWellFormed(users, v);
            Access(result.value.accessToken, users[userId := v])
        else Access(u.msAccessToken, users)
    else Access(u.msAccessToken, users)
  }

  /**
   * A refresh that returns a token stores it: the table changes in that user's
   * access token and expiry only, and the route goes on with the new token.
   */
  lemma RefreshStored(users: map<int, User>, userId: int, refresh: string -> RefreshOutcome, now: int)
    requires UsersWellFormed(users) && userId in users
    requires NeedsRefresh(users[userId].msTokenExpiry, now) && Truthy(users[userId].msRefreshToken)
    requires var o := refresh(users[userId].msRefreshToken.value);
      o.RefreshResolved? && o.result.Some? && Truthy(o.result.value.accessToken)
    ensures var t := refresh(users[userId].msRefreshToken.value).result.value;
      AccessToken(users, userId, refresh, now, false)
        == Access(t.accessToken, users[userId := Refreshed(users[userId], t.accessToken.value, t.expiresOn, now)])
  {
  }

  /**
   * Once a refresh is stored, later requests before the stored expiry use the new
   * token and write nothing, whatever the grant would answer.
   */
  lemma RefreshSettles(users: map<int, User>, userId: int, refresh: string -> RefreshOutcome, now: int,
                       later: int, refresh': string -> RefreshOutcome, writeFault: bool)
    requires UsersWellFormed(users) && userId in users
    requires NeedsRefresh(users[userId].msTokenExpiry, now) && Truthy(users[userId].msRefreshToken)
    requires var o := refresh(users[userId].msRefreshToken.value);
      o.RefreshResolved? && o.result.Some? && Truthy(o.result.value.accessToken)
    requires var o := refresh(users[userId].msRefreshToken.value);
      later < RefreshedExpiry(now, o.result.value.expiresOn)
    ensures var a := AccessToken(users, userId, refresh, now, false);
      a.Access? && AccessToken(a.users, userId, refresh', later, writeFault) == Access(a.token, a.users)
  {
    RefreshStored(users, userId, refresh, now);
  }

  /**
   * The stored expiry overshoots: with `expiresOn` the token's own expiry time,
   * the stored expiry lies `now` ms beyond it, so for that long after the token has
   * expired no refresh is attempted.
   */
  lemma ExpiryOvershoots(now: int, expiresOn: int, later: int)
    requires expiresOn != 0 && expiresOn <= later < expiresOn + now
    ensures !NeedsRefresh(Some(RefreshedExpiry(now, Some(expiresOn))), later)
    ensures RefreshedExpiry(now, Some(expiresOn)) - expiresOn == now
  {
  }
}
