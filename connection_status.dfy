/**
 * `GET /api/obsidian/connection-status` (`src/app/api/obsidian/connection-status/route.ts`):
 * whether the caller has both Microsoft tokens stored. It only reads.
 */
module ConnectionStatus {
  import opened Wrappers
  import opened Js
  import opened Store
  import ServerAuth
  import MicrosoftCallback
  import MicrosoftDisconnect
  import Environment
  import SearchParams

  datatype StatusResponse = Status(connected: bool) | StatusError(status: int, error: string)

  const StatusFailed: string := "Failed to check connection status"

  /** `!!(user?.microsoftRefreshToken && user?.microsoftAccessToken)`: both are non-empty. */
  predicate Connected(u: Option<User>) {
    u.Some? && Truthy(u.value.msRefreshToken) && Truthy(u.value.msAccessToken)
  }

  /** The handler; `fault` is whether the store's lookup throws. */
  function GetStatus(caller: Option<JsNumber>, users: map<int, User>, fault: bool): (r: StatusResponse)
    requires UsersWellFormed(users)
    ensures !ServerAuth.Authenticated(caller) ==> r == StatusError(401, MicrosoftDisconnect.Unauthorized)
    ensures ServerAuth.Authenticated(caller) && fault ==> r == StatusError(500, StatusFailed)
    ensures ServerAuth.Authenticated(caller) && !fault ==> r.Status?
    ensures r == Status(true) <==>
      && ServerAuth.Authenticated(caller) && !fault
      && caller.value.value in users
      && Truthy(users[caller.value.value].msAccessToken) && Truthy(users[caller.value.value].msRefreshToken)
  {
    if !ServerAuth.Authenticated(caller) then StatusError(401, MicrosoftDisconnect.Unauthorized)
    else if fault then StatusError(500, StatusFailed)
    else Status(Connected(FindUser(users, caller.value.value)))
  }

  /** Once the disconnect route succeeds, the caller reads as not connected. */
  lemma DisconnectedReadsDisconnected(caller: Option<JsNumber>, users: map<int, User>)
    requires UsersWellFormed(users)
    requires MicrosoftDisconnect.Disconnect(caller, users, false).response == MicrosoftDisconnect.Disconnected
    ensures GetStatus(caller, MicrosoftDisconnect.Disconnect(caller, users, false).users, false) == Status(false)
  {
  }

  /**
   * Once the callback links the caller with a token response holding both tokens,
   * the caller reads as connected.
   */
  lemma LinkedReadsConnected(userId: int, code: string, env: Environment.Env,
                             exchange: string -> MicrosoftCallback.ExchangeOutcome, users: map<int, User>, now: int)
    requires UsersWellFormed(users)
    requires code != "" && userId in users && userId != 0
    requires Environment.OAuthConfigured(env)
    requires exchange(MicrosoftCallback.ExchangeBody(env, code)).ExchangeOk?
    requires var t := exchange(MicrosoftCallback.ExchangeBody(env, code)).tokens;
      Truthy(t.accessToken) && Truthy(t.refreshToken)
    ensures var query := [SearchParams.Param("code", code), SearchParams.Param("state", IntToString(userId))];
      var r := MicrosoftCallback.Callback(query, env, exchange, users, now, false);
      GetStatus(Some(Int(userId)), r.users, false) == Status(true)
  {
    MicrosoftCallback.StateLinksInitiatingUser(userId, code, env, exchange, users, now);
  }
}
