/**
 * `POST /api/auth/microsoft/disconnect` (`src/app/api/auth/microsoft/disconnect/route.ts`):
 * clears the caller's three Microsoft fields.
 */
module MicrosoftDisconnect {
  import opened Wrappers
  import opened Js
  import opened Store
  import ServerAuth
  import MicrosoftCallback

  datatype DisconnectResponse = Disconnected | DisconnectError(status: int, error: string)

  const Unauthorized: string := "Unauthorized"
  const DisconnectFailed: string := "Failed to disconnect Microsoft account"

  /** The user with the access token, refresh token and expiry set to `null`. */
  function Unlinked(u: User): (v: User)
    ensures v.msAccessToken.None? && v.msRefreshToken.None? && v.msTokenExpiry.None?
    ensures v.(msAccessToken := u.msAccessToken, msRefreshToken := u.msRefreshToken, msTokenExpiry := u.msTokenExpiry) == u
  {
    u.(msAccessToken := None, msRefreshToken := None, msTokenExpiry := None)
  }

  datatype DisconnectResult = DisconnectResult(response: DisconnectResponse, users: map<int, User>)

  /**
   * The handler on the users table; `fault` is whether the store throws. The
   * update throws too when the caller's row does not exist.
   */
  function Disconnect(caller: Option<JsNumber>, users: map<int, User>, fault: bool): (r: DisconnectResult)
    requires UsersWellFormed(users)
    ensures UsersWellFormed(r.users) && r.users.Keys == users.Keys
    ensures !ServerAuth.Authenticated(caller) ==> r == DisconnectResult(DisconnectError(401, Unauthorized), users)
    ensures r.response == Disconnected <==>
      ServerAuth.Authenticated(caller) && !fault && caller.value.value in users
    ensures r.response == Disconnected ==>
      r.users == users[caller.value.value := Unlinked(users[caller.value.value])]
    ensures ServerAuth.Authenticated(caller) && r.response != Disconnected ==>
      r == DisconnectResult(DisconnectError(500, DisconnectFailed), users)
  {
    if !ServerAuth.Authenticated(caller) then DisconnectResult(DisconnectError(401, Unauthorized), users)
    else
      var id := caller.value.value;
      if fault || id !in users then DisconnectResult(DisconnectError(500, DisconnectFailed), users)
      else
        var u := Unlinked(users[id]);
        ReplaceUserWellFormed(users, u);
        DisconnectResult(Disconnected, users[id := u])
  }

  /** `POST(request)` on the database. */
  method Post(db: Database, caller: Option<JsNumber>, fault: bool) returns (response: DisconnectResponse)
    requires db.Valid()
    modifies db
    ensures db.Valid()
    ensures var r := Disconnect(caller, old(db.users), fault);
      response == r.response && db.users == r.users
    ensures db.projects == old(db.projects) && db.tasks == old(db.tasks)
    ensures db.nextUserId == old(db.nextUserId) && db.nextTaskId == old(db.nextTaskId)
  {
    var r := Disconnect(caller, db.users, fault);
    db.users := r.users;
    response := r.response;
  }

  /** Disconnecting twice leaves the table as disconnecting once. */
  lemma DisconnectIdempotent(caller: Option<JsNumber>, users: map<int, User>)
    requires UsersWellFormed(users)
    ensures var once := Disconnect(caller, users, false);
      Disconnect(caller, once.users, false) == once
  {
    var once := Disconnect(caller, users, false);
    if once.response == Disconnected {
      var id := caller.value.value;
      assert Unlinked(once.users[id]) == once.users[id];
      assert once.users[id := once.users[id]] == once.users;
    }
  }

  /**
   * Disconnecting after a link undoes it: the user is as if the link had never
   * happened, apart from the three Microsoft fields, which are all empty.
   */
  lemma DisconnectUndoesLink(u: User, tokens: MicrosoftCallback.TokenSet, now: int)
    ensures Unlinked(MicrosoftCallback.Linked(u, tokens, now)) == Unlinked(u)
  {
  }
}
