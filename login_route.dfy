/**
 * `POST /api/auth/login` (`src/app/api/auth/login/route.ts`): checks the credentials
 * against the users table and signs a day-long token. The handler is a function of
 * the table: it reads it and never writes it.
 */
module LoginRoute {
  import opened Wrappers
  import opened Js
  import opened Jwt
  import opened Store
  import opened PasswordHash
  import RegisterRoute
  import ServerAuth

  datatype LoginBody =
    | InvalidJson
    | LoginJson(email: Option<string>, password: Option<string>)

  datatype LoginResponse =
    | LoggedIn(token: string, user: RegisterRoute.PublicUser)
    | LoginError(status: int, error: string)

  const InvalidJsonBody: string := "Invalid JSON in request body"
  const MissingCredentials: string := "Missing email or password"
  const InvalidCredentials: string := "Invalid email or password"
  const LoginFailed: string := "An error occurred during login"

  /** The claims of the token issued to `u` at clock `now`. */
  function ClaimsFor(u: User, now: int): (c: Claims)
    ensures c.id == IntToString(u.id) && c.email == u.email && c.name == u.name
    ensures c.exp == Some(c.iat + TokenLifetime)
  {
    SignedClaims(IntToString(u.id), u.email, u.name, now)
  }

  /**
   * `POST(request)`. `compare` stands for `bcrypt.compare`; `sign` for `jwt.sign`
   * with the server secret, `None` when it throws (no secret); `fault` is an error
   * the store throws.
   */
  function Login(body: LoginBody, users: map<int, User>, compare: (string, string) -> bool,
                 sign: Claims -> Option<string>, now: int, fault: Option<string>): (r: LoginResponse)
    requires UsersWellFormed(users)
    ensures body.InvalidJson? ==> r == LoginError(400, InvalidJsonBody)
    ensures body.LoginJson? && !(Truthy(body.email) && Truthy(body.password)) ==>
      r == LoginError(400, MissingCredentials)
    ensures r.LoggedIn? <==>
      && body.LoginJson? && Truthy(body.email) && Truthy(body.password) && fault.None?
      && FindUserByEmail(users, body.email.value).Some?
      && compare(body.password.value, FindUserByEmail(users, body.email.value).value.passwordHash)
      && sign(ClaimsFor(FindUserByEmail(users, body.email.value).value, now)).Some?
    ensures r.LoggedIn? ==>
      var u := FindUserByEmail(users, body.email.value).value;
      r.token == sign(ClaimsFor(u, now)).value && r.user == RegisterRoute.Public(u)
    ensures r.LoginError? ==> r.status in {400, 401, 500}
  {
    match body
    case InvalidJson => LoginError(400, InvalidJsonBody)
    case LoginJson(email, password) =>
      if !Truthy(email) || !Truthy(password) then LoginError(400, MissingCredentials)
      else if fault.Some? then LoginError(500, LoginFailed)
      else match FindUserByEmail(users, email.value)
        case None => LoginError(401, InvalidCredentials)
        case Some(u) =>
          if !compare(password.value, u.passwordHash) then LoginError(401, InvalidCredentials)
          else match sign(ClaimsFor(u, now))
            case None => LoginError(500, LoginFailed)
            case Some(token) => LoggedIn(token, RegisterRoute.Public(u))
  }

  /**
   * An unknown email and a wrong password get the same response, so a caller cannot
   * tell which accounts exist.
   */
  lemma UnknownEmailLikeWrongPassword(email: string, password: string, users: map<int, User>,
                                      compare: (string, string) -> bool, sign: Claims -> Option<string>, now: int)
    requires UsersWellFormed(users)
    requires email != "" && password != ""
    requires FindUserByEmail(users, email).None? || !compare(password, FindUserByEmail(users, email).value.passwordHash)
    ensures Login(LoginJson(Some(email), Some(password)), users, compare, sign, now, None)
      == LoginError(401, InvalidCredentials)
  {
  }

  /**
   * With a sound bcrypt, a user who has just registered can log in with the same
   * email and password, and is shown the record registration returned.
   */
  lemma RegisterThenLogin(name: string, email: string, password: string, users: map<int, User>, nextId: int,
                          hash: (string, string) -> string, compare: (string, string) -> bool, salt: string,
                          registeredAt: int, sign: Claims -> Option<string>, now: int)
    requires UsersWellFormed(users) && forall id | id in users :: id < nextId
    requires Sound(hash, compare)
    requires forall c: Claims :: sign(c).Some?
    requires RegisterRoute.Register(RegisterRoute.RegisterJson(Some(name), Some(email), Some(password)),
                                    users, nextId, hash, salt, registeredAt, None, None).response.Registered?
    ensures var reg := RegisterRoute.Register(RegisterRoute.RegisterJson(Some(name), Some(email), Some(password)),
                                              users, nextId, hash, salt, registeredAt, None, None);
      var r := Login(LoginJson(Some(email), Some(password)), reg.users, compare, sign, now, None);
      r.LoggedIn? && r.user == reg.response.user
  {
    var reg := RegisterRoute.Register(RegisterRoute.RegisterJson(Some(name), Some(email), Some(password)),
                                      users, nextId, hash, salt, registeredAt, None, None);
    var u := User(nextId, name, email, hash(password, salt), registeredAt, None, None, None);
    assert reg.users == users[nextId := u];
    assert reg.users[nextId].email == email;
    assert FindUserByEmail(reg.users, email) == Some(u);
    assert compare(password, hash(password, salt));
  }

  /**
   * The token issued at login identifies its user to every protected route: the
   * `id` claim parses back to the user's id.
   */
  lemma LoginTokenIdentifiesUser(body: LoginBody, users: map<int, User>, compare: (string, string) -> bool,
                                 sign: Claims -> Option<string>, now: int, verify: string -> VerifyOutcome)
    requires UsersWellFormed(users)
    requires Login(body, users, compare, sign, now, None).LoggedIn?
    requires var r := Login(body, users, compare, sign, now, None);
      verify(r.token) == Verified(ClaimsFor(FindUserByEmail(users, body.email.value).value, now))
    ensures var r := Login(body, users, compare, sign, now, None);
      ServerAuth.GetUserIdFromRequest(Some(ServerAuth.BearerPrefix + r.token), verify) == Some(Int(r.user.id))
  {
    var r := Login(body, users, compare, sign, now, None);
    ServerAuth.BearerTokenOfHeader(r.token);
    ParseIntOfIntToString(r.user.id);
  }
}
