/**
 * `POST /api/auth/register` (`src/app/api/auth/register/route.ts`): an ordered chain
 * of checks on the JSON body, then the creation of one user whose password is
 * stored only as its bcrypt hash.
 */
module RegisterRoute {
  import opened Wrappers
  import opened Js
  import opened Store
  import opened AuthUtils

  /** The request body: unparsable JSON, or the three fields (`None` when absent). */
  datatype RegisterBody =
    | InvalidJson
    | RegisterJson(name: Option<string>, email: Option<string>, password: Option<string>)

  /** A user as the API shows it: every field but the password hash. */
  datatype PublicUser = PublicUser(id: int, name: string, email: string, createdAt: int)

  function Public(u: User): (p: PublicUser)
    ensures p.id == u.id && p.name == u.name && p.email == u.email && p.createdAt == u.createdAt
  {
    PublicUser(u.id, u.name, u.email, u.createdAt)
  }

  datatype RegisterResponse =
    | Registered(user: PublicUser)
    | RegisterError(status: int, error: string)

  const InvalidJsonBody: string := "Invalid JSON in request body"
  const MissingFields: string := "Missing required fields"
  const InvalidEmail: string := "Invalid email format"
  const EmailTaken: string := "User with this email already exists"
  const RegistrationFailed: string := "An error occurred during registration"

  /** The outcome of the checks: a rejection, or the fields of the user to create. */
  datatype Checked =
    | Reject(response: RegisterResponse)
    | Accept(name: string, email: string, password: string)

  /** The checks on the body alone, in the order the handler makes them, before any lookup. */
  function CheckFields(body: RegisterBody): (c: Checked)
    ensures body.InvalidJson? ==> c == Reject(RegisterError(400, InvalidJsonBody))
    ensures body.RegisterJson? && !(Truthy(body.name) && Truthy(body.email) && Truthy(body.password)) ==>
      c == Reject(RegisterError(400, MissingFields))
    ensures body.RegisterJson? && Truthy(body.name) && Truthy(body.email) && Truthy(body.password) ==>
      && (!ValidateEmail(body.email.value) ==> c == Reject(RegisterError(400, InvalidEmail)))
      && (ValidateEmail(body.email.value) && |body.password.value| < 6 ==> c == Reject(RegisterError(400, PasswordTooShort)))
    ensures c.Accept? <==>
      && body.RegisterJson? && Truthy(body.name) && Truthy(body.email) && Truthy(body.password)
      && ValidateEmail(body.email.value) && |body.password.value| >= 6
    ensures c.Accept? ==> c == Accept(body.name.value, body.email.value, body.password.value)
    ensures c.Reject? ==> c.response.RegisterError? && c.response.status == 400
  {
    match body
    case InvalidJson => Reject(RegisterError(400, InvalidJsonBody))
    case RegisterJson(name, email, password) =>
      if !Truthy(name) || !Truthy(email) || !Truthy(password) then Reject(RegisterError(400, MissingFields))
      else if !ValidateEmail(email.value) then Reject(RegisterError(400, InvalidEmail))
      else if |password.value| < 6 then Reject(RegisterError(400, PasswordTooShort))
      else Accept(name.value, email.value, password.value)
  }

  /** The checks in the order the handler makes them: the body, then the email lookup. */
  function CheckRegistration(body: RegisterBody, users: map<int, User>): (c: Checked)
    requires UsersWellFormed(users)
    ensures body.InvalidJson? ==> c == Reject(RegisterError(400, InvalidJsonBody))
    ensures body.RegisterJson? && !(Truthy(body.name) && Truthy(body.email) && Truthy(body.password)) ==>
      c == Reject(RegisterError(400, MissingFields))
    ensures body.RegisterJson? && Truthy(body.name) && Truthy(body.email) && Truthy(body.password) ==>
      && (!ValidateEmail(body.email.value) ==> c == Reject(RegisterError(400, InvalidEmail)))
      && (ValidateEmail(body.email.value) && |body.password.value| < 6 ==> c == Reject(RegisterError(400, PasswordTooShort)))
      && (ValidateEmail(body.email.value) && |body.password.value| >= 6 && FindUserByEmail(users, body.email.value).Some? ==>
            c == Reject(RegisterError(409, EmailTaken)))
    ensures c.Accept? <==>
      && body.RegisterJson? && Truthy(body.name) && Truthy(body.email) && Truthy(body.password)
      && ValidateEmail(body.email.value) && |body.password.value| >= 6
      && FindUserByEmail(users, body.email.value).None?
    ensures c.Accept? ==> c == Accept(body.name.value, body.email.value, body.password.value)
    ensures c.Reject? ==> c.response.RegisterError? && c.response.status in {400, 409}
  {
    match CheckFields(body)
    case Reject(response) => Reject(response)
    case Accept(name, email, password) =>
      if FindUserByEmail(users, email).Some? then Reject(RegisterError(409, EmailTaken))
      else Accept(name, email, password)
  }

  /** The `catch` block for a store error: a unique-constraint violation is a conflict. */
  function StoreErrorResponse(message: string): (r: RegisterResponse)
    ensures r.RegisterError?
    ensures r.status == 409 <==> Includes(message, "Unique constraint failed")
    ensures r.status != 409 ==> r == RegisterError(500, RegistrationFailed)
  {
    if Includes(message, "Unique constraint failed") then RegisterError(409, EmailTaken)
    else RegisterError(500, RegistrationFailed)
  }

  datatype RegisterResult = RegisterResult(response: RegisterResponse, users: map<int, User>)

  /**
   * The whole handler on the users table. `nextId` is the id the store assigns next,
   * `hash(password, salt)` stands for `bcrypt.hash(password, 10)`; `readFault` and
   * `writeFault` are the messages of errors the store's email lookup and insert
   * throw, if they do.
   */
  function Register(body: RegisterBody, users: map<int, User>, nextId: int, hash: (string, string) -> string,
                    salt: string, now: int, readFault: Option<string>, writeFault: Option<string>): (r: RegisterResult)
    requires UsersWellFormed(users) && forall id | id in users :: id < nextId
    ensures UsersWellFormed(r.users)
    ensures CheckFields(body).Reject? ==> r == RegisterResult(CheckFields(body).response, users)
    ensures CheckFields(body).Accept? && readFault.Some? ==>
      r == RegisterResult(StoreErrorResponse(readFault.value), users)
    ensures readFault.None? && CheckRegistration(body, users).Reject? ==>
      r == RegisterResult(CheckRegistration(body, users).response, users)
    ensures readFault.None? && CheckRegistration(body, users).Accept? && writeFault.Some? ==>
      r == RegisterResult(StoreErrorResponse(writeFault.value), users)
    ensures r.response.Registered? <==> CheckRegistration(body, users).Accept? && readFault.None? && writeFault.None?
    ensures !r.response.Registered? ==> r.users == users
    ensures r.response.Registered? ==>
      var c := CheckRegistration(body, users);
      var u := User(nextId, c.name, c.email, hash(c.password, salt), now, None, None, None);
      r.users == users[nextId := u] && r.response.user == Public(u)
  {
    match CheckFields(body)
    case Reject(response) => RegisterResult(response, users)
    case Accept(name, email, password) =>
      if readFault.Some? then RegisterResult(StoreErrorResponse(readFault.value), users)
      else if FindUserByEmail(users, email).Some? then RegisterResult(RegisterError(409, EmailTaken), users)
      else if writeFault.Some? then RegisterResult(StoreErrorResponse(writeFault.value), users)
      else
        var u := User(nextId, name, email, hash(password, salt), now, None, None, None);
        InsertUserWellFormed(users, u);
        RegisterResult(Registered(Public(u)), users[nextId := u])
  }

  /**
   * A successful registration adds exactly one user, unlinked, whose stored
   * password is the hash of the one sent, and leaves every other user as it was.
   */
  lemma RegisterStoresOnlyHash(body: RegisterBody, users: map<int, User>, nextId: int,
                               hash: (string, string) -> string, salt: string, now: int)
    requires UsersWellFormed(users) && forall id | id in users :: id < nextId
    requires Register(body, users, nextId, hash, salt, now, None, None).response.Registered?
    ensures var r := Register(body, users, nextId, hash, salt, now, None, None);
      && r.users.Keys == users.Keys + {nextId}
      && (forall id | id in users :: r.users[id] == users[id])
      && r.users[nextId].passwordHash == hash(body.password.value, salt)
      && r.users[nextId].msRefreshToken.None? && r.users[nextId].msAccessToken.None?
  {
  }

  /** `POST(request)` on the database: the store changes only on success, by one user. */
  method Post(db: Database, body: RegisterBody, hash: (string, string) -> string, salt: string, now: int,
              readFault: Option<string>, writeFault: Option<string>) returns (response: RegisterResponse)
    requires db.Valid()
    modifies db
    ensures db.Valid()
    ensures var r := Register(body, old(db.users), old(db.nextUserId), hash, salt, now, readFault, writeFault);
      response == r.response && db.users == r.users
    ensures db.nextUserId == if response.Registered? then old(db.nextUserId) + 1 else old(db.nextUserId)
    ensures db.projects == old(db.projects) && db.tasks == old(db.tasks) && db.nextTaskId == old(db.nextTaskId)
  {
    var r := Register(body, db.users, db.nextUserId, hash, salt, now, readFault, writeFault);
    response := r.response;
    if response.Registered? {
      db.users := r.users;
      db.nextUserId := db.nextUserId + 1;
    }
  }
}
