/**
 * The database behind the API routes: users (with their Microsoft link fields),
 * projects and tasks, each keyed by an auto-incremented id. Emails are unique.
 * Timestamps are integers in milliseconds.
 */
module Store {
  import opened Wrappers

  datatype User = User(
    id: int,
    name: string,
    email: string,
    passwordHash: string,
    createdAt: int,
    msAccessToken: Option<string>,
    msRefreshToken: Option<string>,
    msTokenExpiry: Option<int>)

  datatype Project = Project(id: int, name: string, description: Option<string>)

  datatype Task = Task(
    id: int,
    title: string,
    description: Option<string>,
    status: string,
    projectId: int,
    assigneeId: int,
    createdAt: int)

  /** Each user is stored under its own id, and no two users share an email. */
  predicate UsersWellFormed(users: map<int, User>) {
    && (forall id | id in users :: users[id].id == id)
    && (forall a, b | a in users && b in users && users[a].email == users[b].email :: a == b)
  }

  /** `prisma.user.findUnique({ where: { email } })`. */
  function FindUserByEmail(users: map<int, User>, email: string): (r: Option<User>)
    requires UsersWellFormed(users)
    ensures r.Some? <==> exists id | id in users :: users[id].email == email
    ensures r.Some? ==> r.value.id in users && users[r.value.id] == r.value && r.value.email == email
  {
    if exists id | id in users :: users[id].email == email then
      var id :| id in users && users[id].email == email;
      Some(users[id])
    else None
  }

  /** `prisma.user.findUnique({ where: { id } })`. */
  function FindUser(users: map<int, User>, id: int): (r: Option<User>)
    ensures r.Some? <==> id in users
    ensures r.Some? ==> r.value == users[id]
  {
    if id in users then Some(users[id]) else None
  }

  /** Adding a user under a fresh id with a fresh email keeps the users well formed. */
  lemma InsertUserWellFormed(users: map<int, User>, u: User)
    requires UsersWellFormed(users)
    requires u.id !in users
    requires forall id | id in users :: users[id].email != u.email
    ensures UsersWellFormed(users[u.id := u])
  {
  }

  /** Changing fields other than id and email keeps the users well formed. */
  lemma ReplaceUserWellFormed(users: map<int, User>, u: User)
    requires UsersWellFormed(users)
    requires u.id in users && users[u.id].email == u.email
    ensures UsersWellFormed(users[u.id := u])
  {
  }

  class Database {
    var users: map<int, User>
    var projects: map<int, Project>
    var tasks: map<int, Task>
    /** The id the next created user receives. */
    var nextUserId: int
    /** The id the next created task receives. */
    var nextTaskId: int

    ghost predicate Valid()
      reads this
    {
      && UsersWellFormed(users)
      && (forall id | id in users :: id < nextUserId)
      && (forall id | id in projects :: projects[id].id == id)
      && (forall id | id in tasks :: tasks[id].id == id && id < nextTaskId)
    }

    constructor ()
      ensures Valid()
      ensures users == map[] && projects == map[] && tasks == map[]
    {
      users := map[];
      projects := map[];
      tasks := map[];
      nextUserId := 1;
      nextTaskId := 1;
    }
  }
}
