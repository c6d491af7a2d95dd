/**
 * `POST /api/tasks` (`src/app/api/tasks/route.ts`): creates a task in an existing
 * project, assigned to the caller.
 */
module TasksRoute {
  import opened Wrappers
  import opened Js
  import opened Store
  import ServerAuth

  /** The request body: not JSON, or the four fields (a missing field is `JNull`). */
  datatype TaskBody =
    | InvalidJson
    | TaskJson(title: JsonValue, description: JsonValue, projectId: JsonValue, status: JsonValue)

  /** The `assignee` of the response: id, name and email only. */
  datatype Assignee = Assignee(id: int, name: string, email: string)

  datatype TaskResponse =
    | TaskCreated(task: Task, project: Project, assignee: Assignee)
    | TaskError(status: int, error: string)

  const Unauthorized: string := "Unauthorized - please login"
  const MissingFields: string := "Title and project are required"
  const ProjectNotFound: string := "Project not found"
  const InvalidJsonBody: string := "Invalid JSON in request body"
  const CreateFailed: string := "An error occurred while creating the task"

  /** `description || null`, where a truthy value that is not a string makes the store throw. */
  function DescriptionOf(v: JsonValue): Option<Option<string>> {
    if !JsonTruthy(v) then Some(None)
    else if v.JString? then Some(Some(v.s))
    else None
  }

  /** `status || "todo"`, where a truthy value that is not a string makes the store throw. */
  function StatusOf(v: JsonValue): Option<string> {
    if !JsonTruthy(v) then Some("todo")
    else if v.JString? then Some(v.s)
    else None
  }

  datatype TaskResult = TaskResult(response: TaskResponse, tasks: map<int, Task>)

  /**
   * The handler on the store. `nextId` is the id the store assigns next; the store
   * throws (and the handler answers 500) when `readFault` or `writeFault` holds,
   * when the project id is `NaN`, when a field has the wrong type, and when the
   * caller has no user row to be the assignee.
   */
  function CreateTask(caller: Option<JsNumber>, body: TaskBody, users: map<int, User>,
                      projects: map<int, Project>, tasks: map<int, Task>, nextId: int, now: int,
                      readFault: bool, writeFault: bool): (r: TaskResult)
    ensures !r.response.TaskCreated? ==> r.tasks == tasks
    ensures !ServerAuth.Authenticated(caller) ==> r.response == TaskError(401, Unauthorized)
    ensures ServerAuth.Authenticated(caller) && body.InvalidJson? ==> r.response == TaskError(400, InvalidJsonBody)
    ensures ServerAuth.Authenticated(caller) && body.TaskJson? && (!JsonTruthy(body.title) || !JsonTruthy(body.projectId))
      ==> r.response == TaskError(400, MissingFields)
    ensures r.response == TaskError(404, ProjectNotFound) <==>
      && ServerAuth.Authenticated(caller) && body.TaskJson? && JsonTruthy(body.title) && JsonTruthy(body.projectId)
      && !readFault && ParseInt(JsonToString(body.projectId)).Int?
      && ParseInt(JsonToString(body.projectId)).value !in projects
    ensures r.response.TaskCreated? ==>
      && ServerAuth.Authenticated(caller) && body.TaskJson?
      && var t := r.response.task;
         && r.tasks == tasks[nextId := t] && t.id == nextId && t.createdAt == now
         && body.title == JString(t.title)
         && Int(t.projectId) == ParseInt(JsonToString(body.projectId)) && t.projectId in projects
         && r.response.project == projects[t.projectId]
         && t.assigneeId == caller.value.value && t.assigneeId in users
         && Some(t.description) == DescriptionOf(body.description)
         && Some(t.status) == StatusOf(body.status)
  {
    if !ServerAuth.Authenticated(caller) then TaskResult(TaskError(401, Unauthorized), tasks)
    else match body
      case InvalidJson => TaskResult(TaskError(400, InvalidJsonBody), tasks)
      case TaskJson(title, description, projectId, status) =>
        if !JsonTruthy(title) || !JsonTruthy(projectId) then TaskResult(TaskError(400, MissingFields), tasks)
        else
          match ParseInt(JsonToString(projectId))
          case NaN => TaskResult(TaskError(500, CreateFailed), tasks)
          case Int(pid) =>
            if readFault then TaskResult(TaskError(500, CreateFailed), tasks)
            else if pid !in projects then TaskResult(TaskError(404, ProjectNotFound), tasks)
            else
              var userId := caller.value.value;
              if writeFault || !title.JString? || DescriptionOf(description).None? || StatusOf(status).None?
                 || userId !in users then
                TaskResult(TaskError(500, CreateFailed), tasks)
              else
                var t := Task(nextId, title.s, DescriptionOf(description).value, StatusOf(status).value, pid, userId, now);
                var a := Assignee(userId, users[userId].name, users[userId].email);
                TaskResult(TaskCreated(t, projects[pid], a), tasks[nextId := t])
  }

  /** `POST(request)` on the database: one task is added on success and nothing else changes. */
  method Post(db: Database, caller: Option<JsNumber>, body: TaskBody, now: int, readFault: bool, writeFault: bool)
    returns (response: TaskResponse)
    requires db.Valid()
    modifies db
    ensures db.Valid()
    ensures var r := CreateTask(caller, body, old(db.users), old(db.projects), old(db.tasks), old(db.nextTaskId),
                                now, readFault, writeFault);
      response == r.response && db.tasks == r.tasks
    ensures db.nextTaskId == if response.TaskCreated? then old(db.nextTaskId) + 1 else old(db.nextTaskId)
    ensures db.users == old(db.users) && db.projects == old(db.projects) && db.nextUserId == old(db.nextUserId)
  {
    var r := CreateTask(caller, body, db.users, db.projects, db.tasks, db.nextTaskId, now, readFault, writeFault);
    response := r.response;
    if response.TaskCreated? {
      db.tasks := r.tasks;
      db.nextTaskId := db.nextTaskId + 1;
    }
  }

  /** A successful create adds exactly one task, under a fresh id, and keeps every other task. */
  lemma CreatesExactlyOne(caller: Option<JsNumber>, body: TaskBody, users: map<int, User>,
                          projects: map<int, Project>, tasks: map<int, Task>, nextId: int, now: int)
    requires forall id | id in tasks :: id < nextId
    requires CreateTask(caller, body, users, projects, tasks, nextId, now, false, false).response.TaskCreated?
    ensures var r := CreateTask(caller, body, users, projects, tasks, nextId, now, false, false);
      && nextId !in tasks
      && r.tasks.Keys == tasks.Keys + {nextId}
      && |r.tasks| == |tasks| + 1
      && forall id | id in tasks :: r.tasks[id] == tasks[id]
  {
    var r := CreateTask(caller, body, users, projects, tasks, nextId, now, false, false);
    assert nextId !in tasks;
    assert r.tasks.Keys == tasks.Keys + {nextId};
  }

  /**
   * Any non-empty status string is stored as sent: the route does not restrict it
   * to the board's columns. An absent or empty status becomes `"todo"`.
   */
  lemma StatusStoredAsSent(caller: Option<JsNumber>, title: string, description: JsonValue, pid: int,
                           status: string, users: map<int, User>, projects: map<int, Project>,
                           tasks: map<int, Task>, nextId: int, now: int)
    requires ServerAuth.Authenticated(caller) && caller.value.value in users
    requires title != "" && pid != 0 && pid in projects && DescriptionOf(description).Some?
    ensures var body := TaskJson(JString(title), description, JNumber(pid), JString(status));
      var r := CreateTask(caller, body, users, projects, tasks, nextId, now, false, false);
      r.response.TaskCreated? && r.response.task.status == (if status == "" then "todo" else status)
      && r.response.task.projectId == pid
  {
    ParseIntOfIntToString(pid);
  }
}
