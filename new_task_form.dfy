/**
 * The new-task form (`src/app/dashboard/components/NewTaskForm.tsx`): loads the
 * projects to choose from, checks the title and the chosen project, and posts the
 * task with a trimmed title, an optional trimmed description, the project id as a
 * number and the chosen status.
 */
module NewTaskForm {
  import opened Wrappers
  import opened Js
  import opened FormRequests
  import opened LocalStorage
  import opened Store
  import AuthUtils
  import ServerAuth
  import TasksRoute
  import TaskList

  const TitleRequired: string := "Task title is required"
  const ProjectRequired: string := "Please select a project"
  const CreateFailed: string := "Failed to create task"
  const LoadFailed: string := "Failed to load projects"

  /** The statuses the `<select>` offers, in order, and the one it starts on. */
  const StatusOptions: seq<string> := ["backlog", "todo", "inprogress"]
  const DefaultStatus: string := "todo"

  /** The checks of `handleSubmit`, in order: the message, or `None` to go on. */
  function TaskCheck(title: string, projectId: string): Option<string> {
    if Trim(title) == "" then Some(TitleRequired)
    else if projectId == "" then Some(ProjectRequired)
    else None
  }

  /**
   * A blank title (one whose trim is empty) is refused first, a missing project
   * second, and nothing else is refused.
   */
  lemma TaskCheckOrder(title: string, projectId: string)
    ensures TaskCheck(title, projectId) == None <==> !IsBlank(title) && projectId != ""
    ensures TaskCheck(title, projectId) == Some(TitleRequired) <==> IsBlank(title)
    ensures TaskCheck(title, projectId) == Some(ProjectRequired) <==> !IsBlank(title) && projectId == ""
  {
    TrimBlank(title);
  }

  /** The body posted: `description` is `null` when blank, `projectId` is `parseInt`'s number. */
  datatype NewTask = NewTask(title: string, description: Option<string>, projectId: JsNumber, status: string)

  function TaskBodyOf(title: string, description: string, projectId: string, status: string): NewTask {
    var d := Trim(description);
    NewTask(Trim(title), if d == "" then None else Some(d), ParseInt(projectId), status)
  }

  /** `description` is left out (`null`) exactly when it is blank; otherwise it is trimmed. */
  lemma TaskBodyDescription(title: string, description: string, projectId: string, status: string)
    ensures var b := TaskBodyOf(title, description, projectId, status);
      && (b.description == None <==> IsBlank(description))
      && (b.description.Some? ==> b.description.value == Trim(description) && !IsWhitespace(b.description.value[0]))
  {
    TrimBlank(description);
  }

  /** `JSON.stringify` of the body as the route parses it: `null` and `NaN` both arrive as `null`. */
  function AsRequestBody(b: NewTask): TasksRoute.TaskBody {
    TasksRoute.TaskJson(
      JString(b.title),
      if b.description.Some? then JString(b.description.value) else JNull,
      if b.projectId.Int? then JNumber(b.projectId.value) else JNull,
      JString(b.status))
  }

  /**
   * What the form sends for a chosen project is what the route stores: the
   * trimmed title, the trimmed description (or none), the chosen project and the
   * chosen status, assigned to the caller.
   */
  lemma StoredAsEntered(title: string, description: string, pid: int, status: string,
                        caller: Option<JsNumber>, users: map<int, User>, projects: map<int, Project>,
                        tasks: map<int, Task>, nextId: int, now: int)
    requires TaskCheck(title, IntToString(pid)) == None
    requires ServerAuth.Authenticated(caller) && caller.value.value in users
    requires pid != 0 && pid in projects && status in StatusOptions
    ensures var body := AsRequestBody(TaskBodyOf(title, description, IntToString(pid), status));
      var r := TasksRoute.CreateTask(caller, body, users, projects, tasks, nextId, now, false, false);
      && r.response.TaskCreated?
      && var t := r.response.task;
         && t.title == Trim(title) && t.projectId == pid && t.status == status
         && t.assigneeId == caller.value.value
         && (IsBlank(description) <==> t.description == None)
         && (t.description.Some? ==> t.description.value == Trim(description))
  {
    var b := TaskBodyOf(title, description, IntToString(pid), status);
    TaskBodyDescription(title, description, IntToString(pid), status);
    ChosenProjectBody(title, description, pid, status);
    var body := AsRequestBody(b);
    TasksRoute.StatusStoredAsSent(caller, b.title, body.description, pid, status, users, projects, tasks, nextId, now);
  }

  /** The posted body for a project chosen from the list: a non-empty title and the project's number. */
  lemma ChosenProjectBody(title: string, description: string, pid: int, status: string)
    requires TaskCheck(title, IntToString(pid)) == None
    ensures var b := TaskBodyOf(title, description, IntToString(pid), status);
      && b.title == Trim(title) && b.title != ""
      && AsRequestBody(b) == TasksRoute.TaskJson(JString(b.title), AsRequestBody(b).description, JNumber(pid), JString(status))
      && TasksRoute.DescriptionOf(AsRequestBody(b).description) == Some(b.description)
  {
    ParseIntOfIntToString(pid);
  }

  /** Every status the form offers is one the task list shows a section for. */
  lemma OfferedStatusesListed(tasks: seq<TaskList.ListTask>, x: TaskList.ListTask)
    requires x in tasks && x.status in StatusOptions
    ensures exists s | s in TaskList.Sections(tasks) :: x in s.tasks
  {
    TaskList.SectionsShow(tasks, x);
  }

  /** The default is one of the options, and `"done"` is not offered. */
  lemma DefaultOffered()
    ensures DefaultStatus in StatusOptions && "done" !in StatusOptions
  {
    assert StatusOptions[1] == DefaultStatus;
  }

  /** A project as the list shows it. */
  datatype ProjectChoice = ProjectChoice(id: int, name: string)

  /** The answer to `GET /api/projects`: `data.projects` may be missing. */
  datatype ProjectsAnswer =
    | ProjectsOk(projects: Option<seq<ProjectChoice>>)
    | ProjectsRefused
    | ProjectsThrow

  class Form {
    var title: string
    var description: string
    var projectId: string
    var status: string
    var projects: seq<ProjectChoice>
    var loading: bool
    var loadingProjects: bool
    var error: Option<string>
    /** The bodies posted to `/api/tasks`, in order. */
    var sent: seq<NewTask>
    /** How many times `onSuccess` was called. */
    var successes: nat

    constructor ()
      ensures title == "" && description == "" && projectId == "" && status == DefaultStatus
      ensures projects == [] && !loading && loadingProjects && error == None && sent == [] && successes == 0
    {
      title, description, projectId, status := "", "", "", DefaultStatus;
      projects := [];
      loading, loadingProjects := false, true;
      error := None;
      sent, successes := [], 0;
    }

    /** `fetchProjects` on mount: afterwards the list is no longer loading. */
    method LoadProjects(window: Storage?, answer: ProjectsAnswer)
      modifies this
      ensures !loadingProjects
      ensures !Truthy(AuthUtils.GetStoredToken(window)) ==> error == Some(NoAuthToken) && projects == old(projects)
      ensures Truthy(AuthUtils.GetStoredToken(window)) && answer.ProjectsOk? ==>
        projects == answer.projects.GetOr([]) && error == old(error)
      ensures Truthy(AuthUtils.GetStoredToken(window)) && !answer.ProjectsOk? ==>
        error == Some(LoadFailed) && projects == old(projects)
      ensures unchanged(this`title, this`description, this`projectId, this`status)
      ensures unchanged(this`loading, this`sent, this`successes)
    {
      var token := AuthUtils.GetStoredToken(window);
      if !Truthy(token) {
        error := Some(NoAuthToken);
        loadingProjects := false;
        return;
      }
      if answer.ProjectsOk? {
        projects := answer.projects.GetOr([]);
      } else {
        error := Some(LoadFailed);
      }
      loadingProjects := false;
    }

    /**
     * The synchronous start of `handleSubmit`: the error is cleared, then the
     * checks run; passing them sets `loading`.
     */
    method Validate() returns (proceed: bool)
      modifies this
      ensures proceed <==> TaskCheck(title, projectId) == None
      ensures error == TaskCheck(title, projectId)
      ensures loading == (proceed || old(loading))
      ensures unchanged(this`title, this`description, this`projectId, this`status)
      ensures unchanged(this`projects, this`loadingProjects, this`sent, this`successes)
    {
      error := None;
      var check := TaskCheck(title, projectId);
      if check.Some? {
        error := check;
        return false;
      }
      loading := true;
      return true;
    }

    /**
     * The `try` block of `handleSubmit` and its `finally`: no request without a
     * token; `loading` is cleared on every path.
     */
    method Send(window: Storage?, answer: Answer)
      modifies this
      ensures !loading
      ensures !Truthy(AuthUtils.GetStoredToken(window)) ==>
        error == Some(NoAuthToken) && sent == old(sent) && successes == old(successes)
      ensures Truthy(AuthUtils.GetStoredToken(window)) ==>
        sent == old(sent) + [TaskBodyOf(old(title), old(description), old(projectId), old(status))]
      ensures Truthy(AuthUtils.GetStoredToken(window)) && answer.AnswerOk? ==>
        successes == old(successes) + 1 && error == old(error)
      ensures Truthy(AuthUtils.GetStoredToken(window)) && !answer.AnswerOk? ==>
        successes == old(successes) && error == Some(FailureMessage(answer, CreateFailed, CreateFailed))
      ensures unchanged(this`title, this`description, this`projectId, this`status)
      ensures unchanged(this`projects, this`loadingProjects)
    {
      var body := TaskBodyOf(title, description, projectId, status);
      var token := AuthUtils.GetStoredToken(window);
      if !Truthy(token) {
        error := Some(NoAuthToken);
        loading := false;
        return;
      }
      sent := sent + [body];
      if answer.AnswerOk? {
        successes := successes + 1;
      } else {
        error := Some(FailureMessage(answer, CreateFailed, CreateFailed));
      }
      loading := false;
    }

    /** `handleSubmit`: a request goes out only when both checks pass and a token is stored. */
    method Submit(window: Storage?, answer: Answer)
      modifies this
      ensures var check := TaskCheck(title, projectId);
        var token := Truthy(AuthUtils.GetStoredToken(window));
        && (check.Some? ==> error == check && sent == old(sent) && successes == old(successes) && loading == old(loading))
        && (check.None? ==> !loading)
        && (check.None? && !token ==> error == Some(NoAuthToken) && sent == old(sent))
        && (check.None? && token ==> sent == old(sent) + [TaskBodyOf(title, description, projectId, status)])
        && (check.None? && token && answer.AnswerOk? ==> successes == old(successes) + 1 && error == None)
        && (check.None? && token && !answer.AnswerOk? ==>
              error == Some(FailureMessage(answer, CreateFailed, CreateFailed)))
        && successes == old(successes) + (if check.None? && token && answer.AnswerOk? then 1 else 0)
      ensures unchanged(this`title, this`description, this`projectId, this`status, this`projects, this`loadingProjects)
    {
      var proceed := Validate();
      if proceed {
        Send(window, answer);
      }
    }
  }
}
