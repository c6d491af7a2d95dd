/**
 * The dashboard's task list (`src/app/dashboard/components/TaskList.tsx`): open
 * tasks grouped by status, each with a checkbox that marks it done on the server
 * and then takes it off the list.
 */
module TaskList {
  import opened Wrappers
  import opened Js
  import opened LocalStorage
  import AuthUtils

  datatype ListTask = ListTask(id: int, title: string, status: string, projectName: string)

  const ZephyronHubColor: string := "bg-blue-500 text-white"
  const GridtimeColor: string := "bg-purple-500 text-white"
  const DefaultColor: string := "bg-gray-600 text-white"

  /** `getProjectColor`: the badge colour keyed by the lower-cased project name. */
  function ProjectColor(projectName: string): string {
    var normalized := ToLowerAscii(projectName);
    if normalized == "zephyron hub" then ZephyronHubColor
    else if normalized == "gridtime" then GridtimeColor
    else DefaultColor
  }

  /** The two known projects are recognised whatever their letter case; any other name gets the default. */
  lemma ProjectColorIgnoresCase(projectName: string)
    ensures ProjectColor(projectName) == ProjectColor(ToLowerAscii(projectName))
    ensures ProjectColor(projectName) == ZephyronHubColor <==> ToLowerAscii(projectName) == "zephyron hub"
    ensures ProjectColor(projectName) == GridtimeColor <==> ToLowerAscii(projectName) == "gridtime"
  {
    LowerAsciiIdempotent(projectName);
  }

  lemma {:induction false} LowerAsciiIdempotent(s: string)
    ensures ToLowerAscii(ToLowerAscii(s)) == ToLowerAscii(s)
  {
    var t := ToLowerAscii(s);
    assert forall k | 0 <= k < |t| :: LowerAscii(t[k]) == t[k];
  }

  /** `tasks.filter((task) => task.status === status)`. */
  function ByStatus(tasks: seq<ListTask>, status: string): (r: seq<ListTask>)
    ensures forall x :: x in r <==> x in tasks && x.status == status
    ensures |r| <= |tasks|
  {
    if tasks == [] then []
    else (if tasks[0].status == status then [tasks[0]] else []) + ByStatus(tasks[1..], status)
  }

  datatype Section = Section(title: string, tasks: seq<ListTask>)

  /** The sections rendered, in order; an empty one is not rendered. */
  function Sections(tasks: seq<ListTask>): seq<Section> {
    var all := [ Section("In Progress", ByStatus(tasks, "inprogress")),
                 Section("To Do", ByStatus(tasks, "todo")),
                 Section("Backlog", ByStatus(tasks, "backlog")) ];
    (if all[0].tasks != [] then [all[0]] else [])
    + (if all[1].tasks != [] then [all[1]] else [])
    + (if all[2].tasks != [] then [all[2]] else [])
  }

  /**
   * A task is shown exactly when its status is in progress, to do or backlog, and
   * then in the one section for that status; a done task is never shown.
   */
  lemma SectionsShow(tasks: seq<ListTask>, x: ListTask)
    requires x in tasks
    ensures (exists s | s in Sections(tasks) :: x in s.tasks) <==> x.status in {"inprogress", "todo", "backlog"}
    ensures forall s | s in Sections(tasks) && x in s.tasks ::
      s.title == (if x.status == "inprogress" then "In Progress" else if x.status == "todo" then "To Do" else "Backlog")
  {
    var secs := Sections(tasks);
    if x.status == "inprogress" {
      assert secs[0] == Section("In Progress", ByStatus(tasks, "inprogress"));
    } else if x.status == "todo" {
      assert Section("To Do", ByStatus(tasks, "todo")) in secs;
    } else if x.status == "backlog" {
      assert Section("Backlog", ByStatus(tasks, "backlog")) in secs;
    }
  }

  /** `tasks.filter((task) => task.id !== id)`. */
  function Without(tasks: seq<ListTask>, id: int): (r: seq<ListTask>)
    ensures forall x :: x in r <==> x in tasks && x.id != id
  {
    if tasks == [] then []
    else (if tasks[0].id != id then [tasks[0]] else []) + Without(tasks[1..], id)
  }

  /** Every copy of a kept task is kept, and nothing else: the filter as a multiset. */
  lemma {:induction false} WithoutCounts(tasks: seq<ListTask>, id: int)
    ensures forall x :: multiset(Without(tasks, id))[x] == if x.id != id then multiset(tasks)[x] else 0
  {
    if tasks != [] {
      WithoutCounts(tasks[1..], id);
      assert tasks == [tasks[0]] + tasks[1..];
    }
  }

  /** The other tasks keep their order: removing from a concatenation removes from each part. */
  lemma {:induction false} WithoutAppend(a: seq<ListTask>, b: seq<ListTask>, id: int)
    ensures Without(a + b, id) == Without(a, id) + Without(b, id)
  {
    if a == [] {
      assert a + b == b;
    } else {
      assert (a + b)[1..] == a[1..] + b;
      WithoutAppend(a[1..], b, id);
    }
  }

  /** Removing a task keeps the others in their order: removing it again changes nothing. */
  lemma {:induction false} WithoutIdempotent(tasks: seq<ListTask>, id: int)
    ensures Without(Without(tasks, id), id) == Without(tasks, id)
  {
    if tasks != [] {
      WithoutIdempotent(tasks[1..], id);
      if tasks[0].id != id {
        assert ([tasks[0]] + Without(tasks[1..], id))[1..] == Without(tasks[1..], id);
      } else {
        assert Without(tasks, id) == Without(tasks[1..], id);
      }
    }
  }

  /** The answer to the `PATCH` marking a task done. */
  datatype CompleteOutcome = CompleteOk | CompleteNotOk | CompleteThrows

  class List {
    var tasks: seq<ListTask>
    var completingIds: set<int>
    /** The ids `PATCH`ed with `{ status: "done" }`, in order. */
    var sent: seq<int>

    constructor (initialTasks: seq<ListTask>)
      ensures tasks == initialTasks && completingIds == {} && sent == []
    {
      tasks := initialTasks;
      completingIds := {};
      sent := [];
    }

    /**
     * The first step of `handleCompleteTask`: the id joins the completing set,
     * which greys the row and disables its box.
     */
    method BeginComplete(id: int)
      modifies this
      ensures completingIds == old(completingIds) + {id}
      ensures tasks == old(tasks) && sent == old(sent)
    {
      completingIds := completingIds + {id};
    }

    /**
     * The rest of `handleCompleteTask`, the 300 ms timer included: the id leaves the
     * completing set whatever happens, and the task leaves the list only when the
     * server accepted.
     */
    method SettleComplete(id: int, window: Storage?, outcome: CompleteOutcome)
      modifies this
      ensures completingIds == old(completingIds) - {id}
      ensures !Truthy(AuthUtils.GetStoredToken(window)) ==> sent == old(sent) && tasks == old(tasks)
      ensures Truthy(AuthUtils.GetStoredToken(window)) ==>
        && sent == old(sent) + [id]
        && tasks == if outcome == CompleteOk then Without(old(tasks), id) else old(tasks)
    {
      var token := AuthUtils.GetStoredToken(window);
      if !Truthy(token) {
        completingIds := completingIds - {id};
        return;
      }
      sent := sent + [id];
      if outcome != CompleteOk {
        completingIds := completingIds - {id};
        return;
      }
      tasks := Without(tasks, id);
      completingIds := completingIds - {id};
    }

    /** `handleCompleteTask(id)` from the click to the end of the timer. */
    method CompleteTask(id: int, window: Storage?, outcome: CompleteOutcome)
      modifies this
      ensures completingIds == old(completingIds) - {id}
      ensures var accepted := Truthy(AuthUtils.GetStoredToken(window)) && outcome == CompleteOk;
        tasks == if accepted then Without(old(tasks), id) else old(tasks)
      ensures sent == old(sent) + if Truthy(AuthUtils.GetStoredToken(window)) then [id] else []
    {
      BeginComplete(id);
      SettleComplete(id, window, outcome);
    }
  }
}
