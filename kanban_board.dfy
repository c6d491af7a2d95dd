/**
 * The Kanban board (`src/app/dashboard/components/KanbanBoard.tsx`): four status
 * columns over the component's `tasks` state, and dragging a card to another
 * column, which moves it at once and moves it back if the server refuses.
 */
module KanbanBoard {
  import opened Wrappers
  import opened Js
  import opened LocalStorage
  import AuthUtils

  datatype BoardTask = BoardTask(
    id: int,
    title: string,
    description: Option<string>,
    status: string,
    projectId: int,
    assigneeId: Option<int>)

  datatype Column = Column(id: string, title: string, color: string)

  const Columns: seq<Column> := [
    Column("backlog", "Backlog", "gray"),
    Column("todo", "To Do", "blue"),
    Column("inprogress", "In Progress", "yellow"),
    Column("done", "Done", "green")
  ]

  /** `tasks.find((t) => t.id === id)`. */
  function Find(tasks: seq<BoardTask>, id: int): (r: Option<BoardTask>)
    ensures r.Some? <==> exists k | 0 <= k < |tasks| :: tasks[k].id == id
    ensures r.Some? ==>
      exists k | 0 <= k < |tasks| ::
        tasks[k] == r.value && r.value.id == id && forall j | 0 <= j < k :: tasks[j].id != id
  {
    if tasks == [] then None
    else if tasks[0].id == id then Some(tasks[0])
    else
      var r := Find(tasks[1..], id);
      if r.Some? then
        var k :| 0 <= k < |tasks[1..]| && tasks[1..][k] == r.value && r.value.id == id
          && forall j | 0 <= j < k :: tasks[1..][j].id != id;
        assert tasks[k + 1] == r.value;
        r
      else
        r
  }

  /** `tasks.map((t) => (t.id === id ? { ...t, status } : t))`. */
  function WithStatus(tasks: seq<BoardTask>, id: int, status: string): (r: seq<BoardTask>)
    ensures |r| == |tasks|
    ensures forall k | 0 <= k < |tasks| :: r[k] == if tasks[k].id == id then tasks[k].(status := status) else tasks[k]
  {
    seq(|tasks|, k requires 0 <= k < |tasks| => if tasks[k].id == id then tasks[k].(status := status) else tasks[k])
  }

  /** `getTasksByStatus(status)`: the tasks in that column, in list order. */
  function ByStatus(tasks: seq<BoardTask>, status: string): (r: seq<BoardTask>)
    ensures forall x :: x in r <==> x in tasks && x.status == status
  {
    if tasks == [] then []
    else (if tasks[0].status == status then [tasks[0]] else []) + ByStatus(tasks[1..], status)
  }

  /** Every copy of a kept task is kept, and nothing else: the filter as a multiset. */
  lemma {:induction false} ByStatusCounts(tasks: seq<BoardTask>, status: string)
    ensures forall x :: multiset(ByStatus(tasks, status))[x] == if x.status == status then multiset(tasks)[x] else 0
  {
    if tasks != [] {
      ByStatusCounts(tasks[1..], status);
      assert tasks == [tasks[0]] + tasks[1..];
    }
  }

  /** The column keeps the list's order: filtering a concatenation concatenates the filtered parts. */
  lemma {:induction false} ByStatusAppend(a: seq<BoardTask>, b: seq<BoardTask>, status: string)
    ensures ByStatus(a + b, status) == ByStatus(a, status) + ByStatus(b, status)
  {
    if a == [] {
      assert a + b == b;
    } else {
      assert (a + b)[1..] == a[1..] + b;
      ByStatusAppend(a[1..], b, status);
    }
  }

  predicate UniqueIds(tasks: seq<BoardTask>) {
    forall i, j | 0 <= i < j < |tasks| :: tasks[i].id != tasks[j].id
  }

  /** A task shows in a column exactly when its status is that column's id, so in at most one. */
  lemma ColumnsPartition(tasks: seq<BoardTask>, x: BoardTask)
    requires x in tasks
    ensures forall c | c in Columns :: x in ByStatus(tasks, c.id) <==> x.status == c.id
    ensures (exists c | c in Columns :: x in ByStatus(tasks, c.id))
      <==> x.status in {"backlog", "todo", "inprogress", "done"}
  {
    assert Columns[0].id == "backlog" && Columns[1].id == "todo";
    assert Columns[2].id == "inprogress" && Columns[3].id == "done";
    if x.status in {"backlog", "todo", "inprogress", "done"} {
      var c :| c in Columns && c.id == x.status;
    }
  }

  /**
   * With unique ids, moving a task back to the status it had restores the list:
   * the revert after an optimistic update undoes it exactly.
   */
  lemma RevertRestores(tasks: seq<BoardTask>, id: int, status: string)
    requires UniqueIds(tasks) && Find(tasks, id).Some?
    ensures WithStatus(WithStatus(tasks, id, status), id, Find(tasks, id).value.status) == tasks
  {
    var t := Find(tasks, id).value;
    var k :| 0 <= k < |tasks| && tasks[k] == t && t.id == id;
    var r := WithStatus(WithStatus(tasks, id, status), id, t.status);
    forall j | 0 <= j < |tasks|
      ensures r[j] == tasks[j]
    {
      if tasks[j].id == id {
        assert j == k;
      }
    }
  }

  /** The outcome of the `PATCH /api/tasks/{id}` request. */
  datatype PatchOutcome = PatchOk | PatchNotOk | PatchThrows

  /** A `PATCH` the board sent: `{ status }` for task `id`. */
  datatype StatusPatch = StatusPatch(id: int, status: string)

  /** A `PATCH` in flight: the task it moved and the status a failure moves it back to. */
  datatype Pending = Pending(id: int, previous: string)

  class Board {
    var tasks: seq<BoardTask>
    var activeTask: Option<BoardTask>
    /** The `PATCH` requests sent so far, in order. */
    var sent: seq<StatusPatch>
    /** How many times `onTaskUpdate` has been called. */
    var updatesNotified: nat
    /** Whether the parent passed `onTaskUpdate`. */
    const hasUpdateListener: bool

    constructor (initialTasks: seq<BoardTask>, hasUpdateListener: bool)
      ensures tasks == initialTasks && activeTask == None && sent == [] && updatesNotified == 0
      ensures this.hasUpdateListener == hasUpdateListener
    {
      tasks := initialTasks;
      activeTask := None;
      sent := [];
      updatesNotified := 0;
      this.hasUpdateListener := hasUpdateListener;
    }

    /** `handleDragStart`: the dragged task becomes active when it is on the board. */
    method DragStart(activeId: int)
      modifies this
      ensures activeTask == if Find(tasks, activeId).Some? then Find(tasks, activeId) else old(activeTask)
      ensures tasks == old(tasks) && sent == old(sent) && updatesNotified == old(updatesNotified)
    {
      var task := Find(tasks, activeId);
      if task.Some? {
        activeTask := task;
      }
    }

    /**
     * `handleDragEnd` up to its `await fetch`: the active task is cleared; a drop on
     * another status moves the task there at once (the optimistic update); without
     * a token it is moved back, otherwise the `PATCH` is sent and the returned
     * `Pending` says what `Settle` will revert to. `over` is the id of what the
     * card was dropped on as text: a column's status, or, when the card lands on
     * another card, that card's numeric id.
     */
    method Drop(activeId: int, over: Option<string>, window: Storage?) returns (pending: Option<Pending>)
      modifies this
      ensures activeTask == None && updatesNotified == old(updatesNotified)
      ensures var task := Find(old(tasks), activeId);
        if over.None? || task.None? || task.value.status == over.value then
          tasks == old(tasks) && sent == old(sent) && pending == None
        else if !Truthy(AuthUtils.GetStoredToken(window)) then
          && tasks == WithStatus(WithStatus(old(tasks), activeId, over.value), activeId, task.value.status)
          && sent == old(sent) && pending == None
        else
          && tasks == WithStatus(old(tasks), activeId, over.value)
          && sent == old(sent) + [StatusPatch(activeId, over.value)]
          && pending == Some(Pending(activeId, task.value.status))
    {
      activeTask := None;
      pending := None;
      if over.None? {
        return;
      }
      var newStatus := over.value;
      var task := Find(tasks, activeId);
      if task.None? || task.value.status == newStatus {
        return;
      }
      tasks := WithStatus(tasks, activeId, newStatus);
      var token := AuthUtils.GetStoredToken(window);
      if !Truthy(token) {
        tasks := WithStatus(tasks, activeId, task.value.status);
        return;
      }
      sent := sent + [StatusPatch(activeId, newStatus)];
      pending := Some(Pending(activeId, task.value.status));
    }

    /**
     * The rest of `handleDragEnd` once the `PATCH` answers: success notifies the
     * parent; a refusal or a throw moves the task back to the status it had at the
     * drop, on the board as it is by then.
     */
    method Settle(p: Pending, patch: PatchOutcome)
      modifies this`tasks, this`updatesNotified
      ensures patch == PatchOk ==>
        tasks == old(tasks) && updatesNotified == old(updatesNotified) + if hasUpdateListener then 1 else 0
      ensures patch != PatchOk ==>
        tasks == WithStatus(old(tasks), p.id, p.previous) && updatesNotified == old(updatesNotified)
    {
      if patch != PatchOk {
        tasks := WithStatus(tasks, p.id, p.previous);
        return;
      }
      if hasUpdateListener {
        updatesNotified := updatesNotified + 1;
      }
    }

    /** `handleDragEnd` when no other drag happens before its `PATCH` answers. */
    method DragEnd(activeId: int, over: Option<string>, window: Storage?, patch: PatchOutcome)
      modifies this
      ensures activeTask == None
      ensures var task := Find(old(tasks), activeId);
        if over.None? || task.None? || task.value.status == over.value then
          tasks == old(tasks) && sent == old(sent) && updatesNotified == old(updatesNotified)
        else if !Truthy(AuthUtils.GetStoredToken(window)) then
          && tasks == WithStatus(WithStatus(old(tasks), activeId, over.value), activeId, task.value.status)
          && sent == old(sent) && updatesNotified == old(updatesNotified)
        else
          && sent == old(sent) + [StatusPatch(activeId, over.value)]
          && (patch == PatchOk ==>
                tasks == WithStatus(old(tasks), activeId, over.value)
                && updatesNotified == old(updatesNotified) + if hasUpdateListener then 1 else 0)
          && (patch != PatchOk ==>
                tasks == WithStatus(WithStatus(old(tasks), activeId, over.value), activeId, task.value.status)
                && updatesNotified == old(updatesNotified))
    {
      var pending := Drop(activeId, over, window);
      if pending.Some? {
        Settle(pending.value, patch);
      }
    }
  }
}
