/** The task list the board shows and the local transitions applied to it once a remote call
    has answered: the position a new task is given, appending the inserted row, merging an
    update into the task with a given id, removing a task, moving a task to another column,
    and the per-column view sorted by position. The remote calls themselves appear only as
    their outcome. */
module UseTasks {
  import opened Types

  // ----- Filters ---------------------------------------------------------------------------

  /** `tasks.filter(t => t.status === status)`. */
  function InStatus(tasks: seq<Task>, status: TaskStatus): seq<Task>
    decreases |tasks|
  {
    if tasks == [] then []
    else (if tasks[0].status == status then [tasks[0]] else []) + InStatus(tasks[1..], status)
  }

  /** Filtering by status distributes over concatenation, so it keeps the relative order of
      the tasks it keeps. */
  lemma {:induction false} InStatusAppend(a: seq<Task>, b: seq<Task>, status: TaskStatus)
    ensures InStatus(a + b, status) == InStatus(a, status) + InStatus(b, status)
    decreases |a|
  {
    if a != [] {
      assert (a + b)[1..] == a[1..] + b;
      InStatusAppend(a[1..], b, status);
    } else {
      assert a + b == b;
    }
  }

  /** The tasks of a status are exactly the tasks with that status, with their multiplicities. */
  lemma {:induction false} InStatusMembers(tasks: seq<Task>, status: TaskStatus)
    ensures forall t :: multiset(InStatus(tasks, status))[t] == if t.status == status then multiset(tasks)[t] else 0
    ensures forall t :: t in InStatus(tasks, status) <==> t in tasks && t.status == status
    decreases |tasks|
  {
    if tasks != [] {
      InStatusMembers(tasks[1..], status);
      assert tasks == [tasks[0]] + tasks[1..];
    }
  }

  /** `tasks.filter(t => t.id !== id)`. */
  function WithoutId(tasks: seq<Task>, id: string): seq<Task>
    decreases |tasks|
  {
    if tasks == [] then []
    else (if tasks[0].id != id then [tasks[0]] else []) + WithoutId(tasks[1..], id)
  }

  lemma {:induction false} WithoutIdAppend(a: seq<Task>, b: seq<Task>, id: string)
    ensures WithoutId(a + b, id) == WithoutId(a, id) + WithoutId(b, id)
    decreases |a|
  {
    if a != [] {
      assert (a + b)[1..] == a[1..] + b;
      WithoutIdAppend(a[1..], b, id);
    } else {
      assert a + b == b;
    }
  }

  /** After the removal no task has the id; every other task stays, as often as before. */
  lemma {:induction false} WithoutIdMembers(tasks: seq<Task>, id: string)
    ensures forall t :: multiset(WithoutId(tasks, id))[t] == if t.id == id then 0 else multiset(tasks)[t]
    ensures forall t :: t in WithoutId(tasks, id) <==> t in tasks && t.id != id
    decreases |tasks|
  {
    if tasks != [] {
      WithoutIdMembers(tasks[1..], id);
      assert tasks == [tasks[0]] + tasks[1..];
    }
  }

  /** `tasks.find(t => t.id === id)`. */
  function Find(tasks: seq<Task>, id: string): Option<Task>
    decreases |tasks|
  {
    if tasks == [] then None
    else if tasks[0].id == id then Some(tasks[0])
    else Find(tasks[1..], id)
  }

  /** `find` fails exactly when no task has the id; otherwise it gives the first task that has it. */
  lemma {:induction false} FindMeaning(tasks: seq<Task>, id: string)
    ensures Find(tasks, id).None? <==> forall i :: 0 <= i < |tasks| ==> tasks[i].id != id
    ensures Find(tasks, id).Some? ==>
      (exists i :: 0 <= i < |tasks| && tasks[i] == Find(tasks, id).value &&
         tasks[i].id == id && forall j :: 0 <= j < i ==> tasks[j].id != id)
    decreases |tasks|
  {
    if tasks != [] && tasks[0].id != id {
      FindMeaning(tasks[1..], id);
      if Find(tasks, id).Some? {
        var i :| 0 <= i < |tasks[1..]| && tasks[1..][i] == Find(tasks, id).value &&
          tasks[1..][i].id == id && forall j :: 0 <= j < i ==> tasks[1..][j].id != id;
        assert tasks[i + 1] == tasks[1..][i];
        forall j | 0 <= j < i + 1 ensures tasks[j].id != id {
          if j > 0 { assert tasks[j] == tasks[1..][j - 1]; }
        }
      } else {
        forall i | 0 <= i < |tasks| ensures tasks[i].id != id {
          if i > 0 { assert tasks[i] == tasks[1..][i - 1]; }
        }
      }
    }
  }

  // ----- Adding ----------------------------------------------------------------------------

  /** The row `addTask` asks the database to insert. */
  datatype NewRow = NewRow(title: string, status: TaskStatus, position: nat, userId: string)

  /** The insert's answer: an error, or the row the database returned (possibly none). */
  datatype InsertOutcome = InsertError | InsertOk(row: Option<Task>)

  /** A row appended to the list comes after every task of its status in list order (before
      the per-column sort), at the index equal to the count it was given as position. */
  lemma AppendedRowEndsItsColumn(tasks: seq<Task>, row: Task)
    ensures InStatus(tasks + [row], row.status) == InStatus(tasks, row.status) + [row]
    ensures InStatus(tasks + [row], row.status)[|InStatus(tasks, row.status)|] == row
  {
    InStatusAppend(tasks, [row], row.status);
    assert InStatus([row], row.status) == [row] + InStatus([], row.status);
  }

  /** Appending a row leaves the other columns as they were. */
  lemma AppendedRowLeavesOtherColumns(tasks: seq<Task>, row: Task, status: TaskStatus)
    requires row.status != status
    ensures InStatus(tasks + [row], status) == InStatus(tasks, status)
  {
    InStatusAppend(tasks, [row], status);
    assert InStatus([row], status) == [] + InStatus([], status);
    assert InStatus(tasks, status) + [] == InStatus(tasks, status);
  }

  // ----- Updating --------------------------------------------------------------------------

  /** The fields `updateTask` may change, each present or absent; the nullable ones carry the
      new value, null included. */
  datatype TaskUpdates = TaskUpdates(
    title: Option<string>,
    description: Option<Option<string>>,
    priority: Option<TaskPriority>,
    dueDate: Option<Option<string>>,
    status: Option<TaskStatus>,
    position: Option<int>)

  function Pick<T>(update: Option<T>, current: T): T {
    if update.Some? then update.value else current
  }

  /** `{ ...t, ...updates }`: the supplied fields overwrite the task's, the rest are kept. */
  function Merge(t: Task, u: TaskUpdates): Task {
    t.(title := Pick(u.title, t.title),
       description := Pick(u.description, t.description),
       priority := Pick(u.priority, t.priority),
       dueDate := Pick(u.dueDate, t.dueDate),
       status := Pick(u.status, t.status),
       position := Pick(u.position, t.position))
  }

  /** Each supplied field takes its new value, each absent one keeps the task's, and the id,
      owner and timestamps never change. */
  lemma MergeShape(t: Task, u: TaskUpdates)
    ensures var m := Merge(t, u);
      && m.id == t.id && m.userId == t.userId && m.createdAt == t.createdAt && m.updatedAt == t.updatedAt
      && (u.title.Some? ==> m.title == u.title.value) && (u.title.None? ==> m.title == t.title)
      && (u.description.Some? ==> m.description == u.description.value) && (u.description.None? ==> m.description == t.description)
      && (u.priority.Some? ==> m.priority == u.priority.value) && (u.priority.None? ==> m.priority == t.priority)
      && (u.dueDate.Some? ==> m.dueDate == u.dueDate.value) && (u.dueDate.None? ==> m.dueDate == t.dueDate)
      && (u.status.Some? ==> m.status == u.status.value) && (u.status.None? ==> m.status == t.status)
      && (u.position.Some? ==> m.position == u.position.value) && (u.position.None? ==> m.position == t.position)
  {
  }

  /** An update with no fields leaves a task as it is, and merging twice is merging the later
      fields over the earlier ones. */
  lemma MergeEmptyAndTwice(t: Task, u: TaskUpdates, v: TaskUpdates)
    ensures Merge(t, TaskUpdates(None, None, None, None, None, None)) == t
    ensures Merge(Merge(t, u), v) == Merge(t, TaskUpdates(
      if v.title.Some? then v.title else u.title,
      if v.description.Some? then v.description else u.description,
      if v.priority.Some? then v.priority else u.priority,
      if v.dueDate.Some? then v.dueDate else u.dueDate,
      if v.status.Some? then v.status else u.status,
      if v.position.Some? then v.position else u.position))
  {
  }

  /** `tasks.map(t => t.id === id ? { ...t, ...updates } : t)`. */
  function Updated(tasks: seq<Task>, id: string, u: TaskUpdates): seq<Task> {
    seq(|tasks|, i requires 0 <= i < |tasks| => if tasks[i].id == id then Merge(tasks[i], u) else tasks[i])
  }

  /** The update keeps the length and the order; tasks with another id are untouched and the
      task with the id gets the merge. */
  lemma UpdatedShape(tasks: seq<Task>, id: string, u: TaskUpdates)
    ensures |Updated(tasks, id, u)| == |tasks|
    ensures forall i :: 0 <= i < |tasks| && tasks[i].id != id ==> Updated(tasks, id, u)[i] == tasks[i]
    ensures forall i :: 0 <= i < |tasks| && tasks[i].id == id ==> Updated(tasks, id, u)[i] == Merge(tasks[i], u)
  {
  }

  /** An update for an id no task has changes nothing. */
  lemma UpdateOfMissingIdChangesNothing(tasks: seq<Task>, id: string, u: TaskUpdates)
    requires Find(tasks, id).None?
    ensures Updated(tasks, id, u) == tasks
  {
    FindMeaning(tasks, id);
  }

  // ----- Moving ----------------------------------------------------------------------------

  /** The update `moveTask` sends: the new status and the count of tasks already in it. */
  function MoveUpdates(tasks: seq<Task>, status: TaskStatus): TaskUpdates {
    TaskUpdates(None, None, None, None, Some(status), Some(|InStatus(tasks, status)|))
  }

  /** A moved task takes the new status and, as position, the count of the tasks in that status
      before the move; all its other fields stay. */
  lemma MovedTaskShape(t: Task, tasks: seq<Task>, status: TaskStatus)
    ensures var m := Merge(t, MoveUpdates(tasks, status));
      m == t.(status := status, position := |InStatus(tasks, status)|)
  {
  }

  // ----- The per-column view ---------------------------------------------------------------

  predicate SortedByPosition(s: seq<Task>) {
    forall i, j :: 0 <= i < j < |s| ==> s[i].position <= s[j].position
  }

  /** Inserts `t` before the first task whose position is not smaller. */
  function InsertByPosition(t: Task, sorted: seq<Task>): seq<Task>
    decreases |sorted|
  {
    if sorted == [] || t.position <= sorted[0].position then [t] + sorted
    else [sorted[0]] + InsertByPosition(t, sorted[1..])
  }

  /** Every task in `s` has a position of at least `p`. */
  predicate AtLeast(p: int, s: seq<Task>) {
    forall k :: 0 <= k < |s| ==> p <= s[k].position
  }

  lemma SortedCons(x: Task, r: seq<Task>)
    requires AtLeast(x.position, r) && SortedByPosition(r)
    ensures SortedByPosition([x] + r)
  {
    forall i, j | 0 <= i < j < |[x] + r| ensures ([x] + r)[i].position <= ([x] + r)[j].position {
      assert ([x] + r)[j] == r[j - 1];
      if i > 0 { assert ([x] + r)[i] == r[i - 1]; }
    }
  }

  lemma {:induction false} InsertKeepsLowerBound(t: Task, s: seq<Task>, p: int)
    requires AtLeast(p, s) && p <= t.position
    ensures AtLeast(p, InsertByPosition(t, s))
    decreases |s|
  {
    if s != [] && t.position > s[0].position {
      InsertKeepsLowerBound(t, s[1..], p);
      var r := InsertByPosition(t, s[1..]);
      assert forall k :: 0 <= k < |r| ==> ([s[0]] + r)[k + 1] == r[k];
    }
  }

  lemma {:induction false} InsertByPositionSorted(t: Task, sorted: seq<Task>)
    requires SortedByPosition(sorted)
    ensures SortedByPosition(InsertByPosition(t, sorted))
    decreases |sorted|
  {
    if sorted == [] || t.position <= sorted[0].position {
      assert forall k :: 0 <= k < |sorted| ==> sorted[0].position <= sorted[k].position;
      SortedCons(t, sorted);
    } else {
      var rest := sorted[1..];
      assert SortedByPosition(rest) by {
        assert forall k :: 0 <= k < |rest| ==> rest[k] == sorted[k + 1];
      }
      assert AtLeast(sorted[0].position, rest) by {
        assert forall k :: 0 <= k < |rest| ==> rest[k] == sorted[k + 1];
      }
      InsertByPositionSorted(t, rest);
      InsertKeepsLowerBound(t, rest, sorted[0].position);
      SortedCons(sorted[0], InsertByPosition(t, rest));
    }
  }

  lemma {:induction false} InsertByPositionPermutes(t: Task, sorted: seq<Task>)
    ensures multiset(InsertByPosition(t, sorted)) == multiset(sorted) + multiset{t}
    decreases |sorted|
  {
    if sorted != [] && t.position > sorted[0].position {
      InsertByPositionPermutes(t, sorted[1..]);
      assert sorted == [sorted[0]] + sorted[1..];
    }
  }

  /** A stable insertion sort on `position`, the order `sort((a, b) => a.position - b.position)` gives. */
  function SortByPosition(s: seq<Task>): seq<Task>
    decreases |s|
  {
    if s == [] then [] else InsertByPosition(s[0], SortByPosition(s[1..]))
  }

  /** The sort orders by position and is a permutation of its input. */
  lemma {:induction false} SortByPositionShape(s: seq<Task>)
    ensures SortedByPosition(SortByPosition(s))
    ensures multiset(SortByPosition(s)) == multiset(s)
    decreases |s|
  {
    if s != [] {
      SortByPositionShape(s[1..]);
      InsertByPositionSorted(s[0], SortByPosition(s[1..]));
      InsertByPositionPermutes(s[0], SortByPosition(s[1..]));
      assert s == [s[0]] + s[1..];
    }
  }

  /** `getTasksByStatus(status)`. */
  function TasksByStatus(tasks: seq<Task>, status: TaskStatus): seq<Task> {
    SortByPosition(InStatus(tasks, status))
  }

  /** A column's view holds exactly the tasks of that status, each as often as in the list, in
      non-decreasing order of position. */
  lemma TasksByStatusShape(tasks: seq<Task>, status: TaskStatus)
    ensures SortedByPosition(TasksByStatus(tasks, status))
    ensures multiset(TasksByStatus(tasks, status)) == multiset(InStatus(tasks, status))
    ensures forall t :: multiset(TasksByStatus(tasks, status))[t] == if t.status == status then multiset(tasks)[t] else 0
  {
    SortByPositionShape(InStatus(tasks, status));
    InStatusMembers(tasks, status);
  }

  /** A todo task with the given id and position. */
  function TodoTask(id: string, position: int): Task {
    Task(id, "u", id, None, Medium, Todo, None, position, "", "")
  }

  /** Positions are never renumbered, so after a delete the count of a column can be below a
      position still in use: a task added there with the count as position is shown first. */
  lemma AddAfterDeleteCanSortFirst()
    ensures var left := WithoutId([TodoTask("x1", 1), TodoTask("a", 2)], "x1");
      var row := TodoTask("b", |InStatus(left, Todo)|);
      row.position == 1 && TasksByStatus(left + [row], Todo) == [row, TodoTask("a", 2)]
  {
    var left := WithoutId([TodoTask("x1", 1), TodoTask("a", 2)], "x1");
    assert left == [TodoTask("a", 2)];
    assert InStatus(left, Todo) == [TodoTask("a", 2)];
    var a, row := TodoTask("a", 2), TodoTask("b", 1);
    assert (left + [row])[1..] == [row] && [row][1..] == [];
    assert InStatus(left + [row], Todo) == [a, row];
    assert [a, row][1..] == [row];
    assert SortByPosition([row]) == [row];
    assert InsertByPosition(a, [row]) == [row] + InsertByPosition(a, []);
  }

  /** The same holds for a move: a task moved into a column whose positions start above its
      count is shown first there. */
  lemma MoveCanSortFirst()
    ensures var before := [TodoTask("d0", 5).(status := Done), TodoTask("m", 0)];
      var after := Updated(before, "m", MoveUpdates(before, Done));
      TasksByStatus(after, Done) == [TodoTask("m", 1).(status := Done), TodoTask("d0", 5).(status := Done)]
  {
    var d0 := TodoTask("d0", 5).(status := Done);
    var before := [d0, TodoTask("m", 0)];
    assert before[1..] == [TodoTask("m", 0)] && before[1..][1..] == [];
    assert InStatus([TodoTask("m", 0)], Done) == [];
    assert InStatus(before, Done) == [d0];
    var m := TodoTask("m", 1).(status := Done);
    var after := Updated(before, "m", MoveUpdates(before, Done));
    assert |after| == 2 && after[0] == d0 && after[1] == m;
    assert after == [d0, m];
    assert after[1..] == [m] && [m][1..] == [];
    assert InStatus(after, Done) == after;
    assert SortByPosition([m]) == [m];
    assert InsertByPosition(d0, [m]) == [m] + InsertByPosition(d0, []);
  }

  // ----- The hook's state ------------------------------------------------------------------

  /** The `tasks` state of the hook and its transitions, each applied once the remote call
      behind it has answered. */
  class TaskStore {
    var tasks: seq<Task>

    constructor(tasks: seq<Task>)
      ensures this.tasks == tasks
    {
      this.tasks := tasks;
    }

    /** `addTask(title, status = "todo")`: without a signed-in user nothing is sent; otherwise
        the row is sent with the count of the tasks in its status as position, and the row the
        database returns is appended. */
    method AddTask(title: string, user: Option<string>, outcome: InsertOutcome, status: TaskStatus := Todo)
      returns (request: Option<NewRow>)
      modifies this
      ensures user.None? ==> request == None && tasks == old(tasks)
      ensures user.Some? ==> request == Some(NewRow(title, status, |InStatus(old(tasks), status)|, user.value))
      ensures user.Some? && outcome.InsertOk? && outcome.row.Some? ==> tasks == old(tasks) + [outcome.row.value]
      ensures !(user.Some? && outcome.InsertOk? && outcome.row.Some?) ==> tasks == old(tasks)
    {
      if user.None? {
        return None;
      }
      var columnTasks := InStatus(tasks, status);
      var position := |columnTasks|;
      request := Some(NewRow(title, status, position, user.value));
      match outcome
      case InsertError =>
      case InsertOk(row) =>
        if row.Some? {
          tasks := tasks + [row.value];
        }
    }

    /** `updateTask(id, updates)`: on success the update is merged into the task with the id. */
    method UpdateTask(id: string, updates: TaskUpdates, ok: bool)
      modifies this
      ensures tasks == if ok then Updated(old(tasks), id, updates) else old(tasks)
    {
      if ok {
        tasks := Updated(tasks, id, updates);
      }
    }

    /** `deleteTask(id)`: on success the tasks with the id are removed. */
    method DeleteTask(id: string, ok: bool)
      modifies this
      ensures tasks == if ok then WithoutId(old(tasks), id) else old(tasks)
    {
      if ok {
        tasks := WithoutId(tasks, id);
      }
    }

    /** `moveTask(taskId, newStatus)`: nothing when no task has the id or it already has the
        status; otherwise an update to the new status, with the count of the tasks in that status
        as position. */
    method MoveTask(taskId: string, newStatus: TaskStatus, ok: bool)
      modifies this
      ensures Find(old(tasks), taskId).None? || Find(old(tasks), taskId).value.status == newStatus ==> tasks == old(tasks)
      ensures Find(old(tasks), taskId).Some? && Find(old(tasks), taskId).value.status != newStatus ==>
        tasks == if ok then Updated(old(tasks), taskId, MoveUpdates(old(tasks), newStatus)) else old(tasks)
    {
      var task := Find(tasks, taskId);
      if task.None? || task.value.status == newStatus {
        return;
      }
      var newPosition := |InStatus(tasks, newStatus)|;
      UpdateTask(taskId, TaskUpdates(None, None, None, None, Some(newStatus), Some(newPosition)), ok);
    }
  }
}
