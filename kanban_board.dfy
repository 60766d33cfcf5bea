/** The board's drag handlers: the card being dragged, and the rule that turns a drop into a
    move request, a column under the pointer taking precedence over a task card. */
module KanbanBoard {
  import opened Types
  import opened UseTasks

  /** `COLUMNS.some(c => c.id === id)`, with the status that matching column stands for. */
  function ColumnWithId(id: string): Option<TaskStatus> {
    FindColumn(Columns, id)
  }

  function FindColumn(columns: seq<Column>, id: string): Option<TaskStatus>
    decreases |columns|
  {
    if columns == [] then None
    else if StatusId(columns[0].id) == id then Some(columns[0].id)
    else FindColumn(columns[1..], id)
  }

  /** An id names a column exactly when it is the id of a status, and then it names that
      status's column. */
  lemma ColumnWithIdMeaning(id: string, s: TaskStatus)
    ensures ColumnWithId(id) == Some(s) <==> StatusId(s) == id
    ensures ColumnWithId(id).None? <==> forall t: TaskStatus :: StatusId(t) != id
  {
    ColumnsInWorkflowOrder();
    if StatusId(s) == id {
      match ColumnWithId(id)
      case Some(s') => StatusIdInjective(s, s');
      case None =>
    }
    forall t: TaskStatus | StatusId(t) == id ensures ColumnWithId(id).Some? {
      match t
      case Backlog =>
      case Todo =>
      case InProgress =>
      case Done =>
    }
  }

  /** The status a drop moves the dragged task to: none without a drop target; the column's
      own status when the target is a column; otherwise the status of the task card under the
      pointer, if the target is one. */
  function DropStatus(tasks: seq<Task>, over: Option<string>): Option<TaskStatus> {
    match over
    case None => None
    case Some(overId) =>
      if ColumnWithId(overId).Some? then ColumnWithId(overId)
      else match Find(tasks, overId)
        case Some(overTask) => Some(overTask.status)
        case None => None
  }

  /** The drop rule stated against the column ids and the task list: a column id decides the
      move even when a task has the same id; a task id moves to that task's status; anything
      else requests nothing. */
  lemma DropStatusMeaning(tasks: seq<Task>, overId: string, s: TaskStatus)
    ensures DropStatus(tasks, None) == None
    ensures StatusId(s) == overId ==> DropStatus(tasks, Some(overId)) == Some(s)
    ensures (forall t: TaskStatus :: StatusId(t) != overId) ==>
      DropStatus(tasks, Some(overId)) == if Find(tasks, overId).Some? then Some(Find(tasks, overId).value.status) else None
    ensures DropStatus(tasks, Some(overId)).None? <==>
      (forall t: TaskStatus :: StatusId(t) != overId) && forall i :: 0 <= i < |tasks| ==> tasks[i].id != overId
  {
    ColumnWithIdMeaning(overId, s);
    FindMeaning(tasks, overId);
  }

  /** A card dropped on itself, away from a column, asks to move to the status it already has,
      which the move ignores. */
  lemma DropOnItselfStays(tasks: seq<Task>, id: string)
    requires Find(tasks, id).Some? && ColumnWithId(id).None?
    ensures DropStatus(tasks, Some(id)) == Some(Find(tasks, id).value.status)
  {
  }

  /** The board's own state, the card being dragged, over the hook's task list. */
  class Board {
    var activeTask: Option<Task>
    const store: TaskStore

    constructor(store: TaskStore)
      ensures this.store == store && activeTask == None
    {
      this.store := store;
      activeTask := None;
    }

    /** `handleDragStart`: the dragged card becomes the active task when it names one;
        otherwise the active task is left as it was. */
    method HandleDragStart(activeId: string)
      modifies this
      ensures activeTask == if Find(store.tasks, activeId).Some? then Find(store.tasks, activeId) else old(activeTask)
    {
      var task := Find(store.tasks, activeId);
      if task.Some? {
        activeTask := task;
      }
    }

    /** `handleDragEnd`: the active task is cleared whatever happens; the drop rule decides
        which move, if any, is requested, and the requested move is applied to the task list
        with the remote update's outcome `ok`. */
    method HandleDragEnd(activeId: string, over: Option<string>, ok: bool) returns (requested: Option<TaskStatus>)
      modifies this, store
      ensures activeTask == None
      ensures requested == DropStatus(old(store.tasks), over)
      ensures requested.None? ==> store.tasks == old(store.tasks)
      ensures requested.Some? ==>
        var tasks, s := old(store.tasks), requested.value;
        store.tasks == if Find(tasks, activeId).None? || Find(tasks, activeId).value.status == s || !ok then tasks
          else Updated(tasks, activeId, MoveUpdates(tasks, s))
    {
      activeTask := None;
      if over.None? {
        return None;
      }
      var taskId := activeId;
      var overId := over.value;
      var column := ColumnWithId(overId);
      if column.Some? {
        requested := column;
        store.MoveTask(taskId, column.value, ok);
        return;
      }
      var overTask := Find(store.tasks, overId);
      if overTask.Some? {
        requested := Some(overTask.value.status);
        store.MoveTask(taskId, overTask.value.status, ok);
      } else {
        requested := None;
      }
    }
  }
}
