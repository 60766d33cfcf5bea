/** The shared data model of the board and the chat widget: task status and priority,
    the task record, chat messages, the board's columns and the priority labels. */
module Types {

  datatype Option<T> = None | Some(value: T)

  /** The four workflow states a task can be in; each is also the id of one board column. */
  datatype TaskStatus = Backlog | Todo | InProgress | Done

  datatype TaskPriority = Low | Medium | High

  /** The string the database and the board use for a status. */
  function StatusId(s: TaskStatus): string {
    match s
    case Backlog => "backlog"
    case Todo => "todo"
    case InProgress => "in_progress"
    case Done => "done"
  }

  /** One row of the remote `tasks` table as the client holds it; `description` and
      `dueDate` are nullable. */
  datatype Task = Task(
    id: string,
    userId: string,
    title: string,
    description: Option<string>,
    priority: TaskPriority,
    status: TaskStatus,
    dueDate: Option<string>,
    position: int,
    createdAt: string,
    updatedAt: string)

  /** A chat message is written either by the user or by the assistant. */
  datatype Role = User | Assistant

  datatype ChatMessage = ChatMessage(role: Role, content: string)

  datatype Column = Column(id: TaskStatus, title: string)

  /** The board's columns, left to right. */
  const Columns: seq<Column> := [
    Column(Backlog, "Backlog"),
    Column(Todo, "To Do"),
    Column(InProgress, "In Progress"),
    Column(Done, "Done")
  ]

  /** Every status has exactly one column. */
  lemma EachStatusHasOneColumn(s: TaskStatus)
    ensures exists i :: (0 <= i < |Columns| && Columns[i].id == s
      && forall j :: 0 <= j < |Columns| && Columns[j].id == s ==> j == i)
  {
    ColumnsInWorkflowOrder();
    var i := match s
      case Backlog => 0
      case Todo => 1
      case InProgress => 2
      case Done => 3;
    assert Columns[i].id == s;
  }

  /** Distinct statuses have distinct ids, so a column id names one status. */
  lemma StatusIdInjective(a: TaskStatus, b: TaskStatus)
    ensures StatusId(a) == StatusId(b) ==> a == b
  {
    if a != b {
      assert StatusId(a)[0] != StatusId(b)[0] || |StatusId(a)| != |StatusId(b)|;
    }
  }

  /** The columns list the four statuses once each, in the order backlog, todo, in progress, done. */
  lemma ColumnsInWorkflowOrder()
    ensures |Columns| == 4
    ensures Columns[0].id == Backlog && Columns[1].id == Todo
    ensures Columns[2].id == InProgress && Columns[3].id == Done
    ensures forall i, j :: 0 <= i < j < |Columns| ==> Columns[i].id != Columns[j].id
  {
  }

  /** PRIORITY_LABELS: the display label of each priority; the record is total over the three priorities. */
  function PriorityLabel(p: TaskPriority): string {
    match p
    case Low => "Low"
    case Medium => "Medium"
    case High => "High"
  }

  /** Every priority has a non-empty label and no two priorities share one. */
  lemma PriorityLabelsDistinct(p: TaskPriority, q: TaskPriority)
    ensures PriorityLabel(p) != []
    ensures p != q ==> PriorityLabel(p) != PriorityLabel(q)
  {
  }
}
