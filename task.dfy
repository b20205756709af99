/**
 * The task entity of the task tracker: its status and priority enums, the
 * task record, and the shapes of the inputs that create and patch a task.
 * Dates are kept as the integer milliseconds `Date.getTime()` returns.
 */
module Tasks {

  datatype Option<T> = None | Some(value: T) {
    function GetOr(default: T): T {
      match this
      case Some(v) => v
      case None => default
    }
  }

  /** The one domain error: no task carries the requested id. */
  datatype Error = NotFound(id: string)

  datatype Result<T> = Success(value: T) | Failure(error: Error)

  datatype Status = Pending | InProgress | Completed

  datatype Priority = Low | Medium | High

  /** A point in time, in milliseconds since the epoch. */
  type Millis = int

  datatype Task = Task(
    id: string,
    title: string,
    description: Option<string>,
    status: Status,
    priority: Priority,
    dueDate: Option<Millis>,
    completedAt: Option<Millis>,
    createdAt: Millis,
    updatedAt: Millis)

  /** The rank of a priority used when sorting: Low 1, Medium 2, High 3. */
  function PriorityOrder(p: Priority): (r: int)
    ensures 1 <= r <= 3
    ensures r == 1 <==> p == Low
    ensures r == 3 <==> p == High
  {
    match p
    case Low => 1
    case Medium => 2
    case High => 3
  }

  const MaxTitleLength := 200
  const MaxDescriptionLength := 1000

  predicate ValidTitle(title: string) {
    1 <= |title| <= MaxTitleLength
  }

  predicate ValidDescription(description: Option<string>) {
    description.Some? ==> |description.value| <= MaxDescriptionLength
  }

  /** The field constraints every stored task meets. */
  predicate WellFormed(t: Task) {
    ValidTitle(t.title) && ValidDescription(t.description)
  }

  /** What a client supplies to create a task; absent fields are defaulted. */
  datatype CreateTaskInput = CreateTaskInput(
    title: string,
    description: Option<string>,
    status: Option<Status>,
    priority: Option<Priority>,
    dueDate: Option<Millis>)

  predicate ValidCreateInput(input: CreateTaskInput) {
    ValidTitle(input.title) && ValidDescription(input.description)
  }

  /** A partial update: a present field overwrites, an absent one keeps. */
  datatype TaskPatch = TaskPatch(
    title: Option<string>,
    description: Option<string>,
    status: Option<Status>,
    priority: Option<Priority>,
    dueDate: Option<Millis>)

  predicate ValidPatch(patch: TaskPatch) {
    (patch.title.Some? ==> ValidTitle(patch.title.value)) && ValidDescription(patch.description)
  }

  /** The patch that sets only the status, as the status shortcuts send it. */
  function StatusPatch(s: Status): (p: TaskPatch)
    ensures p.status == Some(s) && ValidPatch(p)
    ensures p.title.None? && p.description.None? && p.priority.None? && p.dueDate.None?
  {
    TaskPatch(None, None, Some(s), None, None)
  }

  /** True when no two tasks of `ts` share an id. */
  ghost predicate UniqueIds(ts: seq<Task>) {
    forall i, j :: 0 <= i < j < |ts| ==> ts[i].id != ts[j].id
  }

  /**
   * The position of the first task of `ts` with the given id, if any:
   * the search both `find` and `findIndex` perform.
   */
  function IndexOf(ts: seq<Task>, id: string): (r: Option<nat>)
    ensures r.Some? ==> r.value < |ts| && ts[r.value].id == id
    ensures r.Some? ==> forall j :: 0 <= j < r.value ==> ts[j].id != id
    ensures r.None? <==> forall j :: 0 <= j < |ts| ==> ts[j].id != id
  {
    if ts == [] then None
    else if ts[0].id == id then Some(0)
    else
      match IndexOf(ts[1..], id)
      case None => None
      case Some(k) => Some(k + 1)
  }
}
