/**
 * `TasksService`'s state and mutators: the shared array of tasks as a field
 * of the store, and the operations that look a task up by id, append,
 * replace, complete and delete tasks in it.
 */
module Store {
  import opened Tasks
  import opened Lifecycle

  class TaskStore {
    /** The store's tasks, in insertion order. */
    var tasks: seq<Task>

    /** Ids are unique and every stored task meets the field constraints. */
    ghost predicate Valid()
      reads this
    {
      UniqueIds(tasks) && forall t :: t in tasks ==> WellFormed(t)
    }

    constructor ()
      ensures Valid() && tasks == []
    {
      tasks := [];
    }

    /**
     * `findTaskIndex`: the position of the first task with the given id,
     * or NotFound when no task has it.
     */
    method FindTaskIndex(id: string) returns (r: Result<nat>)
      ensures r.Success? <==> exists k :: 0 <= k < |tasks| && tasks[k].id == id
      ensures r.Success? ==> r.value < |tasks| && tasks[r.value].id == id
      ensures r.Success? ==> forall k :: 0 <= k < r.value ==> tasks[k].id != id
      ensures r.Failure? ==> r.error == NotFound(id)
      ensures r.Success? ==> IndexOf(tasks, id) == Some(r.value)
    {
      var i := 0;
      while i < |tasks|
        invariant 0 <= i <= |tasks|
        invariant forall k :: 0 <= k < i ==> tasks[k].id != id
      {
        if tasks[i].id == id {
          return Success(i);
        }
        i := i + 1;
      }
      return Failure(NotFound(id));
    }

    /** `findOne`: the task with the given id, or NotFound. */
    method FindOne(id: string) returns (r: Result<Task>)
      ensures r.Success? <==> exists k :: 0 <= k < |tasks| && tasks[k].id == id
      ensures r.Success? ==> r.value in tasks && r.value.id == id
      ensures r.Success? ==> IndexOf(tasks, id).Some? && r.value == tasks[IndexOf(tasks, id).value]
      ensures r.Failure? ==> r.error == NotFound(id)
    {
      var index := FindTaskIndex(id);
      match index
      case Success(i) => r := Success(tasks[i]);
      case Failure(e) => r := Failure(e);
    }

    /**
     * `create`: builds the task from a validated input, an id no stored
     * task has and the current time, and appends it.
     */
    method Create(input: CreateTaskInput, id: string, now: Millis) returns (t: Task)
      requires Valid() && ValidCreateInput(input)
      requires forall k :: 0 <= k < |tasks| ==> tasks[k].id != id
      modifies this
      ensures Valid()
      ensures t == NewTask(input, id, now)
      ensures tasks == old(tasks) + [t]
    {
      t := NewTask(input, id, now);
      tasks := tasks + [t];
    }

    /**
     * `update`: NotFound and no change for an unknown id; otherwise the
     * merged record replaces the task at its index and nothing else moves.
     */
    method Update(id: string, patch: TaskPatch, now: Millis) returns (r: Result<Task>)
      requires Valid() && ValidPatch(patch)
      modifies this
      ensures Valid()
      ensures IndexOf(old(tasks), id).None? ==> r == Failure(NotFound(id)) && tasks == old(tasks)
      ensures IndexOf(old(tasks), id).Some? ==>
                var i := IndexOf(old(tasks), id).value;
                r == Success(ApplyPatch(old(tasks)[i], patch, now)) && tasks == old(tasks)[i := r.value]
    {
      var index := FindTaskIndex(id);
      match index
      case Failure(e) =>
        r := Failure(e);
      case Success(i) =>
        var updated := ApplyPatch(tasks[i], patch, now);
        tasks := tasks[i := updated];
        r := Success(updated);
    }

    /**
     * `remove`: NotFound and no change for an unknown id; otherwise the task
     * is spliced out and the others keep their order.
     */
    method Remove(id: string) returns (r: Result<()>)
      requires Valid()
      modifies this
      ensures Valid()
      ensures IndexOf(old(tasks), id).None? ==> r == Failure(NotFound(id)) && tasks == old(tasks)
      ensures IndexOf(old(tasks), id).Some? ==>
                var i := IndexOf(old(tasks), id).value;
                r == Success(()) && tasks == old(tasks)[..i] + old(tasks)[i + 1..]
      ensures r.Success? ==> |tasks| == |old(tasks)| - 1 && IndexOf(tasks, id).None?
    {
      var index := FindTaskIndex(id);
      match index
      case Failure(e) =>
        r := Failure(e);
      case Success(i) =>
        RemovedIdIsGone(tasks, i);
        tasks := tasks[..i] + tasks[i + 1..];
        r := Success(());
    }

    /**
     * `markAsCompleted`: NotFound and no change for an unknown id; otherwise
     * the stored task becomes Completed with both timestamps at `now`.
     */
    method MarkAsCompleted(id: string, now: Millis) returns (r: Result<Task>)
      requires Valid()
      modifies this
      ensures Valid()
      ensures IndexOf(old(tasks), id).None? ==> r == Failure(NotFound(id)) && tasks == old(tasks)
      ensures IndexOf(old(tasks), id).Some? ==>
                var i := IndexOf(old(tasks), id).value;
                r == Success(Complete(old(tasks)[i], now)) && tasks == old(tasks)[i := r.value]
    {
      var index := FindTaskIndex(id);
      match index
      case Failure(e) =>
        r := Failure(e);
      case Success(i) =>
        var completed := Complete(tasks[i], now);
        tasks := tasks[i := completed];
        r := Success(completed);
    }

    /** `markAsInProgress`: an update that sets only the status. */
    method MarkAsInProgress(id: string, now: Millis) returns (r: Result<Task>)
      requires Valid()
      modifies this
      ensures Valid()
      ensures IndexOf(old(tasks), id).None? ==> r == Failure(NotFound(id)) && tasks == old(tasks)
      ensures IndexOf(old(tasks), id).Some? ==>
                var i := IndexOf(old(tasks), id).value;
                r == Success(ApplyPatch(old(tasks)[i], StatusPatch(InProgress), now)) && tasks == old(tasks)[i := r.value]
    {
      r := Update(id, StatusPatch(InProgress), now);
    }

    /** `markAsPending`: an update that sets only the status. */
    method MarkAsPending(id: string, now: Millis) returns (r: Result<Task>)
      requires Valid()
      modifies this
      ensures Valid()
      ensures IndexOf(old(tasks), id).None? ==> r == Failure(NotFound(id)) && tasks == old(tasks)
      ensures IndexOf(old(tasks), id).Some? ==>
                var i := IndexOf(old(tasks), id).value;
                r == Success(ApplyPatch(old(tasks)[i], StatusPatch(Pending), now)) && tasks == old(tasks)[i := r.value]
    {
      r := Update(id, StatusPatch(Pending), now);
    }
  }

  /**
   * With unique ids, splicing out the task at `i` leaves no task with its
   * id, and keeps the remaining ids unique.
   */
  lemma RemovedIdIsGone(ts: seq<Task>, i: nat)
    requires UniqueIds(ts) && i < |ts|
    ensures IndexOf(ts[..i] + ts[i + 1..], ts[i].id).None?
    ensures UniqueIds(ts[..i] + ts[i + 1..])
  {
  }
}
