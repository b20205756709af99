/**
 * Client-side scenarios: what a caller of the store and of the read-side
 * functions can conclude from their contracts alone.
 */
module Scenarios {
  import opened Tasks
  import opened Lifecycle
  import opened Sorting
  import opened Query
  import opened Stats
  import opened Store

  /** Task A: due a day before `now`, Low priority, Pending. */
  function TaskA(now: Millis): Task {
    Task("a", "A", None, Pending, Low, Some(now - 86400000), None, now - 1000, now - 1000)
  }

  /** Task B: no due date, High priority, Pending. */
  function TaskB(now: Millis): Task {
    Task("b", "B", None, Pending, High, None, None, now - 500, now - 500)
  }

  /** Only A is overdue. */
  lemma OverdueScenario(now: Millis)
    ensures FindOverdue([TaskA(now), TaskB(now)], now) == [TaskA(now)]
  {
  }

  /** Two pending tasks: nothing completed, a rate of 0. */
  lemma StatsScenario(now: Millis)
    ensures GetStats([TaskA(now), TaskB(now)]) == TaskStats(2, 0, 2, 0, 0)
  {
  }

  /** By priority, descending, B (High) comes before A (Low). */
  lemma PrioritySortScenario(now: Millis)
    ensures SortTasks([TaskA(now), TaskB(now)], PriorityKey, Desc) == [TaskB(now), TaskA(now)]
  {
  }

  /** Create, complete, reopen: the reopened task keeps its completion time. */
  method CompleteThenReopen(input: CreateTaskInput, id: string, t0: Millis, t1: Millis, t2: Millis)
    requires ValidCreateInput(input)
  {
    var store := new TaskStore();
    var created := store.Create(input, id, t0);
    assert created.completedAt.None? && created.createdAt == created.updatedAt == t0;
    var done := store.MarkAsCompleted(id, t1);
    assert done == Success(store.tasks[0]) && done.value.completedAt == Some(t1);
    var reopened := store.MarkAsPending(id, t2);
    assert reopened.Success? && reopened.value.status == Pending && reopened.value.completedAt == Some(t1);
    assert store.tasks == [reopened.value];
  }

  /** Unknown ids leave the store alone; a removed id is not found again. */
  method NotFoundLeavesStoreAlone(input: CreateTaskInput, id: string, other: string, now: Millis)
    requires ValidCreateInput(input) && id != other
  {
    var store := new TaskStore();
    var created := store.Create(input, id, now);
    var before := store.tasks;
    var missing := store.Update(other, StatusPatch(Completed), now + 1);
    assert missing == Failure(NotFound(other)) && store.tasks == before;
    var removed := store.Remove(id);
    assert removed.Success? && store.tasks == [];
    var gone := store.FindOne(id);
    assert gone == Failure(NotFound(id));
  }
}
