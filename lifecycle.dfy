/**
 * How a task record is built and rewritten: creation with defaults, the
 * merge of a partial update, the `completedAt` recompute rule, and the
 * in-place completion that `markAsCompleted` performs.
 */
module Lifecycle {
  import opened Tasks

  /**
   * The record `create` builds from a validated input, a fresh id and the
   * current time.
   */
  function NewTask(input: CreateTaskInput, id: string, now: Millis): (t: Task)
    requires ValidCreateInput(input)
    ensures WellFormed(t)
    ensures t.id == id && t.title == input.title && t.description == input.description
    ensures input.status.None? ==> t.status == Pending
    ensures input.status.Some? ==> t.status == input.status.value
    ensures input.priority.None? ==> t.priority == Medium
    ensures input.priority.Some? ==> t.priority == input.priority.value
    ensures t.dueDate == input.dueDate
    ensures t.completedAt.None?
    ensures t.createdAt == now && t.updatedAt == now
  {
    Task(
      id := id,
      title := input.title,
      description := input.description,
      status := input.status.GetOr(Pending),
      priority := input.priority.GetOr(Medium),
      dueDate := input.dueDate,
      completedAt := None,
      createdAt := now,
      updatedAt := now)
  }

  /** True when the patch moves a task into Completed from another status. */
  predicate EntersCompleted(existing: Task, patch: TaskPatch) {
    patch.status == Some(Completed) && existing.status != Completed
  }

  /**
   * The completion time an update stores: stamped with `now` exactly when
   * the patch moves the task into Completed, otherwise the old value.
   */
  function CalculateCompletedAt(existing: Task, patch: TaskPatch, now: Millis): (r: Option<Millis>)
    ensures r != existing.completedAt ==> r == Some(now)
    ensures EntersCompleted(existing, patch) ==> r == Some(now)
    ensures !EntersCompleted(existing, patch) ==> r == existing.completedAt
  {
    if EntersCompleted(existing, patch) then Some(now) else existing.completedAt
  }

  /**
   * The record `update` stores: the patch's present fields over the
   * existing ones, completion time recomputed, `updatedAt` refreshed.
   */
  function ApplyPatch(existing: Task, patch: TaskPatch, now: Millis): (t: Task)
    ensures t.id == existing.id && t.createdAt == existing.createdAt
    ensures t.updatedAt == now
    ensures t.title == (if patch.title.Some? then patch.title.value else existing.title)
    ensures t.description == (if patch.description.Some? then patch.description else existing.description)
    ensures t.status == (if patch.status.Some? then patch.status.value else existing.status)
    ensures t.priority == (if patch.priority.Some? then patch.priority.value else existing.priority)
    ensures t.dueDate == (if patch.dueDate.Some? then patch.dueDate else existing.dueDate)
    ensures t.completedAt != existing.completedAt ==>
              t.completedAt == Some(now) && existing.status != Completed && t.status == Completed
    ensures existing.status != Completed && t.status == Completed ==> t.completedAt == Some(now)
    ensures WellFormed(existing) && ValidPatch(patch) ==> WellFormed(t)
  {
    existing.(
      title := patch.title.GetOr(existing.title),
      description := if patch.description.Some? then patch.description else existing.description,
      status := patch.status.GetOr(existing.status),
      priority := patch.priority.GetOr(existing.priority),
      dueDate := if patch.dueDate.Some? then patch.dueDate else existing.dueDate,
      completedAt := CalculateCompletedAt(existing, patch, now),
      updatedAt := now)
  }

  /**
   * What `markAsCompleted` writes into the stored task: Completed, and
   * both timestamps set to `now` whatever the previous status was.
   */
  function Complete(existing: Task, now: Millis): (t: Task)
    ensures t.status == Completed && t.completedAt == Some(now) && t.updatedAt == now
    ensures t.id == existing.id && t.createdAt == existing.createdAt
    ensures t.title == existing.title && t.description == existing.description
    ensures t.priority == existing.priority && t.dueDate == existing.dueDate
    ensures WellFormed(existing) ==> WellFormed(t)
  {
    existing.(status := Completed, completedAt := Some(now), updatedAt := now)
  }

  /**
   * Completing an already completed task through `update` keeps the first
   * completion time; `markAsCompleted` replaces it.
   */
  lemma RecompletionDiffers(t: Task, now: Millis)
    requires t.status == Completed && t.completedAt != Some(now)
    ensures ApplyPatch(t, StatusPatch(Completed), now).completedAt == t.completedAt
    ensures Complete(t, now).completedAt == Some(now)
    ensures ApplyPatch(t, StatusPatch(Completed), now) != Complete(t, now)
  {
  }

  /**
   * Moving a completed task back to Pending or InProgress keeps the time
   * it was completed at.
   */
  lemma ReopeningKeepsCompletedAt(t: Task, s: Status, completed: Millis, now: Millis)
    requires s != Completed
    ensures ApplyPatch(Complete(t, completed), StatusPatch(s), now).status == s
    ensures ApplyPatch(Complete(t, completed), StatusPatch(s), now).completedAt == Some(completed)
  {
  }

  /**
   * Completing, reopening and completing again through updates leaves the
   * time of the last completion.
   */
  lemma CompletingAgainOverwrites(t: Task, s: Status, t1: Millis, t2: Millis, t3: Millis)
    requires t.status != Completed && s != Completed
    ensures
      var done := ApplyPatch(t, StatusPatch(Completed), t1);
      var reopened := ApplyPatch(done, StatusPatch(s), t2);
      var again := ApplyPatch(reopened, StatusPatch(Completed), t3);
      done.completedAt == Some(t1) && reopened.completedAt == Some(t1) && again.completedAt == Some(t3)
  {
  }

  /**
   * `updatedAt` never falls behind `createdAt` across an update or a
   * completion, provided the clock does not run backwards.
   */
  lemma TimestampsStayOrdered(t: Task, patch: TaskPatch, now: Millis)
    requires t.createdAt <= t.updatedAt <= now
    ensures ApplyPatch(t, patch, now).createdAt <= ApplyPatch(t, patch, now).updatedAt
    ensures Complete(t, now).createdAt <= Complete(t, now).updatedAt
  {
  }

  /**
   * A task created with status Completed carries no completion time: the
   * creation path does not apply the recompute rule.
   */
  lemma CreatedCompletedHasNoCompletedAt(input: CreateTaskInput, id: string, now: Millis)
    requires ValidCreateInput(input) && input.status == Some(Completed)
    ensures NewTask(input, id, now).status == Completed
    ensures NewTask(input, id, now).completedAt.None?
  {
  }
}
