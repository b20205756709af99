# Task tracker core, modelled in Dafny

This project models the core of a small task-tracking backend: `TasksService`, an in-memory store of task records, together with the read-side logic over it. A task has an id, a title, an optional description, a status (Pending, InProgress, Completed), a priority (Low, Medium, High), an optional due date, an optional completion time, and creation and update times.

The model has these modules:

- `Tasks` (`task.dfy`): the task record and its enums, the create input, the partial-update patch, the field limits a validated request meets, and `IndexOf`, the first-match search by id.
- `Lifecycle` (`lifecycle.dfy`): the record that `create` builds, the merge that `update` performs, the `completedAt` recompute rule, and the in-place completion that `markAsCompleted` writes.
- `Sorting` (`sorting.dfy`): `compareDates`, the comparator of `sortTasks` on each of the five keys and in both directions, and a reference sort.
- `Query` (`query.dfy`): `filter`, the case-insensitive search, the overdue test, `findByStatus`, `findByPriority`, `findOverdue`, the filter chain of `applyFiltersAndSort`, and `findAll`.
- `Stats` (`stats.dfy`): `getStats`.
- `Store` (`store.dfy`): the class `TaskStore`. Its field `tasks: seq<Task>` plays the part of the shared `tasks` array. Its methods are the service's state-changing operations and its id lookups.
- `Scenarios` (`scenarios.dfy`): concrete scenarios, and client methods that use only the contracts.

Times are the integer milliseconds that `Date.getTime()` returns. Every operation that reads the clock takes `now` as a parameter. The new id that `uuidv4()` would produce is also a parameter of `Create`. Its precondition says no stored task has that id yet.

The read-side operations are functions of a snapshot of the store. They take `tasks` as a sequence. The store's invariant `Valid()` says two things: ids are unique, and every stored title and description is within the validated limits. The constructor establishes it and every mutator keeps it.

Two consequences of the code are worth stating, because they are easy to misread:

- `compareDates` ranks a missing due date after any present one. But line 185 negates the whole comparison for `desc`. So tasks without a due date come last for `asc` and first for `desc`. `Sorting.MissingDueDateLastWhenAscending` and `Sorting.MissingDueDateFirstWhenDescending` prove both.
- A task created with status Completed has no `completedAt`, because `create` sets it to null whatever the status is. `Lifecycle.CreatedCompletedHasNoCompletedAt` states this.

## Model

| member | source | states |
|---|---|---|
| `Tasks.PriorityOrder` | src/tasks/tasks.service.ts:15-19 | The priority rank lies in 1..3. Low and only Low ranks 1, and High and only High ranks 3. |
| `Tasks.StatusPatch` | src/tasks/tasks.service.ts:119-125 | The status shortcuts send a valid patch that sets the status and no other field. |
| `Tasks.IndexOf` | src/tasks/tasks.service.ts:196-202 | If it finds an index, the task there has the id and no earlier task has it. It finds none exactly when no task has the id. |
| `Lifecycle.NewTask` | src/tasks/tasks.service.ts:26-38 | The created task carries the given id, title, description and due date. Its status defaults to Pending and its priority to Medium. It has no `completedAt`, `createdAt == updatedAt == now`, and it meets the field limits. |
| `Lifecycle.CalculateCompletedAt` | src/tasks/tasks.service.ts:204-209 | The completion time changes only to `now`. It becomes `now` when the patch moves the task into Completed from another status, and otherwise stays what it was. |
| `Lifecycle.ApplyPatch` | src/tasks/tasks.service.ts:59-69 | Supplied fields overwrite and absent fields are kept. `id` and `createdAt` are preserved and `updatedAt` becomes `now`. `completedAt` changes only on a move into Completed, and then to `now`. Valid patches keep the field limits. |
| `Lifecycle.Complete` | src/tasks/tasks.service.ts:110-116 | The task becomes Completed with `completedAt == updatedAt == now`, whatever its previous status. No other field changes. |
| `Lifecycle.RecompletionDiffers` | src/tasks/tasks.service.ts:204-209 | For a task that is already Completed, an update to Completed keeps the old completion time, while `markAsCompleted` refreshes it. |
| `Lifecycle.ReopeningKeepsCompletedAt` | src/tasks/tasks.service.ts:119-125 | Moving a completed task to Pending or InProgress sets the status and keeps the completion time. |
| `Lifecycle.CompletingAgainOverwrites` | src/tasks/tasks.service.ts:204-209 | Completing, reopening and completing again leaves the time of the last completion. |
| `Lifecycle.TimestampsStayOrdered` | src/tasks/tasks.service.ts:63-69 | If the clock does not run backwards, `createdAt <= updatedAt` survives an update and a completion. |
| `Lifecycle.CreatedCompletedHasNoCompletedAt` | src/tasks/tasks.service.ts:32-35 | A task created with status Completed has no completion time. |
| `Sorting.CompareDates` | src/tasks/tasks.service.ts:189-194 | A missing date is greater than any present one, and two missing dates compare equal. Two present dates compare by their milliseconds. |
| `Sorting.Compare` | src/tasks/tasks.service.ts:165-183 | The sign of the ascending comparison follows the key: `createdAt` and `updatedAt` by their milliseconds, priority by its rank, and a due date before a missing one. On titles it is zero exactly for equal titles. |
| `Sorting.Directed` | src/tasks/tasks.service.ts:185 | Ascending, `a` does not come after `b` exactly when the key comparison is not positive. Descending, this holds exactly when, ascending, `b` does not come after `a`. |
| `Sorting.CompareTitles` | src/tasks/tasks.service.ts:178-179 | The title comparison returns -1, 0 or 1, and returns 0 exactly for equal titles. |
| `Sorting.CompareTitlesAntisymmetric` | src/tasks/tasks.service.ts:178-179 | Swapping the titles negates the comparison. |
| `Sorting.CompareTitlesTransitive` | src/tasks/tasks.service.ts:178-179 | "Not after" on titles is transitive. |
| `Sorting.DirectedAntisymmetric` | src/tasks/tasks.service.ts:162-186 | On every key and in both directions, swapping two tasks negates the comparator. |
| `Sorting.DirectedTransitive` | src/tasks/tasks.service.ts:162-186 | On every key and in both directions, "not after" is transitive. So the comparator is a consistent total preorder. |
| `Sorting.SortTasks` | src/tasks/tasks.service.ts:158-187 | The result is a permutation of the input, ordered by the comparator that the key and direction select. |
| `Sorting.MissingDueDateLastWhenAscending` | src/tasks/tasks.service.ts:189-194 | Sorted by due date ascending, every task with a due date precedes every task without one. |
| `Sorting.MissingDueDateFirstWhenDescending` | src/tasks/tasks.service.ts:185 | Sorted by due date descending, every task without a due date precedes every task with one. |
| `Sorting.PriorityDescendingOrder` | src/tasks/tasks.service.ts:175-177 | Sorted by priority descending, a lower priority never precedes a higher one. |
| `Query.Filter` | src/tasks/tasks.service.ts:130-153 | The result is a subsequence of the input in input order. Every element satisfies the predicate, and each satisfying element occurs as often as in the input. |
| `Query.FilterFusion` | src/tasks/tasks.service.ts:130-153 | Two filters in a row select exactly what one filter by their conjunction selects. |
| `Query.Contains` | src/tasks/tasks.service.ts:141-142 | The empty term is contained in every text, and a term longer than the text is contained in none. |
| `Query.ContainsIff` | src/tasks/tasks.service.ts:141-142 | The substring test holds exactly when the term occurs at some position of the text. |
| `Query.ToLower` | src/tasks/tasks.service.ts:139 | Lowering keeps the length and maps each character through the ASCII lowering. |
| `Query.ToLowerIdempotent` | src/tasks/tasks.service.ts:139-142 | Lowering twice is the same as lowering once. |
| `Query.MatchesSearch` | src/tasks/tasks.service.ts:138-143 | A task matches exactly when the lowered term occurs in its lowered title, or in its lowered description when it has one. |
| `Query.SearchIgnoresCase` | src/tasks/tasks.service.ts:138-143 | Two terms that lower to the same string select the same tasks. |
| `Query.EmptySearchMatchesAll` | src/tasks/tasks.service.ts:138 | An empty term matches every task. So treating it as no search, as the source does, selects the same tasks. |
| `Query.IsOverdue` | src/tasks/tasks.service.ts:91-93 | Only a task that has a due date and is not Completed can be overdue. |
| `Query.OverdueStaysOverdue` | src/tasks/tasks.service.ts:149-151 | A task that is overdue at some time is still overdue at any later time. |
| `Query.CompletingEndsOverdue` | src/tasks/tasks.service.ts:91-93 | After `markAsCompleted`, or after an update to Completed, a task is not overdue at any time. |
| `Query.FindByStatus` | src/tasks/tasks.service.ts:80-82 | The result is a subsequence of the store. It holds only tasks with that status, and every stored task with it as often as the store holds it. |
| `Query.FindByPriority` | src/tasks/tasks.service.ts:84-86 | The result is a subsequence of the store. It holds only tasks with that priority, and every stored task with it as often as the store holds it. |
| `Query.FindOverdue` | src/tasks/tasks.service.ts:88-95 | Every returned task has a due date before `now` and is not Completed, and every such stored task is returned, in store order. |
| `Query.ApplyFilters` | src/tasks/tasks.service.ts:127-153 | The chain of the four optional filters equals one filter by the conjunction of the active predicates. |
| `Query.ApplyFiltersAndSort` | src/tasks/tasks.service.ts:127-156 | The result holds exactly the stored tasks that pass every active filter, with their multiplicities. It is ordered by the requested key and direction, by default `createdAt` descending. |
| `Query.FindAll` | src/tasks/tasks.service.ts:44-49 | Without a filter the result is the store in insertion order. With one it is a permutation of the filtered tasks, ordered by the requested key and direction, by default `createdAt` descending. |
| `Stats.CompletionRate` | src/tasks/tasks.service.ts:106 | The rate is 0 for an empty store. Otherwise it is the nearest whole percentage of completed tasks, with halves rounded up. It lies in 0..100 and is 100 when every task is completed. |
| `Stats.StatusCountsPartition` | src/tasks/tasks.service.ts:98-105 | The completed, pending and in-progress counts add up to the number of tasks. |
| `Stats.GetStats` | src/tasks/tasks.service.ts:97-108 | `completed`, `pending` and `inProgress` are the numbers of tasks with those statuses, and they add up to the total. The rate is `CompletionRate` of the completed count over the total, so it is the rounded percentage in 0..100. An empty store gives all zeros. |
| `Store.TaskStore.FindTaskIndex` | src/tasks/tasks.service.ts:196-202 | It returns the first index holding the id, or NotFound exactly when no task has the id. |
| `Store.TaskStore.FindOne` | src/tasks/tasks.service.ts:51-57 | It returns the first stored task with the id, or NotFound exactly when there is none. |
| `Store.TaskStore.Create` | src/tasks/tasks.service.ts:26-42 | It appends exactly the new task and leaves the earlier tasks unchanged. Unique ids and field limits are kept. |
| `Store.TaskStore.Update` | src/tasks/tasks.service.ts:59-73 | For an unknown id it returns NotFound and leaves the store unchanged. Otherwise only the task at the id's index is replaced, by the merged record, which is returned. |
| `Store.TaskStore.Remove` | src/tasks/tasks.service.ts:75-78 | For an unknown id it returns NotFound and leaves the store unchanged. Otherwise exactly that task is removed and the others keep their order. The length drops by one and the id is then not found. |
| `Store.RemovedIdIsGone` | src/tasks/tasks.service.ts:75-78 | With unique ids, after the splice no task carries the removed id, and the remaining ids stay unique. |
| `Store.TaskStore.MarkAsCompleted` | src/tasks/tasks.service.ts:110-117 | For an unknown id it returns NotFound and leaves the store unchanged. Otherwise the stored task is replaced by its completion at `now`. |
| `Store.TaskStore.MarkAsInProgress` | src/tasks/tasks.service.ts:119-121 | It behaves exactly as an update that sets the status to InProgress. |
| `Store.TaskStore.MarkAsPending` | src/tasks/tasks.service.ts:123-125 | It behaves exactly as an update that sets the status to Pending. |
| `Scenarios.OverdueScenario` | src/tasks/tasks.service.ts:88-95 | Of a Low task due yesterday and a High task without a due date, both Pending, only the first is overdue. |
| `Scenarios.StatsScenario` | src/tasks/tasks.service.ts:97-108 | Two pending tasks give total 2, pending 2 and a rate of 0. |
| `Scenarios.PrioritySortScenario` | src/tasks/tasks.service.ts:175-185 | By priority descending, the High task comes before the Low one. |

## Left out

- The HTTP controller, parameter binding and the validation pipe are not part of this model. The validator's limits become preconditions instead: a title of 1 to 200 characters and a description of at most 1000 characters, on `Create` (through `ValidCreateInput`) and on `Update` (through `ValidPatch`).
- The search term's 1 to 100 character limit is not a precondition. An empty term matches every task (`Query.EmptySearchMatchesAll`), so no term length changes the result.
- `sortBy` and `sortOrder` are closed datatypes, so the comparator's `default` branch cannot be reached and is not modelled.
- The response interface declarations are not part of this model, because they carry no behaviour.
- The initial contents of the shared array are not part of this model, because that file is not available. A new `TaskStore` starts empty.
- UUID generation is not modelled. `Store.TaskStore.Create` takes the id as a parameter and requires that no stored task has it.
- The clock becomes a `now` parameter. `update` reads the clock twice, once for `completedAt` and once for `updatedAt`, which can differ by a millisecond. `Store.TaskStore.Update` uses one `now` for both.
- `Lifecycle.TimestampsStayOrdered`: `updatedAt >= createdAt` is proved only when the clock does not run backwards, because the source does not enforce this.
- `Lifecycle.ApplyPatch`: a patch field sent as an explicit `null` is treated as absent. The source's spread copies such a null onto the stored task for title, description, status and priority, but `Option` cannot express a present null. So the model does not capture a stored null status, which `getStats` would then count in no status, or a stored null title, which would make a later search throw. The 200 and 1000 character limits count Dafny characters, not the UTF-16 code units that `MaxLength` counts.
- Due dates arrive as ISO strings and are parsed with `new Date`. The model receives them already as milliseconds.
- `Sorting.CompareTitles`: `localeCompare` (ICU collation) is modelled as a lexicographic comparison of character codes, so locale-specific collation orders are not reproduced.
- `Query.ToLower`: `toLowerCase` is modelled on ASCII letters only, so Unicode case mappings beyond A-Z are not reproduced.
- `Stats.CompletionRate`: `Math.round` of a floating-point quotient is modelled with exact integers, rounding halves up. Floating-point error just below an exact .5 is not reproduced.
- `Sorting.SortTasks`: the engine's sort procedure and its stability are not modelled. The result is specified as a permutation sorted by the comparator, and ties may be ordered either way.
- Tasks are values in the model. The objects that `findOne`, `create`, `update` and `findAll` return are shared with the store in the source, so a caller holding one sees a later `markAsCompleted` of that task. That aliasing is not modelled. `findAll`'s copy of the array is the sequence itself.
- Concurrency is not modelled, because the service is single-threaded and has no locking.
