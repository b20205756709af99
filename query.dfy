/**
 * The read side of the task store: `filter`-style selections over a
 * snapshot of the tasks, the case-insensitive search, the overdue test, and
 * the filter chain of `applyFiltersAndSort`.
 */
module Query {
  import opened Tasks
  import opened Sorting
  import Lifecycle

  /** `r` is `s` with some elements dropped, the rest in their order. */
  ghost predicate IsSubsequence<T>(r: seq<T>, s: seq<T>)
    decreases |s|
  {
    r == [] || (s != [] && ((r[0] == s[0] && IsSubsequence(r[1..], s[1..])) || IsSubsequence(r, s[1..])))
  }

  /** `Array.prototype.filter`: the elements of `s` that satisfy `p`, in order. */
  function Filter(s: seq<Task>, p: Task -> bool): (r: seq<Task>)
    ensures IsSubsequence(r, s)
    ensures |r| <= |s|
    ensures forall x :: x in r ==> p(x)
    ensures forall x :: multiset(r)[x] == if p(x) then multiset(s)[x] else 0
  {
    if s == [] then []
    else
      var rest := Filter(s[1..], p);
      assert s == [s[0]] + s[1..];
      if p(s[0]) then [s[0]] + rest else rest
  }

  /** Every element of `s` that satisfies `p` is kept by `Filter`. */
  lemma FilterKeeps(s: seq<Task>, p: Task -> bool, x: Task)
    requires x in s && p(x)
    ensures x in Filter(s, p)
  {
  }

  /** Two filters in a row select what one filter by the conjunction selects. */
  lemma {:induction false} FilterFusion(s: seq<Task>, p: Task -> bool, q: Task -> bool, pq: Task -> bool)
    requires forall x :: pq(x) == (p(x) && q(x))
    ensures Filter(Filter(s, p), q) == Filter(s, pq)
  {
    if s != [] {
      FilterFusion(s[1..], p, q, pq);
    }
  }

  /** A filter that every element passes keeps the whole sequence. */
  lemma {:induction false} FilterAll(s: seq<Task>, p: Task -> bool)
    requires forall x :: p(x)
    ensures Filter(s, p) == s
  {
    if s != [] {
      FilterAll(s[1..], p);
    }
  }

  // ---------------------------------------------------------------------
  // Search

  /** `toLowerCase` on ASCII: upper-case letters map to lower-case ones. */
  function LowerChar(c: char): (r: char)
    ensures 'A' <= c <= 'Z' ==> r as int == c as int + 32
    ensures !('A' <= c <= 'Z') ==> r == c
    ensures !('A' <= r <= 'Z')
  {
    if 'A' <= c <= 'Z' then (c as int + 32) as char else c
  }

  function ToLower(s: string): (r: string)
    ensures |r| == |s|
    ensures forall i :: 0 <= i < |s| ==> r[i] == LowerChar(s[i])
  {
    if s == [] then [] else [LowerChar(s[0])] + ToLower(s[1..])
  }

  /** Lowering twice is lowering once. */
  lemma ToLowerIdempotent(s: string)
    ensures ToLower(ToLower(s)) == ToLower(s)
  {
  }

  predicate IsPrefix(p: string, s: string) {
    |p| <= |s| && s[..|p|] == p
  }

  /**
   * `String.prototype.includes`: an empty term is contained in every text,
   * and a term longer than the text in none.
   */
  function Contains(s: string, sub: string): (r: bool)
    ensures sub == [] ==> r
    ensures r ==> |sub| <= |s|
    decreases |s|
  {
    IsPrefix(sub, s) || (s != [] && Contains(s[1..], sub))
  }

  ghost predicate OccursAt(s: string, sub: string, i: nat) {
    i + |sub| <= |s| && s[i..i + |sub|] == sub
  }

  /** A window of the tail of `s` is the window one position further on in `s`. */
  lemma SliceOfTail(s: string, i: nat, n: nat)
    requires 1 <= i && i + n <= |s|
    ensures s[1..][i - 1..i - 1 + n] == s[i..i + n]
  {
    var u, v := s[1..][i - 1..i - 1 + n], s[i..i + n];
    forall k | 0 <= k < n ensures u[k] == v[k] {
    }
  }

  lemma {:induction false} OccursImpliesContains(s: string, sub: string, i: nat)
    requires OccursAt(s, sub, i)
    ensures Contains(s, sub)
    decreases i
  {
    if i > 0 {
      SliceOfTail(s, i, |sub|);
      OccursImpliesContains(s[1..], sub, i - 1);
    }
  }

  lemma {:induction false} ContainsImpliesOccurs(s: string, sub: string)
    requires Contains(s, sub)
    ensures exists i: nat :: OccursAt(s, sub, i)
    decreases |s|
  {
    if IsPrefix(sub, s) {
      assert OccursAt(s, sub, 0);
    } else {
      ContainsImpliesOccurs(s[1..], sub);
      var i: nat :| OccursAt(s[1..], sub, i);
      SliceOfTail(s, i + 1, |sub|);
      assert OccursAt(s, sub, i + 1);
    }
  }

  /** `sub` occurs at some position of `s`. */
  ghost predicate OccursIn(s: string, sub: string) {
    exists i: nat :: OccursAt(s, sub, i)
  }

  /** `Contains` holds exactly when `sub` occurs at some position of `s`. */
  lemma ContainsIff(s: string, sub: string)
    ensures Contains(s, sub) <==> OccursIn(s, sub)
  {
    if Contains(s, sub) {
      ContainsImpliesOccurs(s, sub);
    }
    forall i: nat | OccursAt(s, sub, i) ensures Contains(s, sub) {
      OccursImpliesContains(s, sub, i);
    }
  }

  /**
   * The search filter: the lowered term occurs in the lowered title, or in
   * the lowered description when the task has one.
   */
  predicate MatchesSearch(t: Task, term: string): (b: bool)
    ensures b <==> OccursIn(ToLower(t.title), ToLower(term))
                   || (t.description.Some? && OccursIn(ToLower(t.description.value), ToLower(term)))
  {
    ContainsIff(ToLower(t.title), ToLower(term));
    var description := if t.description.Some? then t.description.value else [];
    ContainsIff(ToLower(description), ToLower(term));
    Contains(ToLower(t.title), ToLower(term))
    || (t.description.Some? && Contains(ToLower(t.description.value), ToLower(term)))
  }

  /** The search ignores the case of the term. */
  lemma SearchIgnoresCase(t: Task, a: string, b: string)
    requires ToLower(a) == ToLower(b)
    ensures MatchesSearch(t, a) == MatchesSearch(t, b)
  {
  }

  /**
   * An empty term, which the source treats as no search at all, matches
   * every task, so either reading selects the same tasks.
   */
  lemma EmptySearchMatchesAll(t: Task)
    ensures MatchesSearch(t, [])
  {
  }

  // ---------------------------------------------------------------------
  // Overdue

  /** Due before `now` and not Completed; a task without a due date is never overdue. */
  predicate IsOverdue(t: Task, now: Millis): (b: bool)
    ensures b ==> t.dueDate.Some? && t.status != Completed
  {
    t.dueDate.Some? && t.dueDate.value < now && t.status != Completed
  }

  /** A task that is overdue stays overdue as time passes. */
  lemma OverdueStaysOverdue(t: Task, now: Millis, later: Millis)
    requires IsOverdue(t, now) && now <= later
    ensures IsOverdue(t, later)
  {
  }

  /** Completing a task, by `markAsCompleted` or by an update, ends its being overdue. */
  lemma CompletingEndsOverdue(t: Task, at: Millis, now: Millis)
    ensures !IsOverdue(Lifecycle.Complete(t, at), now)
    ensures !IsOverdue(Lifecycle.ApplyPatch(t, StatusPatch(Completed), at), now)
  {
  }

  // ---------------------------------------------------------------------
  // The service's selections

  function FindByStatus(ts: seq<Task>, status: Status): (r: seq<Task>)
    ensures IsSubsequence(r, ts)
    ensures forall t :: t in r ==> t.status == status
    ensures forall t :: multiset(r)[t] == if t.status == status then multiset(ts)[t] else 0
    ensures forall t :: t in ts && t.status == status ==> t in r
  {
    var p := (t: Task) => t.status == status;
    var r := Filter(ts, p);
    forall t | t in ts && t.status == status ensures t in r {
      FilterKeeps(ts, p, t);
    }
    r
  }

  function FindByPriority(ts: seq<Task>, priority: Priority): (r: seq<Task>)
    ensures IsSubsequence(r, ts)
    ensures forall t :: t in r ==> t.priority == priority
    ensures forall t :: multiset(r)[t] == if t.priority == priority then multiset(ts)[t] else 0
    ensures forall t :: t in ts && t.priority == priority ==> t in r
  {
    var p := (t: Task) => t.priority == priority;
    var r := Filter(ts, p);
    forall t | t in ts && t.priority == priority ensures t in r {
      FilterKeeps(ts, p, t);
    }
    r
  }

  function FindOverdue(ts: seq<Task>, now: Millis): (r: seq<Task>)
    ensures IsSubsequence(r, ts)
    ensures forall t :: t in r ==> t.status != Completed && t.dueDate.Some? && t.dueDate.value < now
    ensures forall t :: t in ts && IsOverdue(t, now) ==> t in r
  {
    var p := (t: Task) => IsOverdue(t, now);
    var r := Filter(ts, p);
    forall t | t in ts && IsOverdue(t, now) ensures t in r {
      FilterKeeps(ts, p, t);
    }
    r
  }

  // ---------------------------------------------------------------------
  // The filter chain of `findAll`

  /** The filter a client passes to `findAll`; absent fields do not filter. */
  datatype TaskFilter = TaskFilter(
    status: Option<Status>,
    priority: Option<Priority>,
    search: Option<string>,
    isOverdue: bool,
    sortBy: Option<SortKey>,
    sortOrder: Option<SortOrder>)

  /** The conjunction of the active predicates of `f`. */
  predicate MatchesFilter(f: TaskFilter, t: Task, now: Millis) {
    && (f.status.Some? ==> t.status == f.status.value)
    && (f.priority.Some? ==> t.priority == f.priority.value)
    && (f.search.Some? ==> MatchesSearch(t, f.search.value))
    && (f.isOverdue ==> IsOverdue(t, now))
  }

  /** A filter step that runs only when its field is present. */
  function Stage(s: seq<Task>, active: bool, p: Task -> bool): seq<Task> {
    if active then Filter(s, p) else s
  }

  /** The four filters of `applyFiltersAndSort`, in the source's order. */
  function ApplyFilters(ts: seq<Task>, f: TaskFilter, now: Millis): (r: seq<Task>)
    ensures r == Filter(ts, t => MatchesFilter(f, t, now))
  {
    var p1 := (t: Task) => f.status.Some? ==> t.status == f.status.value;
    var p2 := (t: Task) => f.priority.Some? ==> t.priority == f.priority.value;
    var p3 := (t: Task) => f.search.Some? ==> MatchesSearch(t, f.search.value);
    var p4 := (t: Task) => f.isOverdue ==> IsOverdue(t, now);
    var s1 := Stage(ts, f.status.Some?, (t: Task) => f.status.Some? && t.status == f.status.value);
    var s2 := Stage(s1, f.priority.Some?, (t: Task) => f.priority.Some? && t.priority == f.priority.value);
    var s3 := Stage(s2, f.search.Some?, (t: Task) => f.search.Some? && MatchesSearch(t, f.search.value));
    var s4 := Stage(s3, f.isOverdue, (t: Task) => IsOverdue(t, now));
    StageIsFilter(ts, f.status.Some?, (t: Task) => f.status.Some? && t.status == f.status.value, p1);
    StageIsFilter(s1, f.priority.Some?, (t: Task) => f.priority.Some? && t.priority == f.priority.value, p2);
    StageIsFilter(s2, f.search.Some?, (t: Task) => f.search.Some? && MatchesSearch(t, f.search.value), p3);
    StageIsFilter(s3, f.isOverdue, (t: Task) => IsOverdue(t, now), p4);
    var p12 := (t: Task) => p1(t) && p2(t);
    var p123 := (t: Task) => p12(t) && p3(t);
    FilterFusion(ts, p1, p2, p12);
    FilterFusion(ts, p12, p3, p123);
    FilterFusion(ts, p123, p4, t => MatchesFilter(f, t, now));
    s4
  }

  /** Filters by pointwise equal predicates select the same elements. */
  lemma {:induction false} FilterExtensional(s: seq<Task>, p: Task -> bool, q: Task -> bool)
    requires forall x :: p(x) == q(x)
    ensures Filter(s, p) == Filter(s, q)
  {
    if s != [] {
      FilterExtensional(s[1..], p, q);
    }
  }

  /** A stage is a filter by "inactive, or the predicate holds". */
  lemma StageIsFilter(s: seq<Task>, active: bool, p: Task -> bool, q: Task -> bool)
    requires forall t :: q(t) == (active ==> p(t))
    ensures Stage(s, active, p) == Filter(s, q)
  {
    if active {
      FilterExtensional(s, p, q);
    } else {
      FilterAll(s, q);
    }
  }

  /**
   * `applyFiltersAndSort`: the tasks that pass every active filter, in the
   * order the requested key and direction give (createdAt, descending,
   * when absent).
   */
  function ApplyFiltersAndSort(ts: seq<Task>, f: TaskFilter, now: Millis): (r: seq<Task>)
    ensures forall t :: t in r ==> t in ts && MatchesFilter(f, t, now)
    ensures forall t :: t in ts && MatchesFilter(f, t, now) ==> t in r
    ensures multiset(r) == multiset(ApplyFilters(ts, f, now))
    ensures Sorted(r, f.sortBy.GetOr(DefaultSortKey), f.sortOrder.GetOr(DefaultSortOrder))
  {
    var filtered := ApplyFilters(ts, f, now);
    forall t | t in ts && MatchesFilter(f, t, now) ensures t in filtered {
      FilterKeeps(ts, t => MatchesFilter(f, t, now), t);
    }
    var r := SortTasks(filtered, f.sortBy.GetOr(DefaultSortKey), f.sortOrder.GetOr(DefaultSortOrder));
    assert forall t :: t in r <==> t in multiset(r);
    r
  }

  /**
   * `findAll`: without a filter, a copy of the store in insertion order;
   * with one, the filtered and sorted selection.
   */
  function FindAll(ts: seq<Task>, filter: Option<TaskFilter>, now: Millis): (r: seq<Task>)
    ensures filter.None? ==> r == ts
    ensures filter.Some? ==> multiset(r) == multiset(ApplyFilters(ts, filter.value, now))
    ensures filter.Some? ==>
              Sorted(r, filter.value.sortBy.GetOr(DefaultSortKey), filter.value.sortOrder.GetOr(DefaultSortOrder))
    ensures forall t :: t in r ==> t in ts
  {
    match filter
    case None => ts
    case Some(f) => ApplyFiltersAndSort(ts, f, now)
  }
}
