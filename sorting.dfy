/**
 * The comparator of `sortTasks` and the order it imposes. The engine's
 * `Array.prototype.sort` is not modelled step by step: `SortTasks` is a
 * reference insertion sort, and what is proved of it (a permutation,
 * ordered by the comparator) is what any correct sort with this comparator
 * returns.
 */
module Sorting {
  import opened Tasks

  datatype SortKey = CreatedAt | UpdatedAt | DueDate | PriorityKey | Title

  datatype SortOrder = Asc | Desc

  const DefaultSortKey: SortKey := CreatedAt
  const DefaultSortOrder: SortOrder := Desc

  /**
   * `compareDates`: instants compare by their milliseconds; a missing date
   * is greater than any present one, and two missing dates are equal.
   */
  function CompareDates(a: Option<Millis>, b: Option<Millis>): (r: int)
    ensures a.None? && b.None? ==> r == 0
    ensures a.None? && b.Some? ==> r > 0
    ensures a.Some? && b.None? ==> r < 0
    ensures a.Some? && b.Some? ==> (r < 0 <==> a.value < b.value) && (r == 0 <==> a.value == b.value)
  {
    if a.None? && b.None? then 0
    else if a.None? then 1
    else if b.None? then -1
    else a.value - b.value
  }

  /**
   * `localeCompare`, modelled as the lexicographic order of character
   * codes: negative, zero or positive as `a` sorts before, with or after `b`.
   */
  function CompareTitles(a: string, b: string): (r: int)
    ensures -1 <= r <= 1
    ensures r == 0 <==> a == b
  {
    if a == [] && b == [] then 0
    else if a == [] then -1
    else if b == [] then 1
    else if a[0] < b[0] then -1
    else if a[0] > b[0] then 1
    else
      var r := CompareTitles(a[1..], b[1..]);
      assert r == 0 ==> a == [a[0]] + a[1..] == [b[0]] + b[1..] == b;
      r
  }

  lemma {:induction false} CompareTitlesAntisymmetric(a: string, b: string)
    ensures CompareTitles(a, b) == -CompareTitles(b, a)
  {
    if a != [] && b != [] && a[0] == b[0] {
      CompareTitlesAntisymmetric(a[1..], b[1..]);
    }
  }

  lemma {:induction false} CompareTitlesTransitive(a: string, b: string, c: string)
    requires CompareTitles(a, b) <= 0 && CompareTitles(b, c) <= 0
    ensures CompareTitles(a, c) <= 0
  {
    if a != [] && b != [] && c != [] && a[0] == b[0] == c[0] {
      CompareTitlesTransitive(a[1..], b[1..], c[1..]);
    }
  }

  /**
   * The ascending comparison of two tasks on one key: negative, zero or
   * positive as `a` sorts before, with or after `b`.
   */
  function Compare(key: SortKey, a: Task, b: Task): (r: int)
    ensures key == CreatedAt ==> (r < 0 <==> a.createdAt < b.createdAt) && (r == 0 <==> a.createdAt == b.createdAt)
    ensures key == UpdatedAt ==> (r < 0 <==> a.updatedAt < b.updatedAt) && (r == 0 <==> a.updatedAt == b.updatedAt)
    ensures key == DueDate && a.dueDate.None? && b.dueDate.Some? ==> r > 0
    ensures key == DueDate && a.dueDate.Some? && b.dueDate.None? ==> r < 0
    ensures key == PriorityKey ==> (r < 0 <==> PriorityOrder(a.priority) < PriorityOrder(b.priority))
    ensures key == PriorityKey ==> (r == 0 <==> a.priority == b.priority)
    ensures key == Title ==> (r == 0 <==> a.title == b.title)
  {
    match key
    case CreatedAt => a.createdAt - b.createdAt
    case UpdatedAt => a.updatedAt - b.updatedAt
    case DueDate => CompareDates(a.dueDate, b.dueDate)
    case PriorityKey => PriorityOrder(a.priority) - PriorityOrder(b.priority)
    case Title => CompareTitles(a.title, b.title)
  }

  /**
   * The comparator passed to `sort`: `desc` negates the ascending one, so
   * under `desc` `a` does not come after `b` exactly when, ascending, `b`
   * does not come after `a`.
   */
  function Directed(key: SortKey, order: SortOrder, a: Task, b: Task): (r: int)
    ensures order == Asc ==> (r <= 0 <==> Compare(key, a, b) <= 0)
    ensures order == Desc ==> (r <= 0 <==> Compare(key, b, a) <= 0)
  {
    CompareTitlesAntisymmetric(a.title, b.title);
    if order == Asc then Compare(key, a, b) else -Compare(key, a, b)
  }

  /** Swapping the arguments negates the comparison, on every key and in both directions. */
  lemma DirectedAntisymmetric(key: SortKey, order: SortOrder, a: Task, b: Task)
    ensures Directed(key, order, a, b) == -Directed(key, order, b, a)
  {
    if key == Title {
      CompareTitlesAntisymmetric(a.title, b.title);
    }
  }

  /** "Not after" is transitive, on every key and in both directions. */
  lemma DirectedTransitive(key: SortKey, order: SortOrder, a: Task, b: Task, c: Task)
    requires Directed(key, order, a, b) <= 0 && Directed(key, order, b, c) <= 0
    ensures Directed(key, order, a, c) <= 0
  {
    if key == Title {
      if order == Asc {
        CompareTitlesTransitive(a.title, b.title, c.title);
      } else {
        CompareTitlesAntisymmetric(a.title, b.title);
        CompareTitlesAntisymmetric(b.title, c.title);
        CompareTitlesAntisymmetric(a.title, c.title);
        CompareTitlesTransitive(c.title, b.title, a.title);
      }
    }
  }

  /** No element of `s` comes after a later one under the comparator. */
  ghost predicate Sorted(s: seq<Task>, key: SortKey, order: SortOrder) {
    forall i, j :: 0 <= i < j < |s| ==> Directed(key, order, s[i], s[j]) <= 0
  }

  /** Places `x` before the first element it does not come after. */
  function Insert(key: SortKey, order: SortOrder, x: Task, s: seq<Task>): (r: seq<Task>)
    ensures multiset(r) == multiset(s) + multiset{x}
    ensures |r| == |s| + 1
  {
    if s == [] then [x]
    else if Directed(key, order, x, s[0]) <= 0 then [x] + s
    else
      assert s == [s[0]] + s[1..];
      [s[0]] + Insert(key, order, x, s[1..])
  }

  /** A lower bound of `x` and of every element of `s` bounds all of `Insert(x, s)`. */
  lemma InsertLowerBound(key: SortKey, order: SortOrder, y: Task, x: Task, s: seq<Task>)
    requires Directed(key, order, y, x) <= 0
    requires forall k :: 0 <= k < |s| ==> Directed(key, order, y, s[k]) <= 0
    ensures forall k :: 0 <= k < |Insert(key, order, x, s)| ==> Directed(key, order, y, Insert(key, order, x, s)[k]) <= 0
  {
    var r := Insert(key, order, x, s);
    forall k | 0 <= k < |r| ensures Directed(key, order, y, r[k]) <= 0 {
      assert r[k] in multiset(r);
      assert r[k] == x || r[k] in multiset(s);
    }
  }

  lemma {:induction false} InsertSorted(key: SortKey, order: SortOrder, x: Task, s: seq<Task>)
    requires Sorted(s, key, order)
    ensures Sorted(Insert(key, order, x, s), key, order)
  {
    if s == [] {
    } else if Directed(key, order, x, s[0]) <= 0 {
      forall j | 0 <= j < |s| ensures Directed(key, order, x, s[j]) <= 0 {
        if j > 0 {
          DirectedTransitive(key, order, x, s[0], s[j]);
        }
      }
    } else {
      InsertSorted(key, order, x, s[1..]);
      DirectedAntisymmetric(key, order, x, s[0]);
      InsertLowerBound(key, order, s[0], x, s[1..]);
    }
  }

  /**
   * `sortTasks`: a permutation of the input, ordered by the comparator the
   * key and direction select.
   */
  function SortTasks(s: seq<Task>, key: SortKey, order: SortOrder): (r: seq<Task>)
    ensures multiset(r) == multiset(s)
    ensures |r| == |s|
    ensures Sorted(r, key, order)
  {
    if s == [] then []
    else
      var rest := SortTasks(s[1..], key, order);
      InsertSorted(key, order, s[0], rest);
      assert s == [s[0]] + s[1..];
      Insert(key, order, s[0], rest)
  }

  /**
   * By due date, ascending: every task with a due date precedes every task
   * without one.
   */
  lemma MissingDueDateLastWhenAscending(s: seq<Task>, i: nat, j: nat)
    requires Sorted(s, DueDate, Asc)
    requires i < |s| && j < |s| && s[i].dueDate.Some? && s[j].dueDate.None?
    ensures i < j
  {
  }

  /**
   * By due date, descending: the negation puts every task without a due
   * date before every task with one.
   */
  lemma MissingDueDateFirstWhenDescending(s: seq<Task>, i: nat, j: nat)
    requires Sorted(s, DueDate, Desc)
    requires i < |s| && j < |s| && s[i].dueDate.None? && s[j].dueDate.Some?
    ensures i < j
  {
  }

  /** By priority, descending: a higher priority never follows a lower one. */
  lemma PriorityDescendingOrder(s: seq<Task>, i: nat, j: nat)
    requires Sorted(s, PriorityKey, Desc)
    requires i < j < |s|
    ensures PriorityOrder(s[i].priority) >= PriorityOrder(s[j].priority)
  {
  }
}
