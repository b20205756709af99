/**
 * `getStats`: how many tasks the store holds in each status, and the
 * share of completed tasks as a whole percentage.
 */
module Stats {
  import opened Tasks
  import opened Query

  datatype TaskStats = TaskStats(
    total: nat,
    completed: nat,
    pending: nat,
    inProgress: nat,
    completionRate: nat)

  /**
   * `Math.round(completed / total * 100)`, or 0 for an empty store: the
   * nearest whole percentage, halves rounded up.
   */
  function CompletionRate(completed: nat, total: nat): (r: nat)
    requires completed <= total
    ensures total == 0 ==> r == 0
    ensures total > 0 ==> 2 * total * r <= 200 * completed + total < 2 * total * (r + 1)
    ensures r <= 100
    ensures completed == total && total > 0 ==> r == 100
  {
    if total > 0 then (200 * completed + total) / (2 * total) else 0
  }

  /** Every task has exactly one of the three statuses. */
  lemma {:induction false} StatusCountsPartition(ts: seq<Task>)
    ensures |FindByStatus(ts, Completed)| + |FindByStatus(ts, Pending)| + |FindByStatus(ts, InProgress)| == |ts|
  {
    if ts != [] {
      StatusCountsPartition(ts[1..]);
    }
  }

  function GetStats(ts: seq<Task>): (s: TaskStats)
    ensures s.total == |ts|
    ensures s.completed == |FindByStatus(ts, Completed)|
    ensures s.pending == |FindByStatus(ts, Pending)|
    ensures s.inProgress == |FindByStatus(ts, InProgress)|
    ensures s.completed + s.pending + s.inProgress == s.total
    ensures s.completionRate <= 100
    ensures s.total == 0 ==> s == TaskStats(0, 0, 0, 0, 0)
    ensures s.completed <= s.total && s.completionRate == CompletionRate(s.completed, s.total)
  {
    var completed := |FindByStatus(ts, Completed)|;
    var pending := |FindByStatus(ts, Pending)|;
    var inProgress := |FindByStatus(ts, InProgress)|;
    var total := |ts|;
    StatusCountsPartition(ts);
    TaskStats(total, completed, pending, inProgress, CompletionRate(completed, total))
  }
}
