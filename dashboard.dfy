/** The dashboard: four counters over the stored tasks and the five most
    recently created tasks. */
module Dashboard {
  import opened Seqs
  import opened TaskTypes
  import opened ByDate

  /** The counters the dashboard shows. */
  datatype Stats = Stats(total: nat, completed: nat, inProgress: nat, high: nat)

  predicate IsDone(t: Task) { t.status == Done }
  predicate IsInProgress(t: Task) { t.status == InProgress }
  predicate IsHigh(t: Task) { t.priority == High }

  /** The counters as the effect computes them from `Object.values`: the
      number of tasks, and the numbers whose status is done, whose status is
      in progress, and whose priority is high. Each is stated against the
      set of stored ids it counts (`KeysWhere`). */
  function ComputeStats(tasks: map<TaskId, Task>, keys: seq<TaskId>): (r: Stats)
    requires IsKeyOrder(keys, tasks)
    ensures r.total == |tasks|
    ensures r.completed == |KeysWhere(tasks, IsDone)|
    ensures r.inProgress == |KeysWhere(tasks, IsInProgress)|
    ensures r.high == |KeysWhere(tasks, IsHigh)|
  {
    var vs := Values(tasks, keys);
    ValuesCoverTasks(tasks, keys);
    CountWhere(tasks, keys, IsDone);
    CountWhere(tasks, keys, IsInProgress);
    CountWhere(tasks, keys, IsHigh);
    Stats(|vs|, |Filter(vs, IsDone)|, |Filter(vs, IsInProgress)|, |Filter(vs, IsHigh)|)
  }

  /** No task is both done and in progress, so the two counters together
      never exceed the total. */
  lemma CompletedAndInProgressBounded(tasks: map<TaskId, Task>, keys: seq<TaskId>)
    requires IsKeyOrder(keys, tasks)
    ensures var r := ComputeStats(tasks, keys); r.completed + r.inProgress <= r.total && r.high <= r.total
  {
    var vs := Values(tasks, keys);
    FilterDisjointLength(vs, IsDone, IsInProgress);
    ValuesCoverTasks(tasks, keys);
  }

  /** `getRecentTasks`: the tasks newest first, cut to the first five. */
  function RecentTasks(tasks: map<TaskId, Task>, keys: seq<TaskId>): (r: seq<Task>)
    requires IsKeyOrder(keys, tasks)
    ensures |r| <= 5
    ensures |r| == if |tasks| < 5 then |tasks| else 5
    ensures NewestFirstOrder(r)
    ensures forall t :: t in r ==> t in tasks.Values
    ensures multiset(r) <= multiset(Values(tasks, keys))
  {
    var vs := Values(tasks, keys);
    ValuesCoverTasks(tasks, keys);
    var sorted := NewestFirst(vs);
    NewestFirstMembers(vs);
    var n := if |sorted| < 5 then |sorted| else 5;
    SortedPrefix(sorted, n);
    assert sorted == sorted[..n] + sorted[n..];
    assert multiset(sorted) == multiset(sorted[..n]) + multiset(sorted[n..]);
    sorted[..n]
  }

  /** The cut keeps the newest tasks: a stored task that is not listed is
      no newer than the last listed one. */
  lemma RecentTasksAreNewest(tasks: map<TaskId, Task>, keys: seq<TaskId>, k: TaskId)
    requires IsKeyOrder(keys, tasks) && k in tasks
    ensures var r := RecentTasks(tasks, keys);
      tasks[k] !in r ==> |r| == 5 && tasks[k].createdAt <= r[4].createdAt
  {
    var vs := Values(tasks, keys);
    ValuesCoverTasks(tasks, keys);
    var sorted := NewestFirst(vs);
    NewestFirstMembers(vs);
    var r := RecentTasks(tasks, keys);
    assert r == sorted[..|r|];
    var i :| 0 <= i < |sorted| && sorted[i] == tasks[k];
    assert i < |r| ==> r[i] == tasks[k] && r[i] in r;
    assert |r| == 5 ==> r[4] == sorted[4];
  }

  /** On tasks stored under their own ids, the recent list repeats no task and no id. */
  lemma RecentTasksOnce(tasks: map<TaskId, Task>, keys: seq<TaskId>)
    requires IsKeyOrder(keys, tasks) && KeyedById(tasks)
    ensures var r := RecentTasks(tasks, keys);
      NoDup(r) && forall i, j :: 0 <= i < j < |r| ==> r[i].id != r[j].id
  {
    var r := RecentTasks(tasks, keys);
    var vs := Values(tasks, keys);
    ValuesNoDup(tasks, keys);
    NoDupCounts(vs);
    assert forall x :: multiset(r)[x] <= multiset(vs)[x];
    CountsNoDup(r);
    forall i, j | 0 <= i < j < |r| ensures r[i].id != r[j].id {
      assert r[i] in r && r[j] in r;
      assert tasks[r[i].id] == r[i] && tasks[r[j].id] == r[j];
    }
  }

  /** An empty board shows zero everywhere and no recent task. */
  lemma EmptyBoardDashboard()
    ensures ComputeStats(map[], []) == Stats(0, 0, 0, 0)
    ensures RecentTasks(map[], []) == []
  {
    CompletedAndInProgressBounded(map[], []);
  }
}
