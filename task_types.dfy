/** The task-board data model: priorities, statuses, tasks, columns and the
    board. Timestamps (`createdAt`, `dueDate`) are integers, milliseconds
    since the epoch, standing for the source's ISO date strings. */
module TaskTypes {
  import opened Wrappers
  import opened Seqs

  type TaskId = string
  type Timestamp = int

  datatype Priority = Low | Medium | High

  datatype Status = Todo | InProgress | Review | Done

  /** The four statuses in the order the board object lists its columns. */
  function AllStatuses(): (r: seq<Status>)
    ensures |r| == 4 && NoDup(r)
    ensures forall s: Status :: s in r
  {
    var r := [Todo, InProgress, Review, Done];
    assert forall s: Status :: s in r by {
      forall s: Status ensures s in r {
        assert s == r[0] || s == r[1] || s == r[2] || s == r[3];
      }
    }
    r
  }

  /** A status's position in `AllStatuses()`: the order in which the
      columns are enumerated. */
  function Rank(s: Status): (k: nat)
    ensures k < |AllStatuses()| && AllStatuses()[k] == s
  {
    match s
    case Todo => 0
    case InProgress => 1
    case Review => 2
    case Done => 3
  }

  /** The three priorities, lowest first. */
  function AllPriorities(): (r: seq<Priority>)
    ensures |r| == 3 && NoDup(r)
    ensures forall p: Priority :: p in r
  {
    var r := [Low, Medium, High];
    assert forall p: Priority :: p in r by {
      forall p: Priority ensures p in r {
        assert p == r[0] || p == r[1] || p == r[2];
      }
    }
    r
  }

  /** The string a status is written as (the column ids of the board). */
  function StatusKey(s: Status): string
  {
    match s
    case Todo => "todo"
    case InProgress => "inProgress"
    case Review => "review"
    case Done => "done"
  }

  /** The status a string names, if any. */
  function ParseStatus(key: string): (r: Option<Status>)
    ensures r.Some? ==> StatusKey(r.value) == key
    ensures r.None? ==> forall s: Status :: StatusKey(s) != key
  {
    if key == "todo" then Some(Todo)
    else if key == "inProgress" then Some(InProgress)
    else if key == "review" then Some(Review)
    else if key == "done" then Some(Done)
    else None
  }

  /** Writing a status and reading it back gives the status. */
  lemma ParseStatusKey(s: Status)
    ensures ParseStatus(StatusKey(s)) == Some(s)
  {
  }

  /** A stored task: `id` and `createdAt` are always there; `dueDate`,
      `assignedTo` and `tags` are optional. */
  datatype Task = Task(
    id: TaskId,
    title: string,
    description: string,
    priority: Priority,
    status: Status,
    dueDate: Option<Timestamp>,
    createdAt: Timestamp,
    assignedTo: Option<string>,
    tags: Option<seq<string>>)

  /** A task as it is handed to `addTask`: a task without `id` and `createdAt`. */
  datatype Draft = Draft(
    title: string,
    description: string,
    priority: Priority,
    status: Status,
    dueDate: Option<Timestamp>,
    assignedTo: Option<string>,
    tags: Option<seq<string>>)
  {
    /** `{ ...draft, id, createdAt }`. */
    function WithIdentity(id: TaskId, createdAt: Timestamp): (t: Task)
      ensures t.id == id && t.createdAt == createdAt && t.status == status
      ensures Forget(t) == this
    {
      Task(id, title, description, priority, status, dueDate, createdAt, assignedTo, tags)
    }
  }

  /** The draft part of a task: everything but `id` and `createdAt`. */
  function Forget(t: Task): Draft
  {
    Draft(t.title, t.description, t.priority, t.status, t.dueDate, t.assignedTo, t.tags)
  }

  /** One status column: its id, its heading and its ordered task ids. */
  datatype Column = Column(id: Status, title: string, taskIds: seq<TaskId>)

  /** `{ [key in Status]: Column }`: exactly one column for every status. */
  datatype Columns = Columns(todo: Column, inProgress: Column, review: Column, done: Column)
  {
    function Get(s: Status): Column
    {
      match s
      case Todo => todo
      case InProgress => inProgress
      case Review => review
      case Done => done
    }

    /** The columns with the one under `s` replaced by `c`. */
    function Set(s: Status, c: Column): (r: Columns)
      ensures r.Get(s) == c
      ensures forall s' :: s' != s ==> r.Get(s') == Get(s')
    {
      match s
      case Todo => this.(todo := c)
      case InProgress => this.(inProgress := c)
      case Review => this.(review := c)
      case Done => this.(done := c)
    }
  }

  /** The aggregate: the four columns and the map from id to task. */
  datatype Board = Board(columns: Columns, tasks: map<TaskId, Task>)

  /** `keys` lists the keys of `tasks`, each once: the order in which
      `Object.values` enumerates a map (a parameter, since Dafny maps have none). */
  predicate IsKeyOrder(keys: seq<TaskId>, tasks: map<TaskId, Task>)
  {
    NoDup(keys) && (forall k :: k in keys ==> k in tasks) && (forall k :: k in tasks ==> k in keys)
  }

  /** `Object.values(tasks)` in the enumeration order `keys`. */
  function Values(tasks: map<TaskId, Task>, keys: seq<TaskId>): (r: seq<Task>)
    requires forall k :: k in keys ==> k in tasks
    ensures |r| == |keys|
    ensures forall i :: 0 <= i < |keys| ==> r[i] == tasks[keys[i]]
  {
    seq(|keys|, i requires 0 <= i < |keys| => tasks[keys[i]])
  }

  /** The values list every task of the map, as many entries as the map has keys. */
  lemma ValuesCoverTasks(tasks: map<TaskId, Task>, keys: seq<TaskId>)
    requires IsKeyOrder(keys, tasks)
    ensures |Values(tasks, keys)| == |tasks|
    ensures forall k :: k in tasks ==> tasks[k] in Values(tasks, keys)
    ensures forall t :: t in Values(tasks, keys) ==> t in tasks.Values
  {
    NoDupCardinality(keys);
    assert (set x | x in keys) == tasks.Keys;
    var vs := Values(tasks, keys);
    forall k | k in tasks ensures tasks[k] in vs {
      var i :| 0 <= i < |keys| && keys[i] == k;
      assert vs[i] == tasks[k];
    }
  }

  /** Every stored task carries its own key as its id. */
  predicate KeyedById(tasks: map<TaskId, Task>)
  {
    forall k :: k in tasks ==> tasks[k].id == k
  }

  /** When tasks are keyed by their ids, `Object.values` lists no task twice
      and no id twice. */
  lemma ValuesNoDup(tasks: map<TaskId, Task>, keys: seq<TaskId>)
    requires IsKeyOrder(keys, tasks) && KeyedById(tasks)
    ensures NoDup(Values(tasks, keys))
    ensures forall i, j :: 0 <= i < j < |keys| ==> Values(tasks, keys)[i].id != Values(tasks, keys)[j].id
  {
    var vs := Values(tasks, keys);
    forall i, j | 0 <= i < j < |keys| ensures vs[i].id != vs[j].id {
      assert vs[i].id == keys[i] && vs[j].id == keys[j];
    }
  }

  /** The keys whose task satisfies `p`. */
  function KeysWhere(tasks: map<TaskId, Task>, p: Task -> bool): set<TaskId>
  {
    set k | k in tasks && p(tasks[k])
  }

  /** The keys listed in `keys` whose task satisfies `p`. */
  function ListedWhere(tasks: map<TaskId, Task>, keys: seq<TaskId>, p: Task -> bool): set<TaskId>
    requires forall k :: k in keys ==> k in tasks
  {
    set k | k in keys && p(tasks[k])
  }

  /** Listing one more key adds it to `ListedWhere` when its task satisfies `p`. */
  lemma ListedWhereCons(tasks: map<TaskId, Task>, keys: seq<TaskId>, p: Task -> bool)
    requires forall k :: k in keys ==> k in tasks
    requires keys != [] && keys[0] !in keys[1..]
    ensures |ListedWhere(tasks, keys, p)| == |ListedWhere(tasks, keys[1..], p)| + (if p(tasks[keys[0]]) then 1 else 0)
  {
    var all := ListedWhere(tasks, keys, p);
    var kept := ListedWhere(tasks, keys[1..], p);
    assert keys == [keys[0]] + keys[1..];
    if p(tasks[keys[0]]) {
      assert all == kept + {keys[0]};
    } else {
      assert all == kept;
    }
  }

  /** Counting the values of duplicate-free `keys` that satisfy `p` counts the listed keys whose task does. */
  lemma {:induction false} CountListed(tasks: map<TaskId, Task>, keys: seq<TaskId>, p: Task -> bool)
    requires NoDup(keys) && forall k :: k in keys ==> k in tasks
    ensures |Filter(Values(tasks, keys), p)| == |ListedWhere(tasks, keys, p)|
    decreases |keys|
  {
    if keys == [] {
      assert ListedWhere(tasks, keys, p) == {};
    } else {
      var rest := keys[1..];
      assert keys[0] !in rest && NoDup(rest) by {
        forall i | 0 <= i < |rest| ensures rest[i] != keys[0] {
          assert rest[i] == keys[i + 1];
        }
        forall i, j | 0 <= i < j < |rest| ensures rest[i] != rest[j] {
          assert rest[i] == keys[i + 1] && rest[j] == keys[j + 1];
        }
      }
      CountListed(tasks, rest, p);
      assert Values(tasks, keys) == [tasks[keys[0]]] + Values(tasks, rest);
      FilterConcat([tasks[keys[0]]], Values(tasks, rest), p);
      FilterSingle(tasks[keys[0]], p);
      ListedWhereCons(tasks, keys, p);
    }
  }

  /** Counting the values that satisfy `p` counts the keys whose task satisfies `p`. */
  lemma CountWhere(tasks: map<TaskId, Task>, keys: seq<TaskId>, p: Task -> bool)
    requires IsKeyOrder(keys, tasks)
    ensures |Filter(Values(tasks, keys), p)| == |KeysWhere(tasks, p)|
  {
    CountListed(tasks, keys, p);
    assert ListedWhere(tasks, keys, p) == KeysWhere(tasks, p);
  }
}
