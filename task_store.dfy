/** The task-board store: a board of four status columns and a map of
    tasks, and the four operations `addTask`, `updateTask`, `deleteTask` and
    `moveTask`. The functions `Added`, `Updated`, `Deleted` and `Moved` give
    the board each operation produces; the class `TaskStore` performs the
    operations step by step on its fields and is proved to produce exactly
    those boards. The generated uuid and the clock are parameters. */
module TaskStore {
  import opened Wrappers
  import opened Seqs
  import opened TaskTypes

  /** One day in milliseconds, as the mock due dates compute it. */
  const DayMs: int := 24 * 60 * 60 * 1000

  // ---------------------------------------------------------------------
  // The board invariant

  /** How often `id` occurs in all the columns together. */
  function Count(cols: Columns, id: TaskId): nat
  {
    multiset(cols.todo.taskIds)[id] + multiset(cols.inProgress.taskIds)[id]
    + multiset(cols.review.taskIds)[id] + multiset(cols.done.taskIds)[id]
  }

  /** The structural invariant of the board: each column sits under its own
      status; every id in a column names a stored task whose status is that
      column (no dangling ids); and every task is stored under its own id and
      occurs exactly once in all the columns together. */
  ghost predicate Invariant(b: Board)
  {
    && (forall s: Status :: b.columns.Get(s).id == s)
    && (forall s: Status, id :: id in b.columns.Get(s).taskIds ==> id in b.tasks && b.tasks[id].status == s)
    && (forall id :: id in b.tasks ==> b.tasks[id].id == id && Count(b.columns, id) == 1)
  }

  /** `Object.keys(columns).find(c => columns[c].taskIds.includes(id))`: the
      first column, in the order todo, inProgress, review, done, holding `id`. */
  function FindColumn(cols: Columns, id: TaskId): (r: Option<Status>)
    ensures r.Some? ==> id in cols.Get(r.value).taskIds
    ensures r.Some? ==> forall s: Status :: Rank(s) < Rank(r.value) ==> id !in cols.Get(s).taskIds
    ensures r.None? ==> forall s: Status :: id !in cols.Get(s).taskIds
  {
    if id in cols.todo.taskIds then Some(Todo)
    else if id in cols.inProgress.taskIds then Some(InProgress)
    else if id in cols.review.taskIds then Some(Review)
    else if id in cols.done.taskIds then Some(Done)
    else None
  }

  // ---------------------------------------------------------------------
  // The boards the operations produce

  /** The columns after `columns[s].taskIds.push(id)`. */
  function Appended(cols: Columns, s: Status, id: TaskId): Columns
  {
    var c := cols.Get(s);
    cols.Set(s, c.(taskIds := c.taskIds + [id]))
  }

  /** The columns after `columns[s].taskIds = columns[s].taskIds.filter(x => x !== id)`. */
  function Removed(cols: Columns, s: Status, id: TaskId): Columns
  {
    var c := cols.Get(s);
    cols.Set(s, c.(taskIds := Without(c.taskIds, id)))
  }

  /** Removal from `src` followed by a push onto `dst`, as `updateTask` and
      `moveTask` do it (with `src == dst` the id ends up last in that column). */
  function Relocated(cols: Columns, id: TaskId, src: Status, dst: Status): Columns
  {
    Appended(Removed(cols, src, id), dst, id)
  }

  /** `addTask(draft)` with generated id `id` at time `now`. */
  function Added(b: Board, d: Draft, id: TaskId, now: Timestamp): Board
  {
    Board(Appended(b.columns, d.status, id), b.tasks[id := d.WithIdentity(id, now)])
  }

  /** `updateTask(t)`: the id must be in some column. */
  function Updated(b: Board, t: Task): Board
    requires FindColumn(b.columns, t.id).Some?
  {
    var oldStatus := FindColumn(b.columns, t.id).value;
    if oldStatus != t.status then Board(Relocated(b.columns, t.id, oldStatus, t.status), b.tasks[t.id := t])
    else Board(b.columns, b.tasks[t.id := t])
  }

  /** `deleteTask(id)`: the id must be in some column. */
  function Deleted(b: Board, id: TaskId): Board
    requires FindColumn(b.columns, id).Some?
  {
    Board(Removed(b.columns, FindColumn(b.columns, id).value, id), b.tasks - {id})
  }

  /** `moveTask(id, src, dst)`: `src` is taken on trust. */
  function Moved(b: Board, id: TaskId, src: Status, dst: Status): Board
    requires id in b.tasks
  {
    Board(Relocated(b.columns, id, src, dst), b.tasks[id := b.tasks[id].(status := dst)])
  }

  // ---------------------------------------------------------------------
  // The initial board

  function MockTasks(now: Timestamp): map<TaskId, Task>
  {
    map[
      "task-1" := Task("task-1", "Create new design system", "Implement the new design system for our product",
                       High, Todo, Some(now + 7 * DayMs), now, None, Some(["design", "ui"])),
      "task-2" := Task("task-2", "API Integration", "Integrate the new API endpoints with the frontend",
                       Medium, InProgress, Some(now + 3 * DayMs), now, None, Some(["backend", "api"])),
      "task-3" := Task("task-3", "Fix login bug", "Users cannot login using social providers",
                       High, InProgress, None, now, None, Some(["bug", "auth"])),
      "task-4" := Task("task-4", "Write documentation", "Create comprehensive documentation for devs",
                       Low, Todo, None, now, None, Some(["docs"])),
      "task-5" := Task("task-5", "Update dependencies", "Update all npm packages to latest versions",
                       Medium, Done, None, now, None, Some(["maintenance"])),
      "task-6" := Task("task-6", "Code review", "Review PR for new feature implementation",
                       Medium, Review, Some(now + 1 * DayMs), now, None, Some(["review"]))
    ]
  }

  /** The four columns the store starts with, each under its own status. */
  function InitialColumns(): Columns
  {
    Columns(
      Column(Todo, "To Do", ["task-1", "task-4"]),
      Column(InProgress, "In Progress", ["task-2", "task-3"]),
      Column(Review, "Review", ["task-6"]),
      Column(Done, "Done", ["task-5"]))
  }

  /** The board the store starts with; `now` is the load time of the module. */
  function InitialBoard(now: Timestamp): Board
  {
    Board(InitialColumns(), MockTasks(now))
  }

  /** The initial board satisfies the invariant. */
  lemma InitialBoardInvariant(now: Timestamp)
    ensures Invariant(InitialBoard(now))
  {
    var b := InitialBoard(now);
    var ts := MockTasks(now);
    forall s: Status, x | x in b.columns.Get(s).taskIds ensures x in ts && ts[x].status == s {
      match s
      case Todo => assert x == "task-1" || x == "task-4";
      case InProgress => assert x == "task-2" || x == "task-3";
      case Review => assert x == "task-6";
      case Done => assert x == "task-5";
    }
    forall x | x in ts ensures ts[x].id == x && Count(b.columns, x) == 1 {
      InitialCount(x);
    }
  }

  /** Each mock id occurs exactly once in the initial columns. */
  lemma InitialCount(x: TaskId)
    requires x in {"task-1", "task-2", "task-3", "task-4", "task-5", "task-6"}
    ensures Count(InitialColumns(), x) == 1
  {
    var c := InitialColumns();
    assert multiset(c.todo.taskIds)[x] == if x == "task-1" || x == "task-4" then 1 else 0;
    assert multiset(c.inProgress.taskIds)[x] == if x == "task-2" || x == "task-3" then 1 else 0;
    assert multiset(c.review.taskIds)[x] == if x == "task-6" then 1 else 0;
    assert multiset(c.done.taskIds)[x] == if x == "task-5" then 1 else 0;
  }

  // ---------------------------------------------------------------------
  // Facts about the column operations

  /** Replacing the column under `s` changes counts by that column's counts only. */
  lemma CountSet(cols: Columns, s: Status, c: Column, x: TaskId)
    ensures Count(cols.Set(s, c), x) == Count(cols, x) - multiset(cols.Get(s).taskIds)[x] + multiset(c.taskIds)[x]
  {
    match s
    case Todo =>
    case InProgress =>
    case Review =>
    case Done =>
  }

  /** When only the column under `st` may hold `x`, the count is that column's. */
  lemma CountOneColumn(cols: Columns, st: Status, x: TaskId)
    requires forall s: Status :: s != st ==> x !in cols.Get(s).taskIds
    ensures Count(cols, x) == multiset(cols.Get(st).taskIds)[x]
  {
    assert cols.Get(Todo) == cols.todo && cols.Get(InProgress) == cols.inProgress;
    assert cols.Get(Review) == cols.review && cols.Get(Done) == cols.done;
    assert forall s: Status :: s != st ==> multiset(cols.Get(s).taskIds)[x] == 0;
    match st
    case Todo =>
    case InProgress =>
    case Review =>
    case Done =>
  }

  /** A push adds one occurrence of the pushed id and none of any other. */
  lemma AppendedCount(cols: Columns, s: Status, id: TaskId, x: TaskId)
    ensures Count(Appended(cols, s, id), x) == Count(cols, x) + (if x == id then 1 else 0)
  {
    var c := cols.Get(s);
    CountSet(cols, s, c.(taskIds := c.taskIds + [id]), x);
    assert multiset(c.taskIds + [id]) == multiset(c.taskIds) + multiset{id};
  }

  /** A filter removes every occurrence of the id from its column and keeps the rest. */
  lemma RemovedCount(cols: Columns, s: Status, id: TaskId, x: TaskId)
    ensures Count(Removed(cols, s, id), x) == Count(cols, x) - (if x == id then multiset(cols.Get(s).taskIds)[x] else 0)
  {
    var c := cols.Get(s);
    CountSet(cols, s, c.(taskIds := Without(c.taskIds, id)), x);
    WithoutMultiset(c.taskIds, id);
  }

  /** Membership after a relocation: `id` has left `src` and joined `dst`;
      every other id stays where it was. */
  lemma RelocatedMembers(cols: Columns, id: TaskId, src: Status, dst: Status, s: Status, x: TaskId)
    ensures x in Relocated(cols, id, src, dst).Get(s).taskIds
        <==> (x in cols.Get(s).taskIds && !(x == id && s == src)) || (x == id && s == dst)
  {
  }

  /** A push keeps every column's id and adds the pushed id to the column under `st` only. */
  lemma AppendedShape(cols: Columns, st: Status, id: TaskId, s: Status, x: TaskId)
    ensures Appended(cols, st, id).Get(s).id == cols.Get(s).id
    ensures x in Appended(cols, st, id).Get(s).taskIds <==> x in cols.Get(s).taskIds || (x == id && s == st)
  {
  }

  /** A relocation keeps every column's id. */
  lemma RelocatedIds(cols: Columns, id: TaskId, src: Status, dst: Status, s: Status)
    ensures Relocated(cols, id, src, dst).Get(s).id == cols.Get(s).id
  {
  }

  // ---------------------------------------------------------------------
  // What the invariant gives

  /** Under the invariant, a stored task's id sits in its status's column
      exactly once and in no other column. */
  lemma {:induction false} ExactlyOneColumn(b: Board, id: TaskId)
    requires Invariant(b) && id in b.tasks
    ensures multiset(b.columns.Get(b.tasks[id].status).taskIds)[id] == 1
    ensures forall s: Status :: s != b.tasks[id].status ==> id !in b.columns.Get(s).taskIds
  {
    var st := b.tasks[id].status;
    assert forall s: Status :: s != st ==> id !in b.columns.Get(s).taskIds;
    CountOneColumn(b.columns, st, id);
  }

  /** Under the invariant, the column `updateTask` and `deleteTask` find is the
      task's status, and an id is found exactly when it is stored. */
  lemma {:induction false} FindColumnIsStatus(b: Board, id: TaskId)
    requires Invariant(b)
    ensures FindColumn(b.columns, id).Some? <==> id in b.tasks
    ensures id in b.tasks ==> FindColumn(b.columns, id) == Some(b.tasks[id].status)
  {
    if id in b.tasks {
      ExactlyOneColumn(b, id);
      assert id in b.columns.Get(b.tasks[id].status).taskIds;
    }
  }

  /** Every id in all the columns together, with multiplicity. */
  function Occurrences(cols: Columns): (m: multiset<TaskId>)
    ensures forall x :: m[x] == Count(cols, x)
    ensures |m| == |cols.todo.taskIds| + |cols.inProgress.taskIds| + |cols.review.taskIds| + |cols.done.taskIds|
  {
    multiset(cols.todo.taskIds) + multiset(cols.inProgress.taskIds)
    + multiset(cols.review.taskIds) + multiset(cols.done.taskIds)
  }

  /** Under the invariant the columns together hold exactly the stored ids,
      each once, so they list as many ids as there are tasks. */
  lemma {:induction false} ColumnsListEveryTaskOnce(b: Board)
    requires Invariant(b)
    ensures Occurrences(b.columns) == multiset(b.tasks.Keys)
    ensures |b.columns.todo.taskIds| + |b.columns.inProgress.taskIds| + |b.columns.review.taskIds|
            + |b.columns.done.taskIds| == |b.tasks|
  {
    var m := Occurrences(b.columns);
    forall x ensures m[x] == multiset(b.tasks.Keys)[x] {
      if x !in b.tasks {
        assert forall s: Status :: x !in b.columns.Get(s).taskIds;
        CountOneColumn(b.columns, Todo, x);
      }
    }
    assert m == multiset(b.tasks.Keys);
  }

  // ---------------------------------------------------------------------
  // The operations preserve the invariant

  /** `addTask` with a fresh id keeps the invariant. */
  lemma {:induction false} AddedKeepsInvariant(b: Board, d: Draft, id: TaskId, now: Timestamp)
    requires Invariant(b) && id !in b.tasks
    ensures Invariant(Added(b, d, id, now))
  {
    var r := Added(b, d, id, now);
    forall s: Status ensures r.columns.Get(s).id == s {
      AppendedShape(b.columns, d.status, id, s, id);
    }
    forall s: Status, x | x in r.columns.Get(s).taskIds ensures x in r.tasks && r.tasks[x].status == s {
      AppendedShape(b.columns, d.status, id, s, x);
    }
    forall x | x in r.tasks ensures r.tasks[x].id == x && Count(r.columns, x) == 1 {
      AppendedCount(b.columns, d.status, id, x);
      if x == id {
        assert forall s: Status :: id !in b.columns.Get(s).taskIds;
        CountOneColumn(b.columns, d.status, id);
      }
    }
  }

  /** Moving a stored task from its own column to `t`'s status while storing
      `t` in its place keeps the invariant; `updateTask` and `moveTask` both
      take this step. */
  lemma {:induction false} RelocatedKeepsInvariant(b: Board, t: Task)
    requires Invariant(b) && t.id in b.tasks
    ensures Invariant(Board(Relocated(b.columns, t.id, b.tasks[t.id].status, t.status), b.tasks[t.id := t]))
  {
    var id := t.id;
    var src := b.tasks[id].status;
    var r := Board(Relocated(b.columns, id, src, t.status), b.tasks[id := t]);
    ExactlyOneColumn(b, id);
    CountOneColumn(b.columns, src, id);
    forall s: Status ensures r.columns.Get(s).id == s {
      RelocatedIds(b.columns, id, src, t.status, s);
    }
    forall s: Status, x | x in r.columns.Get(s).taskIds ensures x in r.tasks && r.tasks[x].status == s {
      RelocatedMembers(b.columns, id, src, t.status, s, x);
    }
    forall x | x in r.tasks ensures r.tasks[x].id == x && Count(r.columns, x) == 1 {
      RemovedCount(b.columns, src, id, x);
      AppendedCount(Removed(b.columns, src, id), t.status, id, x);
    }
  }

  /** `updateTask` on an id that is in some column keeps the invariant. */
  lemma {:induction false} UpdatedKeepsInvariant(b: Board, t: Task)
    requires Invariant(b) && FindColumn(b.columns, t.id).Some?
    ensures Invariant(Updated(b, t))
  {
    FindColumnIsStatus(b, t.id);
    if b.tasks[t.id].status != t.status {
      RelocatedKeepsInvariant(b, t);
    }
  }

  /** `deleteTask` on an id that is in some column keeps the invariant. */
  lemma {:induction false} DeletedKeepsInvariant(b: Board, id: TaskId)
    requires Invariant(b) && FindColumn(b.columns, id).Some?
    ensures Invariant(Deleted(b, id))
  {
    FindColumnIsStatus(b, id);
    var st := b.tasks[id].status;
    var r := Deleted(b, id);
    forall s: Status, x | x in r.columns.Get(s).taskIds ensures x in r.tasks && r.tasks[x].status == s {
      assert x in b.columns.Get(s).taskIds && x != id;
    }
    forall x | x in r.tasks ensures r.tasks[x].id == x && Count(r.columns, x) == 1 {
      RemovedCount(b.columns, st, id, x);
    }
  }

  /** `moveTask` called with the task's current status as source keeps the invariant. */
  lemma {:induction false} MovedKeepsInvariant(b: Board, id: TaskId, src: Status, dst: Status)
    requires Invariant(b) && id in b.tasks && src == b.tasks[id].status
    ensures Invariant(Moved(b, id, src, dst))
  {
    RelocatedKeepsInvariant(b, b.tasks[id].(status := dst));
  }

  // ---------------------------------------------------------------------
  // What each operation does to a consistent board

  /** After `addTask` the new task is stored under the fresh id with the
      draft's fields, that id and `createdAt`; it is the last id of the draft
      status's column; the other columns and tasks are unchanged. */
  lemma AddedStoresTask(b: Board, d: Draft, id: TaskId, now: Timestamp)
    requires Invariant(b) && id !in b.tasks
    ensures var r := Added(b, d, id, now);
      && id in r.tasks && Forget(r.tasks[id]) == d && r.tasks[id].id == id && r.tasks[id].createdAt == now
      && r.columns.Get(d.status) == b.columns.Get(d.status).(taskIds := b.columns.Get(d.status).taskIds + [id])
      && (forall s: Status :: s != d.status ==> r.columns.Get(s) == b.columns.Get(s))
      && (forall k :: k in b.tasks ==> k in r.tasks && r.tasks[k] == b.tasks[k])
      && FindColumn(r.columns, id) == Some(d.status)
  {
    AddedKeepsInvariant(b, d, id, now);
    FindColumnIsStatus(Added(b, d, id, now), id);
  }

  /** `updateTask` with a changed status takes the id out of its old column,
      puts it last in the new status's column and stores the new record; the
      other two columns are unchanged. */
  lemma UpdatedChangesColumn(b: Board, t: Task)
    requires Invariant(b) && t.id in b.tasks && b.tasks[t.id].status != t.status
    ensures FindColumn(b.columns, t.id).Some?
    ensures var r := Updated(b, t); var was := b.tasks[t.id].status;
      && t.id !in r.columns.Get(was).taskIds
      && r.columns.Get(was) == b.columns.Get(was).(taskIds := Without(b.columns.Get(was).taskIds, t.id))
      && r.columns.Get(t.status) == b.columns.Get(t.status).(taskIds := b.columns.Get(t.status).taskIds + [t.id])
      && (forall s: Status :: s != was && s != t.status ==> r.columns.Get(s) == b.columns.Get(s))
      && r.tasks == b.tasks[t.id := t]
  {
    FindColumnIsStatus(b, t.id);
  }

  /** `updateTask` with an unchanged status replaces the stored record only. */
  lemma UpdatedSameStatus(b: Board, t: Task)
    requires Invariant(b) && t.id in b.tasks && b.tasks[t.id].status == t.status
    ensures FindColumn(b.columns, t.id).Some?
    ensures Updated(b, t) == Board(b.columns, b.tasks[t.id := t])
  {
    FindColumnIsStatus(b, t.id);
  }

  /** After `deleteTask` the id is neither stored nor in any column, so a later
      `updateTask` or `deleteTask` of it would not find it; its own column keeps
      its other ids in order, and everything else is kept. */
  lemma DeletedRemovesTask(b: Board, id: TaskId)
    requires Invariant(b) && id in b.tasks
    ensures FindColumn(b.columns, id).Some?
    ensures var r := Deleted(b, id); var st := b.tasks[id].status;
      && id !in r.tasks && FindColumn(r.columns, id).None?
      && r.columns.Get(st).taskIds == Without(b.columns.Get(st).taskIds, id)
      && r.columns.Get(st).id == b.columns.Get(st).id && r.columns.Get(st).title == b.columns.Get(st).title
      && (forall k :: k in b.tasks && k != id ==> k in r.tasks && r.tasks[k] == b.tasks[k])
      && (forall s: Status :: s != st ==> r.columns.Get(s) == b.columns.Get(s))
  {
    FindColumnIsStatus(b, id);
    ExactlyOneColumn(b, id);
  }

  /** `moveTask(id, src, dst)` drops every `id` from `src`, appends it to `dst`
      and sets the task's status to `dst`, keeping its other fields. */
  lemma MovedRelocates(b: Board, id: TaskId, src: Status, dst: Status)
    requires id in b.tasks
    ensures var r := Moved(b, id, src, dst);
      && r.columns.Get(dst) == b.columns.Get(dst).(taskIds := (if src == dst then Without(b.columns.Get(dst).taskIds, id)
                                                             else b.columns.Get(dst).taskIds) + [id])
      && (src != dst ==> r.columns.Get(src) == b.columns.Get(src).(taskIds := Without(b.columns.Get(src).taskIds, id)))
      && (forall s: Status :: s != src && s != dst ==> r.columns.Get(s) == b.columns.Get(s))
      && r.tasks[id].status == dst && Forget(r.tasks[id]).(status := src) == Forget(b.tasks[id]).(status := src)
      && r.tasks[id].id == b.tasks[id].id && r.tasks[id].createdAt == b.tasks[id].createdAt
      && r.tasks.Keys == b.tasks.Keys
      && (forall k :: k in b.tasks && k != id ==> r.tasks[k] == b.tasks[k])
  {
  }

  /** The source is taken on trust: on a consistent board, moving a task
      with any source other than its current status leaves it listed twice
      (still in its own column, and once more in the target), which breaks
      the invariant. */
  lemma StaleSourceBreaksInvariant(b: Board, id: TaskId, src: Status, dst: Status)
    requires Invariant(b) && id in b.tasks && src != b.tasks[id].status
    ensures Count(Moved(b, id, src, dst).columns, id) == 2
    ensures id in Moved(b, id, src, dst).columns.Get(b.tasks[id].status).taskIds
    ensures id in Moved(b, id, src, dst).columns.Get(dst).taskIds
    ensures !Invariant(Moved(b, id, src, dst))
  {
    var st := b.tasks[id].status;
    ExactlyOneColumn(b, id);
    CountOneColumn(b.columns, st, id);
    RemovedCount(b.columns, src, id, id);
    AppendedCount(Removed(b.columns, src, id), dst, id, id);
    RelocatedMembers(b.columns, id, src, dst, st, id);
    RelocatedMembers(b.columns, id, src, dst, dst, id);
  }

  // ---------------------------------------------------------------------
  // The store object

  /** The store: the board's columns and task map, updated in place. */
  class TaskStore {
    var columns: Columns
    var tasks: map<TaskId, Task>

    /** The current board. */
    function Snapshot(): Board
      reads this
    {
      Board(columns, tasks)
    }

    ghost predicate Valid()
      reads this
    {
      Invariant(Snapshot())
    }

    /** The store starts with the initial board. */
    constructor (now: Timestamp)
      ensures Snapshot() == InitialBoard(now)
      ensures Valid()
    {
      columns := InitialBoard(now).columns;
      tasks := MockTasks(now);
      InitialBoardInvariant(now);
    }

    /** `addTask(draft)`; `freshId` is the generated uuid and `now` the clock. */
    method AddTask(d: Draft, freshId: TaskId, now: Timestamp)
      modifies this
      ensures Snapshot() == Added(old(Snapshot()), d, freshId, now)
      ensures old(Valid()) && freshId !in old(tasks) ==> Valid()
    {
      ghost var b := Snapshot();
      var newTask := d.WithIdentity(freshId, now);
      tasks := tasks[freshId := newTask];
      var c := columns.Get(d.status);
      columns := columns.Set(d.status, c.(taskIds := c.taskIds + [freshId]));
      if Invariant(b) && freshId !in b.tasks {
        AddedKeepsInvariant(b, d, freshId, now);
      }
    }

    /** `updateTask(t)`; the id must be in some column. */
    method UpdateTask(t: Task)
      requires FindColumn(columns, t.id).Some?
      modifies this
      ensures Snapshot() == Updated(old(Snapshot()), t)
      ensures old(Valid()) ==> Valid()
    {
      ghost var b := Snapshot();
      var oldStatus := FindColumn(columns, t.id).value;
      if oldStatus != t.status {
        var src := columns.Get(oldStatus);
        columns := columns.Set(oldStatus, src.(taskIds := Without(src.taskIds, t.id)));
        var dst := columns.Get(t.status);
        columns := columns.Set(t.status, dst.(taskIds := dst.taskIds + [t.id]));
        tasks := tasks[t.id := t];
      } else {
        tasks := tasks[t.id := t];
      }
      if Invariant(b) {
        UpdatedKeepsInvariant(b, t);
      }
    }

    /** `deleteTask(id)`; the id must be in some column. */
    method DeleteTask(id: TaskId)
      requires FindColumn(columns, id).Some?
      modifies this
      ensures Snapshot() == Deleted(old(Snapshot()), id)
      ensures old(Valid()) ==> Valid()
    {
      ghost var b := Snapshot();
      var status := FindColumn(columns, id).value;
      var c := columns.Get(status);
      columns := columns.Set(status, c.(taskIds := Without(c.taskIds, id)));
      tasks := tasks - {id};
      if Invariant(b) {
        DeletedKeepsInvariant(b, id);
      }
    }

    /** `moveTask(id, src, dst)`; the task must be stored. */
    method MoveTask(id: TaskId, src: Status, dst: Status)
      requires id in tasks
      modifies this
      ensures Snapshot() == Moved(old(Snapshot()), id, src, dst)
      ensures old(Valid()) && src == old(tasks[id].status) ==> Valid()
    {
      ghost var b := Snapshot();
      var from := columns.Get(src);
      columns := columns.Set(src, from.(taskIds := Without(from.taskIds, id)));
      var to := columns.Get(dst);
      columns := columns.Set(dst, to.(taskIds := to.taskIds + [id]));
      tasks := tasks[id := tasks[id].(status := dst)];
      if Invariant(b) && src == b.tasks[id].status {
        MovedKeepsInvariant(b, id, src, dst);
      }
    }
  }
}
