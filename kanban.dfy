/** The kanban page: the column projection it renders, the decision taken
    when a drag ends, and its save routing. The drag-and-drop library is not
    modelled; a drag end arrives as the dragged id and the id of the drop
    target, if there is one. */
module Kanban {
  import opened Wrappers
  import opened TaskTypes
  import opened TaskStore
  import opened TaskDialog

  /** A column as the page renders it: the column's fields plus its ids
      resolved through the task map (`None` where the map has no entry). */
  datatype ColumnView = ColumnView(id: Status, title: string, taskIds: seq<TaskId>, tasks: seq<Option<Task>>)

  /** `board.tasks[id]`, which is `undefined` for a missing id. */
  function Lookup(tasks: map<TaskId, Task>, id: TaskId): Option<Task>
  {
    if id in tasks then Some(tasks[id]) else None
  }

  function ResolveAll(tasks: map<TaskId, Task>, ids: seq<TaskId>): (r: seq<Option<Task>>)
    ensures |r| == |ids|
    ensures forall j :: 0 <= j < |ids| ==> r[j] == Lookup(tasks, ids[j])
  {
    seq(|ids|, j requires 0 <= j < |ids| => Lookup(tasks, ids[j]))
  }

  /** `Object.values(board.columns).map(...)`: the columns in the order
      todo, inProgress, review, done, each with its task ids resolved in order. */
  function ColumnViews(b: Board): (r: seq<ColumnView>)
    ensures |r| == 4
    ensures forall i :: 0 <= i < 4 ==> var c := b.columns.Get(AllStatuses()[i]);
      && r[i].id == c.id && r[i].title == c.title && r[i].taskIds == c.taskIds
      && |r[i].tasks| == |c.taskIds|
      && forall j :: 0 <= j < |c.taskIds| ==> r[i].tasks[j] == Lookup(b.tasks, c.taskIds[j])
  {
    var statuses := AllStatuses();
    seq(4, i requires 0 <= i < 4 =>
      var c := b.columns.Get(statuses[i]);
      ColumnView(c.id, c.title, c.taskIds, ResolveAll(b.tasks, c.taskIds)))
  }

  /** On a board that keeps the invariant every entry of a projected column
      is a stored task whose id is the listed id and whose status is the
      column's. */
  lemma ColumnViewResolves(b: Board, i: nat)
    requires Invariant(b) && i < 4
    ensures var v := ColumnViews(b)[i];
      forall j :: 0 <= j < |v.tasks| ==>
        v.tasks[j].Some? && v.tasks[j].value.id == v.taskIds[j] && v.tasks[j].value.status == v.id == AllStatuses()[i]
  {
    var c := b.columns.Get(AllStatuses()[i]);
    forall j | 0 <= j < |c.taskIds| ensures c.taskIds[j] in b.tasks {
      assert c.taskIds[j] in c.taskIds;
    }
  }

  /** On a board that keeps the invariant the four projected columns show as
      many tasks as the board stores. */
  lemma ColumnViewsShowEveryTask(b: Board)
    requires Invariant(b)
    ensures var r := ColumnViews(b);
      |r[0].tasks| + |r[1].tasks| + |r[2].tasks| + |r[3].tasks| == |b.tasks|
  {
    var r := ColumnViews(b);
    assert |r[0].tasks| == |b.columns.todo.taskIds|;
    assert |r[1].tasks| == |b.columns.inProgress.taskIds|;
    assert |r[2].tasks| == |b.columns.review.taskIds|;
    assert |r[3].tasks| == |b.columns.done.taskIds|;
    ColumnsListEveryTaskOnce(b);
  }

  /** What a drag end asks of the store. */
  datatype DragOutcome = Unchanged | Move(id: TaskId, src: Status, dst: Status)

  /** `handleDragEnd` reads `board.tasks[active].status` when the drop target
      is a column; the dragged task must then be stored. */
  predicate DropReadsTask(b: Board, active: TaskId, over: Option<string>)
  {
    over.Some? && over.value != active && ParseStatus(over.value).Some? ==> active in b.tasks
  }

  /** `handleDragEnd`'s decision: nothing happens without a drop target, when
      the target is the dragged task itself, or when the target is not a
      column id (another task, say); a drop on a column moves the task from
      its current status to that column. */
  function DragEndDecision(b: Board, active: TaskId, over: Option<string>): (r: DragOutcome)
    requires DropReadsTask(b, active, over)
    ensures r.Unchanged? <==> over.None? || over.value == active || ParseStatus(over.value).None?
    ensures r.Move? ==> r.id == active && r.id in b.tasks && r.src == b.tasks[active].status
    ensures r.Move? ==> StatusKey(r.dst) == over.value
  {
    if over.None? || active == over.value then Unchanged
    else match ParseStatus(over.value)
      case Some(target) => Move(active, b.tasks[active].status, target)
      case None => Unchanged
  }

  /** The board after the store carries out a drag outcome. */
  function AfterDrag(b: Board, o: DragOutcome): Board
    requires o.Move? ==> o.id in b.tasks
  {
    match o
    case Unchanged => b
    case Move(id, src, dst) => Moved(b, id, src, dst)
  }

  /** Because the page passes the task's current status as the source, every
      drag end keeps the board invariant. */
  lemma DragEndKeepsInvariant(b: Board, active: TaskId, over: Option<string>)
    requires Invariant(b) && DropReadsTask(b, active, over)
    ensures Invariant(AfterDrag(b, DragEndDecision(b, active, over)))
  {
    var o := DragEndDecision(b, active, over);
    if o.Move? {
      MovedKeepsInvariant(b, o.id, o.src, o.dst);
    }
  }

  /** Dropping a stored task on the column of any status `s` with the
      invariant holding leaves it last in that column, in no other column,
      with status `s` (unless the task's own id is the column's key). */
  lemma DropOnColumnMovesTask(b: Board, active: TaskId, s: Status)
    requires Invariant(b) && active in b.tasks && active != StatusKey(s)
    ensures var r := AfterDrag(b, DragEndDecision(b, active, Some(StatusKey(s))));
      var ids := r.columns.Get(s).taskIds;
      && |ids| > 0 && ids[|ids| - 1] == active
      && (forall s': Status :: s' != s ==> active !in r.columns.Get(s').taskIds)
      && r.tasks[active].status == s
  {
    ParseStatusKey(s);
    var o := DragEndDecision(b, active, Some(StatusKey(s)));
    assert o == Move(active, b.tasks[active].status, s);
    MovedKeepsInvariant(b, active, o.src, s);
    ExactlyOneColumn(AfterDrag(b, o), active);
  }

  /** The page's state: the store it uses, the task shown in the dialog,
      whether the dialog is open, and the task being dragged. */
  class KanbanPage {
    const store: TaskStore
    var selectedTask: Option<Task>
    var dialogOpen: bool
    var activeTaskId: Option<TaskId>

    constructor (store: TaskStore)
      ensures this.store == store
      ensures selectedTask.None? && !dialogOpen && activeTaskId.None?
    {
      this.store := store;
      selectedTask := None;
      dialogOpen := false;
      activeTaskId := None;
    }

    /** `handleDeleteTask`: with a task selected, delete it, close the dialog
        and clear the selection; with none selected, do nothing. */
    method HandleDeleteTask()
      requires selectedTask.Some? ==> FindColumn(store.columns, selectedTask.value.id).Some?
      modifies this, store
      ensures activeTaskId == old(activeTaskId)
      ensures old(selectedTask).Some? ==>
        && store.Snapshot() == Deleted(old(store.Snapshot()), old(selectedTask).value.id)
        && !dialogOpen && selectedTask.None?
      ensures old(selectedTask).None? ==>
        store.Snapshot() == old(store.Snapshot()) && dialogOpen == old(dialogOpen) && selectedTask.None?
      ensures old(store.Valid()) ==> store.Valid()
    {
      if selectedTask.Some? {
        store.DeleteTask(selectedTask.value.id);
        dialogOpen := false;
        selectedTask := None;
      }
    }

    /** `handleDragStart`: remember the dragged task. */
    method HandleDragStart(active: TaskId)
      modifies this
      ensures activeTaskId == Some(active)
      ensures selectedTask == old(selectedTask) && dialogOpen == old(dialogOpen)
    {
      activeTaskId := Some(active);
    }

    /** `handleDragEnd`: carry out the drag decision and forget the dragged task. */
    method HandleDragEnd(active: TaskId, over: Option<string>)
      requires DropReadsTask(store.Snapshot(), active, over)
      modifies this, store
      ensures activeTaskId.None?
      ensures selectedTask == old(selectedTask) && dialogOpen == old(dialogOpen)
      ensures store.Snapshot() == AfterDrag(old(store.Snapshot()), DragEndDecision(old(store.Snapshot()), active, over))
      ensures old(store.Valid()) ==> store.Valid()
    {
      if over.None? || active == over.value {
        activeTaskId := None;
        return;
      }
      var target := ParseStatus(over.value);
      if target.Some? {
        var task := store.tasks[active];
        store.MoveTask(active, task.status, target.value);
      }
      activeTaskId := None;
    }

    /** `handleSaveTask`: a record with an id goes to `updateTask`, an id-less
        draft to `addTask` (with the generated id and the clock). */
    method HandleSaveTask(p: Payload, freshId: TaskId, now: Timestamp)
      requires p.EditedTask? ==> FindColumn(store.columns, p.task.id).Some?
      modifies store
      ensures p.EditedTask? ==> store.Snapshot() == Updated(old(store.Snapshot()), p.task)
      ensures p.NewTask? ==> store.Snapshot() == Added(old(store.Snapshot()), p.draft, freshId, now)
    {
      match p
      case EditedTask(t) => store.UpdateTask(t);
      case NewTask(d) => store.AddTask(d, freshId, now);
    }
  }
}
