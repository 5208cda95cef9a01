/** The task list page: the status labels it shows, the search and filter
    criteria, the filtered newest-first list, and its save and delete
    handlers. */
module TaskList {
  import opened Wrappers
  import opened Seqs
  import opened Text
  import opened TaskTypes
  import opened TaskStore
  import opened ByDate
  import opened TaskDialog

  /** `getStatusLabel`: the heading shown for a status. */
  function StatusLabel(s: Status): string
  {
    match s
    case Todo => "To Do"
    case InProgress => "In Progress"
    case Review => "Review"
    case Done => "Done"
  }

  /** The labels are the column headings of the initial board, and no two
      statuses share a label. */
  lemma StatusLabelMatchesColumns(s: Status, s': Status)
    ensures StatusLabel(s) == InitialColumns().Get(s).title
    ensures StatusLabel(s) == StatusLabel(s') ==> s == s'
  {
    assert |StatusLabel(Todo)| == 5 && |StatusLabel(InProgress)| == 11;
    assert |StatusLabel(Review)| == 6 && |StatusLabel(Done)| == 4;
  }

  /** The priority select: "all" or one priority. */
  datatype PriorityFilter = AnyPriority | OnlyPriority(priority: Priority)

  /** The status select: "all" or one status. */
  datatype StatusFilter = AnyStatus | OnlyStatus(status: Status)

  /** The search term and the two selects. */
  datatype Criteria = Criteria(search: string, priority: PriorityFilter, status: StatusFilter)

  /** The criteria the page starts with: no search term, both selects "all". */
  function NoCriteria(): Criteria
  {
    Criteria("", AnyPriority, AnyStatus)
  }

  /** The search term occurs, ignoring case, in the title or the description. */
  predicate MatchesSearch(t: Task, search: string)
  {
    Includes(Lower(t.title), Lower(search)) || Includes(Lower(t.description), Lower(search))
  }

  /** The three checks of the list's filter. */
  predicate Matches(c: Criteria, t: Task)
  {
    && MatchesSearch(t, c.search)
    && (c.priority.AnyPriority? || t.priority == c.priority.priority)
    && (c.status.AnyStatus? || t.status == c.status.status)
  }

  /** `filteredTasks`: the tasks that pass the criteria, newest first. */
  function FilteredTasks(tasks: map<TaskId, Task>, keys: seq<TaskId>, c: Criteria): (r: seq<Task>)
    requires IsKeyOrder(keys, tasks)
    ensures NewestFirstOrder(r)
    ensures forall t :: t in r ==> t in tasks.Values && Matches(c, t)
    ensures forall k :: k in tasks && Matches(c, tasks[k]) ==> tasks[k] in r
  {
    var vs := Values(tasks, keys);
    ValuesCoverTasks(tasks, keys);
    var kept := Filter(vs, t => Matches(c, t));
    NewestFirstMembers(kept);
    NewestFirst(kept)
  }

  /** The list holds each passing task exactly as often as `Object.values`
      does and no other task. */
  lemma FilteredTasksCounts(tasks: map<TaskId, Task>, keys: seq<TaskId>, c: Criteria)
    requires IsKeyOrder(keys, tasks)
    ensures forall t :: multiset(FilteredTasks(tasks, keys, c))[t] == if Matches(c, t) then multiset(Values(tasks, keys))[t] else 0
  {
    FilterMultiset(Values(tasks, keys), t => Matches(c, t));
  }

  /** On tasks keyed by their ids the list holds no task twice and no id twice. */
  lemma FilteredTasksOnce(tasks: map<TaskId, Task>, keys: seq<TaskId>, c: Criteria)
    requires IsKeyOrder(keys, tasks) && KeyedById(tasks)
    ensures var r := FilteredTasks(tasks, keys, c);
      NoDup(r) && forall i, j :: 0 <= i < j < |r| ==> r[i].id != r[j].id
  {
    var r := FilteredTasks(tasks, keys, c);
    var vs := Values(tasks, keys);
    ValuesNoDup(tasks, keys);
    NoDupCounts(vs);
    FilteredTasksCounts(tasks, keys, c);
    CountsNoDup(r);
    forall i, j | 0 <= i < j < |r| ensures r[i].id != r[j].id {
      assert r[i] in r && r[j] in r;
      assert tasks[r[i].id] == r[i] && tasks[r[j].id] == r[j];
    }
  }

  /** With no search term and both selects "all", every stored task is
      listed: the list is `Object.values` reordered newest first. */
  lemma NoCriteriaListsEverything(tasks: map<TaskId, Task>, keys: seq<TaskId>)
    requires IsKeyOrder(keys, tasks)
    ensures multiset(FilteredTasks(tasks, keys, NoCriteria())) == multiset(Values(tasks, keys))
    ensures |FilteredTasks(tasks, keys, NoCriteria())| == |tasks|
  {
    var vs := Values(tasks, keys);
    forall t | t in vs ensures Matches(NoCriteria(), t) {
      assert Lower("") == "";
      IncludesEmpty(Lower(t.title));
    }
    FilterAll(vs, t => Matches(NoCriteria(), t));
    ValuesCoverTasks(tasks, keys);
    NewestFirstMembers(Filter(vs, t => Matches(NoCriteria(), t)));
  }

  /** The page's state: its store, the task shown in the dialog, whether the
      dialog is open, and the current criteria. */
  class TasksPage {
    const store: TaskStore
    var selectedTask: Option<Task>
    var dialogOpen: bool
    var criteria: Criteria

    constructor (store: TaskStore)
      ensures this.store == store
      ensures selectedTask.None? && !dialogOpen && criteria == NoCriteria()
    {
      this.store := store;
      selectedTask := None;
      dialogOpen := false;
      criteria := NoCriteria();
    }

    /** `handleSaveTask`: a record with an id goes to `updateTask`, an id-less
        draft to `addTask` (with the generated id and the clock). */
    method HandleSaveTask(p: Payload, freshId: TaskId, now: Timestamp)
      requires p.EditedTask? ==> FindColumn(store.columns, p.task.id).Some?
      modifies store
      ensures p.EditedTask? ==> store.Snapshot() == Updated(old(store.Snapshot()), p.task)
      ensures p.NewTask? ==> store.Snapshot() == Added(old(store.Snapshot()), p.draft, freshId, now)
    {
      match p
      case EditedTask(t) => store.UpdateTask(t);
      case NewTask(d) => store.AddTask(d, freshId, now);
    }

    /** `handleDeleteTask`: with a task selected, delete it, close the dialog
        and clear the selection; with none selected, do nothing. */
    method HandleDeleteTask()
      requires selectedTask.Some? ==> FindColumn(store.columns, selectedTask.value.id).Some?
      modifies this, store
      ensures criteria == old(criteria)
      ensures old(selectedTask).Some? ==>
        && store.Snapshot() == Deleted(old(store.Snapshot()), old(selectedTask).value.id)
        && !dialogOpen && selectedTask.None?
      ensures old(selectedTask).None? ==>
        store.Snapshot() == old(store.Snapshot()) && dialogOpen == old(dialogOpen) && selectedTask.None?
      ensures old(store.Valid()) ==> store.Valid()
    {
      if selectedTask.Some? {
        store.DeleteTask(selectedTask.value.id);
        dialogOpen := false;
        selectedTask := None;
      }
    }

    /** The trash button of a table row: select the row's task, then delete
        it. The selection is left on the task just deleted, and the dialog is
        not touched. */
    method HandleRowDelete(t: Task)
      requires FindColumn(store.columns, t.id).Some?
      modifies this, store
      ensures selectedTask == Some(t)
      ensures dialogOpen == old(dialogOpen) && criteria == old(criteria)
      ensures store.Snapshot() == Deleted(old(store.Snapshot()), t.id)
      ensures t.id !in store.tasks
      ensures old(store.Valid()) ==> store.Valid()
    {
      selectedTask := Some(t);
      store.DeleteTask(t.id);
    }
  }
}
