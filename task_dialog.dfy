/** The task dialog's form logic: its initial field values, the payload
    built on save, and the tag list editing. Each handler is a function from
    the form's fields to their next values (or to the saved payload). */
module TaskDialog {
  import opened Wrappers
  import opened Seqs
  import opened Text
  import opened TaskTypes

  /** What `onSave` receives: an id-less draft when creating, the full record
      (with the original `id` and `createdAt`) when editing. */
  datatype Payload = NewTask(draft: Draft) | EditedTask(task: Task)

  /** The fields of a payload other than `id` and `createdAt`. */
  function PayloadFields(p: Payload): Draft
  {
    match p
    case NewTask(d) => d
    case EditedTask(t) => Forget(t)
  }

  /** The form state: the task being edited (if any), the field values, the
      tag list and the text of the tag input. */
  datatype Form = Form(
    task: Option<Task>,
    title: string,
    description: string,
    priority: Priority,
    status: Status,
    dueDate: Option<Timestamp>,
    tags: seq<string>,
    newTag: string)

  /** The initial field values of a dialog opened on `task`: a new task
      defaults to an empty title and description, priority medium, status
      todo, no due date and no tags; an edited task starts from its own values. */
  function Open(task: Option<Task>): (f: Form)
    ensures f.task == task && f.newTag == ""
    ensures task.None? ==> f == Form(None, "", "", Medium, Todo, None, [], "")
    ensures task.Some? ==> var t := task.value;
      && f.title == t.title && f.description == t.description && f.priority == t.priority
      && f.status == t.status && f.dueDate == t.dueDate && f.tags == t.tags.GetOr([])
  {
    match task
    case None => Form(None, "", "", Medium, Todo, None, [], "")
    case Some(t) => Form(task, t.title, t.description, t.priority, t.status, t.dueDate, t.tags.GetOr([]), "")
  }

  /** What `handleSave` produces: the payload handed to `onSave`, if any,
      and whether the dialog is still open afterwards. */
  datatype SaveOutcome = SaveOutcome(payload: Option<Payload>, open: bool)

  /** `handleSave`: nothing is saved and the dialog stays open when the
      title is blank after trimming; otherwise the payload carries the fields
      as typed (the title untrimmed), `tags` only when the list is non-empty,
      no `assignedTo`, and in edit mode the original `id` and `createdAt`,
      and `onOpenChange(false)` closes the dialog. */
  function Save(f: Form): (r: SaveOutcome)
    ensures r.payload.None? <==> AllSpace(f.title)
    ensures r.open <==> AllSpace(f.title)
    ensures r.payload.Some? ==> (r.payload.value.EditedTask? <==> f.task.Some?)
    ensures r.payload.Some? && f.task.Some? ==>
      r.payload.value.task.id == f.task.value.id && r.payload.value.task.createdAt == f.task.value.createdAt
    ensures r.payload.Some? ==>
      PayloadFields(r.payload.value)
      == Draft(f.title, f.description, f.priority, f.status, f.dueDate, None, if f.tags == [] then None else Some(f.tags))
  {
    TrimEmptyIff(f.title);
    if Trim(f.title) == [] then SaveOutcome(None, true)
    else
      var tags := if |f.tags| > 0 then Some(f.tags) else None;
      match f.task
      case Some(t) =>
        SaveOutcome(Some(EditedTask(Task(t.id, f.title, f.description, f.priority, f.status, f.dueDate, t.createdAt, None, tags))), false)
      case None =>
        SaveOutcome(Some(NewTask(Draft(f.title, f.description, f.priority, f.status, f.dueDate, None, tags))), false)
  }

  /** `addTag`: the trimmed tag input is appended and the input cleared, unless
      it is blank or already in the list, in which case nothing changes. */
  function AddTag(f: Form): (r: Form)
    ensures var t := Trim(f.newTag);
      if !AllSpace(f.newTag) && t !in f.tags then r == f.(tags := f.tags + [t], newTag := "") else r == f
    ensures NoDup(f.tags) ==> NoDup(r.tags)
    ensures forall x :: x in r.tags && x !in f.tags ==> x != [] && !IsSpace(x[0]) && !IsSpace(x[|x| - 1])
  {
    TrimEmptyIff(f.newTag);
    var t := Trim(f.newTag);
    if t != [] && t !in f.tags then f.(tags := f.tags + [t], newTag := "") else f
  }

  /** `removeTag`: every occurrence of `tag` leaves the list; the other tags
      keep their order; no other field changes. */
  function RemoveTag(f: Form, tag: string): Form
  {
    f.(tags := Without(f.tags, tag))
  }

  /** What `removeTag` does to the tag list, element by element: no copy of
      `tag` is left, every other tag keeps its count and its order, and a
      duplicate-free list stays duplicate-free. */
  lemma RemoveTagContents(f: Form, tag: string)
    ensures tag !in RemoveTag(f, tag).tags
    ensures multiset(RemoveTag(f, tag).tags) == multiset(f.tags)[tag := 0]
    ensures IsSubsequence(RemoveTag(f, tag).tags, f.tags)
    ensures NoDup(f.tags) ==> NoDup(RemoveTag(f, tag).tags)
  {
    WithoutMultiset(f.tags, tag);
    WithoutIsSubsequence(f.tags, tag);
    if NoDup(f.tags) {
      WithoutNoDup(f.tags, tag);
    }
  }

  /** Adding the same tag input twice adds it once: the second call finds
      the input cleared (or the tag present) and changes nothing. */
  lemma AddTagIdempotent(f: Form)
    ensures AddTag(AddTag(f)) == AddTag(f)
  {
    var t := Trim(f.newTag);
    TrimEmptyIff(f.newTag);
    if !AllSpace(f.newTag) && t !in f.tags {
      TrimEmptyIff("");
    }
  }
}
