# TaskFlow and NeoCart core, modelled in Dafny

The repository has two small apps. TaskFlow is a kanban task board. NeoCart is a storefront with a cart. This project models the logic under their React pages and states properties of it.

- **Task store** (`TaskStore`). A board has four status columns, each an ordered list of task ids, and a map from id to task. The class `TaskStore.TaskStore` holds the columns and the map as fields. Its methods `AddTask`, `UpdateTask`, `DeleteTask` and `MoveTask` change them step by step, as `addTask`, `updateTask`, `deleteTask` and `moveTask` do. Each method is proved to produce the board given by a pure function (`Added`, `Updated`, `Deleted`, `Moved`). The board invariant is proved for the initial board and preserved by every operation under the preconditions the code relies on. The invariant says:
  - every column sits under its own status;
  - every listed id names a stored task with that status;
  - every task is stored under its own id and listed exactly once across the columns.
- **Board consumers.**
  - `Kanban`: the kanban column projection and the drag-end decision.
  - `TaskList`: the task list's search/filter and newest-first sort.
  - `Dashboard`: the dashboard counters and its "recent five".
  - `TaskDialog`: the task dialog's initial fields, save payload and tag list.
  - `ByDate`: the newest-first sort shared by the list and the dashboard. It is an insertion sort proved sorted, a permutation and stable.
- **Cart.**
  - `Storefront`: the category filter and add-to-cart, a `findIndex` loop followed by one slot update or an append.
  - `CartPage`: increase, decrease and remove.
  - `Navbar`: the quantity badge.
  - `Products`: the product and cart-entry records.
- **Settings** (`Settings`): the four notification flags, the toggle and its message.

Parameters stand in for what the model leaves outside:
- The generated uuid becomes `freshId`.
- The clock becomes `now`, an integer of milliseconds. `createdAt` and `dueDate` are integers too.
- `Object.values` enumerates a map in an order the model does not know. That order is a parameter `keys` satisfying `IsKeyOrder`, and every property holds for every such order.
- `toLowerCase` is ASCII-only (`Text.Lower`).
- `trim` strips the white space and line terminators of sections 12.2 and 12.3 of ECMA-262 (`Text.Trim`, `Text.IsSpace`).

## Model

| member | source | states |
|---|---|---|
| TaskTypes.AllStatuses | src/types/task.ts:4 | There are exactly four statuses, todo, inProgress, review and done, with none repeated and every status listed. |
| TaskTypes.AllPriorities | src/types/task.ts:2 | There are exactly three priorities, low, medium and high, with none repeated and every priority listed. |
| TaskTypes.Rank | src/context/TaskContext.tsx:75-96 | Placing a status in the column order todo, inProgress, review, done gives the index of that status. |
| TaskTypes.ParseStatus | src/pages/KanbanPage.tsx:73 | A drop-target id is a column id exactly when it is the key of some status, and it then names that status. |
| TaskTypes.ParseStatusKey | src/pages/KanbanPage.tsx:73 | Parsing a status's key gives the status back. |
| TaskTypes.Columns.Set | src/context/TaskContext.tsx:75-96 | Replacing the column under one status changes that column only; the board has one column per status. |
| TaskTypes.Draft.WithIdentity | src/context/TaskContext.tsx:121-125 | The new task has the draft's fields plus the given id and creation time, and forgetting that id and time gives the draft back. |
| TaskTypes.ValuesCoverTasks | src/pages/DashboardPage.tsx:23 | `Object.values` lists as many entries as the map has keys, lists every stored task, and lists nothing else. |
| TaskTypes.ValuesNoDup | src/pages/TasksPage.tsx:94 | When every task is stored under its own id, `Object.values` repeats no task and no id. |
| TaskTypes.CountWhere | src/pages/DashboardPage.tsx:24-26 | `filter(p).length` over `Object.values` is the number of stored ids whose task satisfies `p`. |
| Text.TrimEmptyIff | src/components/tasks/TaskDialog.tsx:44 | A string trims to empty exactly when it is all white space. |
| Text.Trim | src/components/tasks/TaskDialog.tsx:44 | The trimmed string is no longer than the input and neither starts nor ends with white space; `Text.TrimIsMiddle` ties it to the input and `Text.TrimEmptyIff` gives when it is empty. |
| Text.TrimIsMiddle | src/components/tasks/TaskDialog.tsx:44 | The trimmed string is the input with an all-white-space prefix and suffix cut off: putting that prefix and suffix back gives the input. |
| Text.Lower | src/pages/TasksPage.tsx:96-97 | The lowered string has the input's length and lowers each character on its own: an ASCII capital becomes its lower-case letter and every other character is kept. |
| Text.Includes | src/pages/TasksPage.tsx:96-97 | `hay.includes(needle)` holds exactly when the needle occurs at some position of the haystack. |
| TaskStore.FindColumn | src/context/TaskContext.tsx:139-141 | The result is the first column, in the order todo, inProgress, review, done, that lists the id; it is none when no column lists it. |
| TaskStore.InitialBoard | src/context/TaskContext.tsx:14-98 | The four columns "To Do", "In Progress", "Review" and "Done" with the ids of the six mock tasks; `TaskStore.InitialBoardInvariant` shows the board is consistent. |
| TaskStore.Added | src/context/TaskContext.tsx:119-135 | The board after `addTask`; `TaskStore.AddedStoresTask` and `TaskStore.AddedKeepsInvariant` state what it is. |
| TaskStore.Updated | src/context/TaskContext.tsx:137-172 | The board after `updateTask`; `TaskStore.UpdatedChangesColumn`, `TaskStore.UpdatedSameStatus` and `TaskStore.UpdatedKeepsInvariant` state what it is. |
| TaskStore.Deleted | src/context/TaskContext.tsx:174-193 | The board after `deleteTask`; `TaskStore.DeletedRemovesTask` and `TaskStore.DeletedKeepsInvariant` state what it is. |
| TaskStore.Moved | src/context/TaskContext.tsx:195-215 | The board after `moveTask`; `TaskStore.MovedRelocates`, `TaskStore.MovedKeepsInvariant` and `TaskStore.StaleSourceBreaksInvariant` state what it is. |
| TaskStore.InitialBoardInvariant | src/context/TaskContext.tsx:74-98 | The initial board with its six mock tasks satisfies the board invariant. |
| TaskStore.AppendedCount | src/context/TaskContext.tsx:130 | A push adds one occurrence of the pushed id and none of any other id. |
| TaskStore.RemovedCount | src/context/TaskContext.tsx:182-184 | The filter takes every occurrence of the id out of its column and leaves every other id's count alone. |
| TaskStore.RelocatedMembers | src/context/TaskContext.tsx:148-153 | After a remove-then-push, the id has left the source column and is in the target column, and every other listing is as before. |
| TaskStore.ExactlyOneColumn | src/types/task.ts:31-38 | Under the invariant a stored id is listed once in its status's column and in no other column. |
| TaskStore.FindColumnIsStatus | src/context/TaskContext.tsx:177-179 | Under the invariant an id is found exactly when it is stored, and the column found is the task's status. |
| TaskStore.ColumnsListEveryTaskOnce | src/types/task.ts:31-38 | Under the invariant the columns together list exactly the stored ids, each once, so their lengths add up to the number of tasks. |
| TaskStore.AddedKeepsInvariant | src/context/TaskContext.tsx:119-135 | `addTask` with a fresh id keeps the board invariant. |
| TaskStore.RelocatedKeepsInvariant | src/context/TaskContext.tsx:144-159 | Moving a stored task out of its own column into the new status's column, while storing the new record, keeps the invariant. |
| TaskStore.UpdatedKeepsInvariant | src/context/TaskContext.tsx:137-172 | `updateTask` on an id that some column lists keeps the invariant. |
| TaskStore.DeletedKeepsInvariant | src/context/TaskContext.tsx:174-193 | `deleteTask` on an id that some column lists keeps the invariant. |
| TaskStore.MovedKeepsInvariant | src/context/TaskContext.tsx:195-215 | `moveTask` keeps the invariant when the source given is the task's current status. |
| TaskStore.AddedStoresTask | src/context/TaskContext.tsx:119-130 | The fresh id stores the draft's fields with that id and creation time. The id goes last in the draft status's column, which keeps its id and title. Every other column and task is unchanged. |
| TaskStore.UpdatedChangesColumn | src/context/TaskContext.tsx:139-159 | With a changed status, the id is filtered out of its old column and pushed onto the new status's column; both columns keep their id and title. The record is replaced and the other two columns are unchanged. |
| TaskStore.UpdatedSameStatus | src/context/TaskContext.tsx:161-168 | With the status unchanged, only the stored record is replaced and the columns stay as they were. |
| TaskStore.DeletedRemovesTask | src/context/TaskContext.tsx:174-190 | After deletion the id is neither stored nor listed. Its own column keeps its other ids in order, as the filter leaves them. Every other task and every other column is unchanged. |
| TaskStore.MovedRelocates | src/context/TaskContext.tsx:195-213 | Every occurrence of the id leaves the source column and the id goes last in the target column; when source and target are equal it moves to the end of that column. Both columns keep their id and title. The task's status becomes the target and its other fields are kept. Every other stored task is unchanged. |
| TaskStore.StaleSourceBreaksInvariant | src/context/TaskContext.tsx:195-205 | The source column is taken on trust: on every consistent board, naming any source other than the task's status leaves the id listed twice, in its own column and in the target, and breaks the invariant. |
| TaskStore.TaskStore.constructor | src/context/TaskContext.tsx:111 | The store starts with the initial board, which is valid. |
| TaskStore.TaskStore.AddTask | src/context/TaskContext.tsx:119-135 | The fields become the board `Added` gives, and the invariant is kept when the id is fresh. |
| TaskStore.TaskStore.UpdateTask | src/context/TaskContext.tsx:137-172 | The fields become the board `Updated` gives, and the invariant is kept. |
| TaskStore.TaskStore.DeleteTask | src/context/TaskContext.tsx:174-193 | The fields become the board `Deleted` gives, and the invariant is kept. |
| TaskStore.TaskStore.MoveTask | src/context/TaskContext.tsx:195-215 | The fields become the board `Moved` gives, and the invariant is kept when the source is the task's status. |
| TaskDialog.Open | src/components/tasks/TaskDialog.tsx:33-41 | A new task starts with an empty title and description, priority medium, status todo, no due date and no tags; an edited task starts from its own values. |
| TaskDialog.Save | src/components/tasks/TaskDialog.tsx:43-59 | Nothing is saved exactly when the title is blank after trimming, and exactly then the dialog stays open; a save closes it. An edit payload exists exactly in edit mode and keeps the original id and createdAt. The fields are those typed, with no assignee, and tags are absent when the list is empty. |
| TaskDialog.AddTag | src/components/tasks/TaskDialog.tsx:61-66 | A non-blank trimmed tag not yet listed is appended and the input cleared; otherwise nothing changes. The list stays duplicate-free and gains only trimmed, non-empty tags. |
| TaskDialog.AddTagIdempotent | src/components/tasks/TaskDialog.tsx:61-66 | Adding twice in a row has the effect of adding once. |
| TaskDialog.RemoveTag | src/components/tasks/TaskDialog.tsx:68-70 | The tag list with every copy of the tag filtered out; `TaskDialog.RemoveTagContents` states what is left. |
| TaskDialog.RemoveTagContents | src/components/tasks/TaskDialog.tsx:68-70 | Every copy of the tag leaves the list, every other tag keeps its count and its order, and a duplicate-free list stays duplicate-free. |
| Kanban.ResolveAll | src/pages/KanbanPage.tsx:82 | Mapping ids to `board.tasks[id]` keeps the length and looks up each id in its place, giving nothing for an unstored id. |
| Kanban.ColumnViews | src/pages/KanbanPage.tsx:81-87 | The four columns are projected in the order todo, inProgress, review, done. Each projection keeps its column's fields and resolves every id in order. |
| Kanban.ColumnViewResolves | src/pages/KanbanPage.tsx:81-87 | On a valid board every projected entry is a stored task with the listed id and the column's status. |
| Kanban.ColumnViewsShowEveryTask | src/pages/KanbanPage.tsx:81-87 | On a valid board the projected columns show as many tasks as are stored. |
| Kanban.DragEndDecision | src/pages/KanbanPage.tsx:61-78 | Nothing happens exactly when there is no drop target, the target is the dragged task, or the target is not a column id. A drop on a column moves the task from its current status to that column. |
| Kanban.DragEndKeepsInvariant | src/pages/KanbanPage.tsx:69-75 | Every drag end keeps the board invariant. |
| Kanban.DropOnColumnMovesTask | src/pages/KanbanPage.tsx:73-75 | A drop on the column of any status leaves the task last in that column, in no other column, with that status. |
| Kanban.KanbanPage.constructor | src/pages/KanbanPage.tsx:15-17 | The page starts with no selection, the dialog closed and nothing dragged. |
| Kanban.KanbanPage.HandleDeleteTask | src/pages/KanbanPage.tsx:45-51 | With a task selected, it is deleted, the dialog closes and the selection clears. With none selected, nothing changes. The dragged id is untouched and the board invariant is kept. |
| Kanban.KanbanPage.HandleDragStart | src/pages/KanbanPage.tsx:53-55 | The dragged id is remembered and nothing else changes. |
| Kanban.KanbanPage.HandleDragEnd | src/pages/KanbanPage.tsx:61-78 | The store carries out the drag decision, the board invariant is kept, and the dragged id is cleared. |
| Kanban.KanbanPage.HandleSaveTask | src/pages/KanbanPage.tsx:37-43 | A payload with an id becomes `updateTask`; an id-less draft becomes `addTask`. |
| ByDate.InsertByDate | src/pages/TasksPage.tsx:103 | Inserting into a newest-first list keeps it newest-first and adds exactly the one task. |
| ByDate.NewestFirst | src/pages/TasksPage.tsx:103 | The sorted list is newest-first and a permutation of the input. |
| ByDate.NewestFirstStable | src/pages/TasksPage.tsx:103 | Among tasks created at one instant the sorted list keeps the input order, as JavaScript's stable sort does. |
| ByDate.SameInstantKeepsOrder | src/pages/DashboardPage.tsx:38 | For every creation time, the tasks created then appear in the sorted list in their enumeration order. |
| ByDate.NewestFirstMembers | src/pages/DashboardPage.tsx:38 | Sorting keeps the length and exactly the members. |
| TaskList.StatusLabel | src/pages/TasksPage.tsx:49-62 | The label of each status; `TaskList.StatusLabelMatchesColumns` shows the labels are the column headings and distinct. |
| TaskList.StatusLabelMatchesColumns | src/pages/TasksPage.tsx:49-62 | The four labels "To Do", "In Progress", "Review" and "Done" are the initial column headings, and no two statuses share one. |
| TaskList.FilteredTasks | src/pages/TasksPage.tsx:93-104 | The list is newest-first. Every listed task is stored and passes all three checks: the case-insensitive search, the priority select and the status select. Every stored task that passes them is listed. |
| TaskList.FilteredTasksCounts | src/pages/TasksPage.tsx:94-102 | Each passing task is listed as often as `Object.values` holds it, and no failing task is listed. |
| TaskList.FilteredTasksOnce | src/pages/TasksPage.tsx:94-102 | On tasks stored under their own ids, the list repeats no task and no id. |
| TaskList.NoCriteriaListsEverything | src/pages/TasksPage.tsx:95-102 | With an empty search and both selects on "all", every stored task is listed: the list is `Object.values` reordered. |
| TaskList.TasksPage.constructor | src/pages/TasksPage.tsx:17-21 | The page starts with no selection, the dialog closed, an empty search and both selects on "all". |
| TaskList.TasksPage.HandleSaveTask | src/pages/TasksPage.tsx:33-39 | A payload with an id becomes `updateTask`; an id-less draft becomes `addTask`. |
| TaskList.TasksPage.HandleDeleteTask | src/pages/TasksPage.tsx:41-47 | With a task selected, it is deleted, the dialog closes and the selection clears. With none selected, nothing changes. The board invariant is kept. |
| TaskList.TasksPage.HandleRowDelete | src/pages/TasksPage.tsx:227-231 | A row's trash button selects the row's task and deletes it: the selection is left on the deleted task, the dialog and criteria are untouched, and the board invariant is kept. |
| Dashboard.ComputeStats | src/pages/DashboardPage.tsx:22-33 | `total` is the number of tasks. `completed`, `inProgress` and `high` are the numbers of stored ids whose task is done, is in progress, or has high priority. |
| Dashboard.CompletedAndInProgressBounded | src/pages/DashboardPage.tsx:24-29 | `completed + inProgress` never exceeds `total`, and neither does `high`. |
| Dashboard.RecentTasks | src/pages/DashboardPage.tsx:36-40 | The recent list has five entries, or all tasks when there are fewer. It is newest-first and holds only stored tasks, each at most as often as `Object.values` lists it. |
| Dashboard.RecentTasksAreNewest | src/pages/DashboardPage.tsx:37-39 | A stored task that is not listed means the list is full and that task is no newer than the last listed one. |
| Dashboard.RecentTasksOnce | src/pages/DashboardPage.tsx:36-40 | On tasks stored under their own ids, the recent list repeats no task and no id. |
| Dashboard.EmptyBoardDashboard | src/pages/DashboardPage.tsx:21-40 | An empty board gives all-zero counters and no recent task. |
| Navbar.ItemCount | src/components/layout/Navbar.tsx:19 | The badge sums the quantities from the left. It is at least the number of entries when every quantity is at least 1, and not negative when no quantity is. |
| Navbar.ItemCountEmpty | src/components/layout/Navbar.tsx:19 | An empty cart shows 0. |
| Navbar.ItemCountConcat | src/components/layout/Navbar.tsx:19 | Two carts joined show the sum of their badges. |
| Navbar.ItemCountSingle | src/components/layout/Navbar.tsx:19 | A one-entry cart shows that entry's quantity. |
| Navbar.ItemCountUpdate | src/components/layout/Navbar.tsx:19 | Replacing one entry changes the badge by the difference of the quantities. |
| Storefront.FilterByCategory | src/pages/Index.tsx:20-22 | The products shown under a category tab; `Storefront.FilterByCategoryContents` states which. |
| Storefront.FilterByCategoryContents | src/pages/Index.tsx:20-22 | The tab "all" shows the catalogue unchanged. Any other tab shows exactly that category's products, each as often as listed, in catalogue order. |
| Storefront.AddToCart | src/pages/Index.tsx:30-50 | The first entry with the product's id gets one more, all else unchanged; without one, the product is appended with quantity 1. The cart grows by at most one entry, the badge by exactly one, and unique ids stay unique. |
| CartPage.Increase | src/pages/CartPage.tsx:31-37 | The cart keeps its length and every entry keeps its product. |
| CartPage.IncreaseEffect | src/pages/CartPage.tsx:31-37 | With unique ids only the entry with the id changes, gaining 1; the badge grows by 1 and ids stay unique. |
| CartPage.Decrease | src/pages/CartPage.tsx:39-47 | The cart keeps its length and products, and no quantity that was at least 1 falls below 1. |
| CartPage.DecreaseEffect | src/pages/CartPage.tsx:39-47 | With unique ids, an entry above 1 loses 1 and the badge drops by 1. An entry at 1 leaves the whole cart unchanged. |
| CartPage.Remove | src/pages/CartPage.tsx:49-55 | The cart with every entry of the id filtered out; `CartPage.RemoveContents` and `CartPage.RemoveEffect` state what is left. |
| CartPage.RemoveContents | src/pages/CartPage.tsx:49-55 | No entry with the id is left. Every other entry keeps its count and order, and unique ids stay unique. |
| CartPage.RemoveKeepsUniqueIds | src/pages/CartPage.tsx:55 | Removing entries keeps ids unique. |
| CartPage.RemoveEffect | src/pages/CartPage.tsx:49-55 | With unique ids removal cuts out exactly the entry's slot, and the badge drops by its quantity. |
| CartPage.RemoveSlot | src/pages/CartPage.tsx:55 | When only the middle entry has the id, removal cuts it out and the badge loses its quantity. |
| CartPage.AbsentIdUnchanged | src/pages/CartPage.tsx:31-55 | An id the cart does not hold leaves increase, decrease and remove without effect. |
| Settings.InitialFlags | src/pages/SettingsPage.tsx:22-27 | Email and task reminders start on; push and updates start off. |
| Settings.Toggle | src/pages/SettingsPage.tsx:43-47 | The toggled flag flips and the other three keep their values. |
| Settings.ToggleTwice | src/pages/SettingsPage.tsx:44-47 | Toggling one key twice restores the record. |
| Settings.ToggleMessage | src/pages/SettingsPage.tsx:49 | The toggle's confirmation message; `Settings.ToggleMessageAgrees` states its wording. |
| Settings.ToggleMessageAgrees | src/pages/SettingsPage.tsx:49 | The message names the key. It says "disabled" exactly when the flag was on before the toggle, which is when it is off after it, and "enabled" otherwise. |

## Left out

- Markup, class names, animation and toast messages are left out as presentation. The settings message is kept because its wording depends on state.
- Authentication, Firebase and routing are foreign, asynchronous code and are not part of this model.
- Reading and writing the cart in localStorage is browser I/O. The cart is a value the handlers receive and return.
- Prices and `totalPrice` are floating point. `Products.Product` has no price field, and the mock catalogue in src/lib/data.ts is not part of this model.
- The drag-and-drop library (sensors, collision detection, sortable transforms) is left out. A drag end arrives as the dragged id and an optional target id.
- Date parsing and formatting are left out. `createdAt` and `dueDate` are integer timestamps; the dialog's `Date` and `toISOString` round trip is the identity.
- `toLowerCase` folds ASCII letters only; Unicode case mapping is not modelled. `trim` strips every white-space and line-terminator character JavaScript's does.
- React re-rendering is not modelled. The aliasing of the shallow `{...prev}` copies is not modelled either: their nested arrays and maps are mutated, which also changes the previous snapshot. The store is one mutable board, as the methods of `TaskStore.TaskStore` update it.
- TaskList.FilteredTasks is computed afresh from the current board. In the code `useMemo` (src/pages/TasksPage.tsx:93-104) depends on `board.tasks`, whose identity the in-place mutation keeps, so after an add, a delete or a move the page can show a stale list. That staleness is not modelled.
- The six mock tasks all get `createdAt == now`, and their due dates are offsets from that same `now`. The code reads the clock again for each `createdAt` and each `Date.now()` of a due date, so these times may differ by a few milliseconds. Only the tie order of the newest-first sort among the mock tasks depends on that, and it is not modelled.
- `TaskDialog.Open` gives the fields the dialog's state starts with. React's `useState` reads them only when the dialog first mounts, and both pages keep the dialog mounted, so they are not re-read when the dialog opens on another task. That stale state is not modelled.
- The mount-time reset of the board (src/context/TaskContext.tsx:113-117) sets the same initial board again and is not modelled.
- TaskStore.TaskStore.UpdateTask and TaskStore.TaskStore.DeleteTask require the id to be on the board. Otherwise the code indexes a missing column and throws, and that crash is not modelled.
- TaskStore.TaskStore.MoveTask requires the id to be stored. For an unstored id the code does not throw: spreading `undefined` copies nothing, so the id is pushed onto the target column and a bare record holding only the status is stored. That case is not modelled, because the only caller reads the task's status before calling it (src/pages/KanbanPage.tsx:70-74).
- Kanban.KanbanPage.HandleDragEnd requires the dragged task to be stored when it is dropped on a column, because the code reads its status.
- Kanban.DropOnColumnMovesTask excludes a task whose own id equals the column's key (say the string "review"). For such a task the drop target equals the dragged id and nothing happens.
- `handleTaskClick` and `handleAddClick` only set the selection and open the dialog, and are not modelled.
- `moveTask` could check that the source column holds the id and report an inconsistent move otherwise. The code has no such check and trusts its caller, and the model follows the code. `TaskStore.StaleSourceBreaksInvariant` shows what a wrong source does to the board. Likewise the code has no not-found error for update or delete; the preconditions above stand where it would crash.
- Quantities are unbounded integers. JavaScript numbers lose precision past 2^53, which the model does not capture.
