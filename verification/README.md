# Kanban board state transitions, in Dafny

A model of the decision-making core of a single-page kanban task board: the
board controller's handlers in `src/components/Board.tsx` (drag a task to a
column, delete, save a new or edited task, mark complete) and the task
editor's save step in `src/components/TaskModal.tsx`. Every handler is a pure
function from the board's `columns` (a sequence of columns, each a sequence
of tasks) to the new `columns`; the editor is a pure function from a partial
draft to an optional complete `Task`.

Files (one module each):

- `wrappers.dfy` — `Option`.
- `types.dfy` — `Types`: the records of `src/types/index.ts` (`Priority` as four constructors; `Date` kept opaque as an instant).
- `columns.dfy` — `Columns`: lookup by id (first match in column order), the `filter` by id, task counts, the multiset of task ids, and the board invariants (`UniqueColumnIds`, `UniqueTaskIds`, `StatusSync`, together `WellFormed`).
- `board.dfy` — `BoardOps`: the handlers `DragEnd`, `DeleteTask`, `SaveTask` (`AddTask` / `EditTask`), `CompleteTask`.
- `relocate.dfy` — `RelocateFacts`: how removing the found task and appending it elsewhere change ids, count and invariants.
- `board_properties.dfy` — `BoardProperties`: per-handler properties.
- `task_editor.dfy` — `TaskEditor`: the draft, editor initialisation, field edits, date selection, and `Save`.
- `workflow.dfy` — `Workflow`: a draft followed from the editor onto the board, including the clock-based "is this new" test.

Behaviour the model keeps as the code has it:

- A drop target id that names no column removes the dragged task and adds it nowhere (`DragEndOntoUnknownTarget`).
- Completing a task that already sits in the first "Done" column removes it, because the source column's branch of the `map` is tested first (`CompleteDropsTaskInDone`).
- A column whose id is the empty string is never a source: `!sourceColumnId` treats `""` as missing, so drag and complete do nothing.
- Delete removes every task carrying the id, in every column; the save-as-edit branch replaces every task carrying the id.
- The board decides "new task" by comparing the saved id with `task-${Date.now()}` read a second time. If the clock has moved on, the new task goes down the edit branch, matches nothing and is lost (`AddLostWhenClockMoves`). A task that is moved or saved gets its `status` from the receiving column's title; the editor's own `'Backlog'` fallback is overwritten by the board on add.
- Task-count conservation and the status/column agreement hold on a well-formed board (unique column ids, unique task ids, every status equal to its column's title). On boards that break uniqueness the handlers still do what the code does, and the lemmas make no claim.

## Model

| member | source | states |
|---|---|---|
| Types.ParsePriority | src/types/index.ts:8 | exactly the four literals 'low', 'medium', 'high', 'urgent' are priorities, and each parses to the priority named by it |
| Types.PriorityNameRoundTrip | src/types/index.ts:8 | every priority survives the trip through its literal |
| Columns.FirstIndex | src/components/Board.tsx:47 | `find` returns nothing exactly when no task carries the id, otherwise the index of the first task that does |
| Columns.Locate | src/components/Board.tsx:46-55 | the scan finds nothing exactly when no column holds the id; otherwise it returns the first column in order holding it and the first matching task there |
| Columns.Without | src/components/Board.tsx:64 | filtering by id removes every occurrence of that id from the column's id multiset and nothing else |
| Columns.WithoutMembers | src/components/Board.tsx:98 | the filter keeps exactly the tasks whose id differs |
| Columns.WithoutAbsent | src/components/Board.tsx:98 | filtering an id no task carries returns the column's tasks unchanged, in order |
| Columns.WithoutSingle | src/components/Board.tsx:64 | filtering an id carried by exactly one task deletes that slot and keeps the remaining tasks in order |
| Columns.WithoutConcat | src/components/Board.tsx:98 | the filter keeps order: filtering a concatenation is concatenating the filtered parts |
| BoardOps.DragEnd | src/components/Board.tsx:36-87 | no drop target, a task id not on the board, an empty source column id, or a drop on the task's own column leave the columns unchanged; column ids and titles never change |
| BoardOps.DeleteTask | src/components/Board.tsx:95-104 | column ids and titles kept; each column keeps exactly its tasks with a different id (their order is stated by DeleteRemovesSlot and WithoutConcat); afterwards the id is nowhere on the board and exactly its occurrences are gone from the id multiset |
| BoardOps.AddTask | src/components/Board.tsx:119-127 | columns with another id are untouched; a column with the chosen id gains the saved task at its end with the column's title as status |
| BoardOps.EditTask | src/components/Board.tsx:129-135 | every task with the saved id is replaced in place by the saved task with its column's title as status; all other tasks, every column's length and the id multiset are unchanged |
| BoardOps.SaveTask | src/components/Board.tsx:115-147 | saving never adds, removes, reorders or renames a column |
| BoardOps.FirstTitled | src/components/Board.tsx:166 | finds nothing exactly when no column has the title, otherwise the first column in order that has it |
| BoardOps.CompleteTask | src/components/Board.tsx:149-196 | completing an id not on the board, or on a board with no "Done" column, changes nothing; column ids and titles never change |
| BoardProperties.DragEndMovesTask | src/components/Board.tsx:58-78 | on a well-formed board, a drop on another existing column removes the task from its slot (others keep their order), appends it to the target with the target's title as status, leaves all other columns identical, and conserves ids, count and invariants |
| BoardProperties.DragEndOntoUnknownTarget | src/components/Board.tsx:59-78 | a drop on an id that names no column removes the task from its column and adds it nowhere: one task fewer, id gone, invariants kept |
| BoardProperties.DragEndKeepsWellFormed | src/components/Board.tsx:36-87 | every drag keeps a well-formed board well formed; a drag onto an existing column conserves the task count |
| BoardProperties.DeleteRemovesSlot | src/components/Board.tsx:95-104 | with unique task ids, deleting a task that is on the board removes exactly its slot; the rest of its column keeps its order and every other column is unchanged |
| BoardProperties.DeleteAbsentIsNoop | src/components/Board.tsx:95-99 | deleting an absent id returns structurally equal columns |
| BoardProperties.DeleteIdempotent | src/components/Board.tsx:95-99 | deleting twice equals deleting once |
| BoardProperties.DeleteKeepsWellFormed | src/components/Board.tsx:95-99 | delete keeps a well-formed board well formed and removes exactly one task when the id is present, none otherwise |
| BoardProperties.SaveAddsTask | src/components/Board.tsx:118-127 | the add branch aimed at an existing column equals appending the saved task there with that column's title as status; the id multiset gains the saved id, the count grows by one, and a fresh id keeps the board well formed |
| BoardProperties.SaveAddToUnknownColumn | src/components/Board.tsx:119-127 | the add branch aimed at an id naming no column changes nothing |
| BoardProperties.EditAbsentIsNoop | src/components/Board.tsx:129-135 | the edit branch with an id no task carries changes nothing |
| BoardProperties.EditOneSlot | src/components/Board.tsx:130-135 | with unique task ids, editing a task that is on the board overwrites exactly its slot with the saved task, whatever status it carried, re-stamped with the column's title; every other task and column stays as it was |
| BoardProperties.EditIdempotent | src/components/Board.tsx:129-135 | saving the same edit twice equals saving it once |
| BoardProperties.EditKeepsWellFormed | src/components/Board.tsx:129-135 | an edit keeps a well-formed board well formed and conserves the task count |
| BoardProperties.SaveKeepsWellFormed | src/components/Board.tsx:115-137 | saving keeps a well-formed board well formed as long as a task treated as new does not reuse an id already on the board |
| BoardProperties.CompleteMovesToDone | src/components/Board.tsx:163-188 | on a well-formed board, completing a task outside the first "Done" column removes it from its slot, appends it to that column with status "Done", leaves all other columns identical, and conserves ids, count and invariants |
| BoardProperties.CompleteDropsTaskInDone | src/components/Board.tsx:169-188 | completing a task that already sits in the first "Done" column removes it from the board |
| BoardProperties.CompleteKeepsWellFormed | src/components/Board.tsx:149-188 | every completion keeps a well-formed board well formed and conserves the count unless the task was already in the first "Done" column |
| TaskEditor.Open | src/components/TaskModal.tsx:35-43 | opening without a task starts from the empty draft and no selected date; opening with a task copies each of its eleven fields into the draft and selects its due date; the calendar and the draft agree |
| TaskEditor.ChangeText | src/components/TaskModal.tsx:45-48 | the named text field (title or description) takes the input's value; every other draft field and the selected date stay as they were; calendar and draft keep agreeing |
| TaskEditor.ChangePriority | src/components/TaskModal.tsx:50-52 | choosing a priority stores it in the draft; every other draft field and the selected date stay as they were; calendar and draft keep agreeing |
| TaskEditor.SelectDate | src/components/TaskModal.tsx:54-57 | selecting a date stores it as the due date; clearing the selection stores `null`; calendar and draft agree afterwards; every other draft field stays as it was |
| TaskEditor.SelectValuesParse | src/components/TaskModal.tsx:71 | the cast of the select's value to `Priority` is sound: exactly the select's item values are priority literals, each reading back as the priority it offers |
| TaskEditor.AvailablePrioritiesExact | src/components/TaskModal.tsx:84 | the select offers every priority, each exactly once |
| TaskEditor.DecimalRoundTrip | src/components/TaskModal.tsx:67 | the decimal rendering of a clock reading reads back as that reading |
| TaskEditor.ClockTaskIdInjective | src/components/TaskModal.tsx:67 | two clock readings give the same `task-<now>` id only if they are equal |
| TaskEditor.Save | src/components/TaskModal.tsx:59-82 | save is rejected exactly when the title is missing or empty; a saved task keeps the title, never has an empty id or status, and gets `task-<now>` when the draft has no id |
| TaskEditor.SaveTitleOnly | src/components/TaskModal.tsx:66-78 | a draft holding only a title saves to id `task-<now>`, description '', status 'Backlog', priority medium, no due date, created now, and empty assignees, tags, comments and attachments |
| TaskEditor.SaveFillsDefaults | src/components/TaskModal.tsx:67-77 | each absent field, or empty string where `||` treats it as falsy, takes its fixed default |
| TaskEditor.SaveKeepsPresentFields | src/components/TaskModal.tsx:66-78 | each field present in the draft (non-empty for id and status) is carried into the saved task unchanged |
| TaskEditor.SaveIgnoresColumn | src/components/TaskModal.tsx:70 | the column the editor was opened for never changes the saved task: both arms of the status fallback are 'Backlog' |
| TaskEditor.OpenSaveRoundTrip | src/components/TaskModal.tsx:35-78 | opening on a task and saving unchanged gives the task back when its id, title and status are non-empty |
| TaskEditor.SaveUsesSelectedDate | src/components/TaskModal.tsx:54-72 | while calendar and draft agree, the saved due date is the date the calendar shows |
| Workflow.AddThroughEditor | src/components/Board.tsx:115-127 | a fresh draft with a title saves to a task of defaults; with the board reading the same clock, it is appended to the chosen column with that column's title as status, the count grows by one and the board stays well formed |
| Workflow.AddLostWhenClockMoves | src/components/Board.tsx:118-135 | when the board's clock reading differs from the editor's, a new task takes the edit branch and the board is unchanged: the task is lost |
| Workflow.EditThroughEditor | src/components/Board.tsx:129-135 | opening a task, changing its title and saving updates it in place: same column, same slot, same status, all other tasks untouched |
| Workflow.CompleteBacklogTask | src/components/Board.tsx:163-188 | on a Backlog/Done board, completing the Backlog task leaves Backlog empty and puts it in Done with status "Done" |

## Left out

- Rendering, styling and animation (`Column.tsx`, `TaskCard.tsx`, `Sidebar.tsx`, `Header.tsx`, `App.tsx`): presentation only.
- `toast` notifications and `alert`: user-visible messages, not state. The rejected save is modelled by `Save` returning no task.
- React state plumbing: `handleDragStart`, `activeDragId`, the modal's open flag, `handleAddTask` and `handleEditTask` only set UI state; the values they set (`editingTask`, `addTaskColumnId`) are parameters of `Open` and `SaveTask`.
- The rest of the board record: each handler returns `{ ...boardData, columns: newColumns }`, so the model returns only the new columns.
- dnd-kit sensors and event objects: a drag is reduced to the active id and an optional target id; dnd-kit ids may also be numbers, which the model does not represent.
- The clock: `Date.now()` and `new Date()` in `handleSave` are one reading `now` (milliseconds, non-negative); the board's own reading is either the `isNew` flag of `SaveTask` or a second reading in `Workflow`.
- `date-fns` formatting and all `Date` arithmetic: dates are opaque instants.
- The priority select hands `handleSelectChange` a string that the code casts to `Priority`; the model types the draft's priority as `Priority`, since the select offers only the four literals (`SelectValuesParse` states that exactly those parse).
- The fixture in `src/lib/data.ts` and dark-mode handling (`localStorage`, `matchMedia`): static data and browser I/O.
- DragEndKeepsWellFormed: states count conservation only for drops onto an existing column, because a drop on an unknown id loses the task (stated exactly in DragEndOntoUnknownTarget).
- CompleteKeepsWellFormed: states count conservation only when the task is not already in the first "Done" column, because otherwise the task is dropped (stated exactly in CompleteDropsTaskInDone).
- Task-count conservation for every move and every completion, and a reliable create-versus-edit test, are what a kanban board is expected to provide; the code does not provide them in the cases above, and the model follows the code.
