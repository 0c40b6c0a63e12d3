/**
 * The state transitions of the board controller (src/components/Board.tsx).
 * Each handler computes the board's new `columns`; the rest of the board
 * record (`{ ...boardData, columns: newColumns }`) is carried over unchanged.
 */
module BoardOps {
  import opened Wrappers
  import opened Types
  import opened Columns

  /** How a relocated task's `status` is chosen: from the receiving column's title, or a fixed literal. */
  datatype Stamp = TargetTitle | Fixed(status: string)

  function StatusFor(stamp: Stamp, c: Column): string {
    match stamp
    case TargetTitle => c.title
    case Fixed(s) => s
  }

  /**
   * One column of the `columns.map(...)` shared by the drag and complete handlers:
   * the source column loses every task with the moved id, otherwise a column
   * with the target id gains the moved task at its end.
   */
  function RelocateColumn(c: Column, srcId: string, moved: Task, targetId: string, stamp: Stamp): Column {
    if c.id == srcId then c.(tasks := Without(c.tasks, moved.id))
    else if c.id == targetId then c.(tasks := c.tasks + [moved.(status := StatusFor(stamp, c))])
    else c
  }

  function Relocate(cols: seq<Column>, srcId: string, moved: Task, targetId: string, stamp: Stamp): (r: seq<Column>)
    ensures SameFrame(cols, r)
  {
    seq(|cols|, i requires 0 <= i < |cols| => RelocateColumn(cols[i], srcId, moved, targetId, stamp))
  }

  /** `c` with the task at `slot` taken out, the others kept in order. */
  function RemoveSlot(c: Column, slot: nat): Column
    requires slot < |c.tasks|
  {
    c.(tasks := c.tasks[..slot] + c.tasks[slot + 1..])
  }

  /** `c` with `t` appended at its end, its status set to `status`. */
  function AppendTask(c: Column, t: Task, status: string): Column {
    c.(tasks := c.tasks + [t.(status := status)])
  }

  /**
   * `handleDragEnd`: `activeId` is the dragged task's id, `over` the id of the
   * drop target if there is one. A source column whose id is the empty string
   * counts as "not found", as `!sourceColumnId` does.
   */
  function DragEnd(cols: seq<Column>, activeId: string, over: Option<string>): (r: seq<Column>)
    ensures SameFrame(cols, r)
    ensures over.None? ==> r == cols
    ensures !OnBoard(cols, activeId) ==> r == cols
    ensures OnBoard(cols, activeId) && over == Some(cols[Locate(cols, activeId).value.column].id) ==> r == cols
    ensures OnBoard(cols, activeId) && cols[Locate(cols, activeId).value.column].id == "" ==> r == cols
  {
    if over.None? then cols
    else
      match Locate(cols, activeId)
      case None => cols
      case Some(loc) =>
        var src := cols[loc.column];
        if src.id == "" || over.value == src.id then cols
        else Relocate(cols, src.id, src.tasks[loc.slot], over.value, TargetTitle)
  }

  /** `handleDeleteTask`: every column keeps only the tasks whose id differs from `id`. */
  function DeleteTask(cols: seq<Column>, id: string): (r: seq<Column>)
    ensures SameFrame(cols, r)
    ensures forall i, t :: 0 <= i < |cols| ==> (t in r[i].tasks <==> t in cols[i].tasks && t.id != id)
    ensures !OnBoard(r, id)
    ensures IdBag(r) == IdBag(cols)[id := 0]
  {
    var r := seq(|cols|, i requires 0 <= i < |cols| => cols[i].(tasks := Without(cols[i].tasks, id)));
    IdBagPointwiseErase(cols, r, id);
    IdBagHas(r, id);
    WithoutMembersEach(cols, id);
    r
  }

  /** The add branch of `handleSaveTask`: every column with id `columnId` gains the saved task at its end. */
  function AddTask(cols: seq<Column>, saved: Task, columnId: string): (r: seq<Column>)
    ensures SameFrame(cols, r)
    ensures forall i :: 0 <= i < |cols| && cols[i].id != columnId ==> r[i] == cols[i]
    ensures forall i :: 0 <= i < |cols| && cols[i].id == columnId ==> r[i].tasks == cols[i].tasks + [saved.(status := cols[i].title)]
  {
    seq(|cols|, i requires 0 <= i < |cols| =>
      if cols[i].id == columnId then AppendTask(cols[i], saved, cols[i].title) else cols[i])
  }

  /** `tasks.map(task => task.id === saved.id ? { ...saved, status: title } : task)` */
  function Replace(tasks: seq<Task>, saved: Task, title: string): (r: seq<Task>)
    ensures |r| == |tasks|
    ensures forall k :: 0 <= k < |tasks| ==>
              r[k] == if tasks[k].id == saved.id then saved.(status := title) else tasks[k]
    ensures TaskIds(r) == TaskIds(tasks)
  {
    if |tasks| == 0 then []
    else
      var head := if tasks[0].id == saved.id then saved.(status := title) else tasks[0];
      [head] + Replace(tasks[1..], saved, title)
  }

  /** The edit branch of `handleSaveTask`: each task carrying the saved id is overwritten in place. */
  function EditTask(cols: seq<Column>, saved: Task): (r: seq<Column>)
    ensures SameFrame(cols, r)
    ensures forall i :: 0 <= i < |cols| ==> |r[i].tasks| == |cols[i].tasks|
    ensures forall i, k :: 0 <= i < |cols| && 0 <= k < |cols[i].tasks| ==>
              r[i].tasks[k] == if cols[i].tasks[k].id == saved.id then saved.(status := cols[i].title) else cols[i].tasks[k]
    ensures IdBag(r) == IdBag(cols)
  {
    var r := seq(|cols|, i requires 0 <= i < |cols| => cols[i].(tasks := Replace(cols[i].tasks, saved, cols[i].title)));
    IdBagPointwise(cols, r);
    r
  }

  /**
   * `handleSaveTask`. `isNew` stands for the source's clock test
   * `savedTask.id === \`task-${Date.now()}\``; `addTaskColumnId` is the column
   * the editor was opened for, if any (the empty string is falsy, as in the source).
   */
  function SaveTask(cols: seq<Column>, saved: Task, isNew: bool, addTaskColumnId: Option<string>): (r: seq<Column>)
    ensures SameFrame(cols, r)
  {
    if isNew && addTaskColumnId.Some? && addTaskColumnId.value != "" then AddTask(cols, saved, addTaskColumnId.value)
    else EditTask(cols, saved)
  }

  /** The title of the column `handleCompleteTask` moves tasks to. */
  const DoneTitle: string := "Done"

  /** `columns.find(c => c.title === title)`, as an index. */
  function FirstTitled(cols: seq<Column>, title: string): (r: Option<nat>)
    ensures r.None? <==> forall i :: 0 <= i < |cols| ==> cols[i].title != title
    ensures r.Some? ==> r.value < |cols| && cols[r.value].title == title
    ensures r.Some? ==> forall i :: 0 <= i < r.value ==> cols[i].title != title
  {
    if |cols| == 0 then None
    else if cols[0].title == title then Some(0)
    else
      match FirstTitled(cols[1..], title)
      case None =>
        assert forall i :: 1 <= i < |cols| ==> cols[i] == cols[1..][i - 1];
        None
      case Some(d) => Some(d + 1)
  }

  /**
   * `handleCompleteTask`: relocate the task to the first column titled "Done",
   * with status "Done". As in the source, the source column's filter is
   * checked before the Done column's append.
   */
  function CompleteTask(cols: seq<Column>, id: string): (r: seq<Column>)
    ensures SameFrame(cols, r)
    ensures !OnBoard(cols, id) ==> r == cols
    ensures FirstTitled(cols, DoneTitle).None? ==> r == cols
  {
    match Locate(cols, id)
    case None => cols
    case Some(loc) =>
      var src := cols[loc.column];
      if src.id == "" then cols
      else
        match FirstTitled(cols, DoneTitle)
        case None => cols
        case Some(d) => Relocate(cols, src.id, src.tasks[loc.slot], cols[d].id, Fixed(DoneTitle))
  }
}
