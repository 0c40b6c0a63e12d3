/**
 * Properties of the board handlers: what each one does on a well-formed
 * board (unique column ids, unique task ids, status equal to column title),
 * the cases in which it changes nothing, task-count conservation, and
 * preservation of the invariants.
 */
module BoardProperties {
  import opened Wrappers
  import opened Types
  import opened Columns
  import opened BoardOps
  import opened RelocateFacts

  // ---------------------------------------------------------------- drag

  /**
   * Dropping a task on a different, existing column removes it from the slot
   * where the scan found it, appends it to the end of the target with the
   * target's title as status, leaves every other column as it was, and
   * conserves the tasks and the invariants.
   */
  lemma DragEndMovesTask(cols: seq<Column>, activeId: string, loc: Location, t: nat)
    requires WellFormed(cols)
    requires Locate(cols, activeId) == Some(loc)
    requires cols[loc.column].id != ""
    requires t < |cols| && t != loc.column
    ensures var task := cols[loc.column].tasks[loc.slot];
            var r := DragEnd(cols, activeId, Some(cols[t].id));
            && r == cols[loc.column := RemoveSlot(cols[loc.column], loc.slot)]
                        [t := AppendTask(cols[t], task, cols[t].title)]
            && IdBag(r) == IdBag(cols)
            && TaskCount(r) == TaskCount(cols)
            && WellFormed(r)
  {
    MoveFound(cols, activeId, loc, t, TargetTitle);
  }

  /**
   * Dropping a task on an id that names no column removes the task from its
   * column and adds it nowhere: the board loses it.
   */
  lemma DragEndOntoUnknownTarget(cols: seq<Column>, activeId: string, loc: Location, overId: string)
    requires WellFormed(cols)
    requires Locate(cols, activeId) == Some(loc)
    requires cols[loc.column].id != ""
    requires forall i :: 0 <= i < |cols| ==> cols[i].id != overId
    ensures var r := DragEnd(cols, activeId, Some(overId));
            && r == cols[loc.column := RemoveSlot(cols[loc.column], loc.slot)]
            && TaskCount(r) + 1 == TaskCount(cols)
            && !OnBoard(r, activeId)
            && WellFormed(r)
  {
    var src := cols[loc.column];
    assert overId != src.id;
    assert DragEnd(cols, activeId, Some(overId)) == Relocate(cols, src.id, src.tasks[loc.slot], overId, TargetTitle);
    DropFound(cols, activeId, loc, overId, TargetTitle);
  }

  /**
   * Every drag keeps a well-formed board well formed, and a drag whose target
   * names an existing column conserves the number of tasks.
   */
  lemma DragEndKeepsWellFormed(cols: seq<Column>, activeId: string, over: Option<string>)
    requires WellFormed(cols)
    ensures WellFormed(DragEnd(cols, activeId, over))
    ensures over.Some? && (exists i :: 0 <= i < |cols| && cols[i].id == over.value) ==>
              TaskCount(DragEnd(cols, activeId, over)) == TaskCount(cols)
  {
    if over.Some? {
      match Locate(cols, activeId)
      case None =>
      case Some(loc) =>
        var src := cols[loc.column];
        if src.id != "" && over.value != src.id {
          if exists i :: 0 <= i < |cols| && cols[i].id == over.value {
            var t :| 0 <= t < |cols| && cols[t].id == over.value;
            DragEndMovesTask(cols, activeId, loc, t);
          } else {
            DragEndOntoUnknownTarget(cols, activeId, loc, over.value);
          }
        }
    }
  }

  // ---------------------------------------------------------------- delete

  /** Deleting an id that no task carries returns the very same columns. */
  lemma DeleteAbsentIsNoop(cols: seq<Column>, id: string)
    requires !OnBoard(cols, id)
    ensures DeleteTask(cols, id) == cols
  {
    var r := DeleteTask(cols, id);
    forall i | 0 <= i < |cols| ensures r[i] == cols[i] {
      WithoutAbsent(cols[i].tasks, id);
    }
  }

  /**
   * On a board with unique task ids, deleting a task that is on the board
   * removes exactly its slot: the other tasks of its column keep their order
   * and every other column is unchanged.
   */
  lemma DeleteRemovesSlot(cols: seq<Column>, id: string, loc: Location)
    requires UniqueTaskIds(cols)
    requires Locate(cols, id) == Some(loc)
    ensures DeleteTask(cols, id) == cols[loc.column := RemoveSlot(cols[loc.column], loc.slot)]
  {
    var r := DeleteTask(cols, id);
    var u := cols[loc.column := RemoveSlot(cols[loc.column], loc.slot)];
    RemoveFound(cols, id, loc);
    forall j | 0 <= j < |cols| ensures r[j] == u[j] {
      DeleteColumn(cols, id, j);
      if j != loc.column {
        OtherColumnsLackId(cols, id, loc, j);
        WithoutAbsent(cols[j].tasks, id);
      }
    }
    assert |r| == |u|;
  }

  /** Steps of `DeleteRemovesSlot`: one column of the delete, and the columns other than the task's. */
  lemma DeleteColumn(cols: seq<Column>, id: string, j: nat)
    requires j < |cols|
    ensures |DeleteTask(cols, id)| == |cols|
    ensures DeleteTask(cols, id)[j] == cols[j].(tasks := Without(cols[j].tasks, id))
  {
  }

  lemma OtherColumnsLackId(cols: seq<Column>, id: string, loc: Location, j: nat)
    requires UniqueTaskIds(cols)
    requires FirstAt(cols, id, loc)
    requires j < |cols| && j != loc.column
    ensures !HasId(cols[j].tasks, id)
  {
    forall l | 0 <= l < |cols[j].tasks| ensures cols[j].tasks[l].id != id {
      if cols[j].tasks[l].id == id {
        SlotUnique(cols, loc.column, loc.slot, j, l);
      }
    }
  }

  /** Deleting twice is deleting once. */
  lemma DeleteIdempotent(cols: seq<Column>, id: string)
    ensures DeleteTask(DeleteTask(cols, id), id) == DeleteTask(cols, id)
  {
    DeleteAbsentIsNoop(DeleteTask(cols, id), id);
  }

  /** Delete keeps the invariants and, on a well-formed board, removes exactly one task if the id is present. */
  lemma DeleteKeepsWellFormed(cols: seq<Column>, id: string)
    requires WellFormed(cols)
    ensures WellFormed(DeleteTask(cols, id))
    ensures TaskCount(DeleteTask(cols, id)) + (if OnBoard(cols, id) then 1 else 0) == TaskCount(cols)
  {
    var r := DeleteTask(cols, id);
    FrameKeepsUniqueColumnIds(cols, r);
    forall x | x in IdBag(r) ensures IdBag(r)[x] <= 1 {
      assert IdBag(r)[x] <= IdBag(cols)[x];
    }
    IdBagHas(cols, id);
    if OnBoard(cols, id) {
      assert IdBag(cols)[id] == 1;
      assert IdBag(cols) == IdBag(r) + multiset{id};
    } else {
      assert IdBag(cols) == IdBag(r);
    }
  }

  // ---------------------------------------------------------------- save

  /**
   * The add branch of save, aimed at an existing column: the saved task is
   * appended to that column with the column's title as status; nothing else
   * changes; the board gains exactly that task.
   */
  lemma SaveAddsTask(cols: seq<Column>, saved: Task, c: nat)
    requires UniqueColumnIds(cols)
    requires c < |cols| && cols[c].id != ""
    ensures var r := SaveTask(cols, saved, true, Some(cols[c].id));
            && r == cols[c := AppendTask(cols[c], saved, cols[c].title)]
            && IdBag(r) == IdBag(cols) + multiset{saved.id}
            && TaskCount(r) == TaskCount(cols) + 1
            && (WellFormed(cols) && !OnBoard(cols, saved.id) ==> WellFormed(r))
  {
    AddTaskAsUpdate(cols, saved, c);
    AppendOne(cols, c, saved, cols[c].title);
    if WellFormed(cols) && !OnBoard(cols, saved.id) {
      AppendFreshKeepsWellFormed(cols, c, saved);
    }
  }

  /** With unique column ids, adding to an existing column changes that column only. */
  lemma AddTaskAsUpdate(cols: seq<Column>, saved: Task, c: nat)
    requires UniqueColumnIds(cols)
    requires c < |cols|
    ensures AddTask(cols, saved, cols[c].id) == cols[c := AppendTask(cols[c], saved, cols[c].title)]
  {
  }

  /** Appending a task with a fresh id and its column's title keeps the board well formed. */
  lemma AppendFreshKeepsWellFormed(cols: seq<Column>, c: nat, saved: Task)
    requires WellFormed(cols) && !OnBoard(cols, saved.id)
    requires c < |cols|
    ensures WellFormed(cols[c := AppendTask(cols[c], saved, cols[c].title)])
  {
    var r := cols[c := AppendTask(cols[c], saved, cols[c].title)];
    AppendOne(cols, c, saved, cols[c].title);
    IdBagHas(cols, saved.id);
    forall x | x in IdBag(r) ensures IdBag(r)[x] <= 1 {
      if x != saved.id {
        assert IdBag(r)[x] == IdBag(cols)[x];
      }
    }
    FrameKeepsUniqueColumnIds(cols, r);
  }

  /** The add branch aimed at an id that names no column changes nothing: the new task is not stored. */
  lemma SaveAddToUnknownColumn(cols: seq<Column>, saved: Task, columnId: string)
    requires columnId != ""
    requires forall i :: 0 <= i < |cols| ==> cols[i].id != columnId
    ensures SaveTask(cols, saved, true, Some(columnId)) == cols
  {
  }

  /** Editing an id that no task carries changes nothing (the saved task is dropped). */
  lemma EditAbsentIsNoop(cols: seq<Column>, saved: Task)
    requires !OnBoard(cols, saved.id)
    ensures EditTask(cols, saved) == cols
  {
    var r := EditTask(cols, saved);
    forall i | 0 <= i < |cols| ensures r[i] == cols[i] {
      assert !HasId(cols[i].tasks, saved.id);
      assert r[i].tasks == cols[i].tasks;
    }
  }

  /**
   * On a board with unique task ids, an edit of a task that is on the board
   * overwrites that one slot, with the status re-derived from the column's
   * title whatever status the saved task carried, and nothing else.
   */
  lemma EditOneSlot(cols: seq<Column>, i: nat, k: nat, saved: Task)
    requires UniqueTaskIds(cols)
    requires i < |cols| && k < |cols[i].tasks|
    requires saved.id == cols[i].tasks[k].id
    ensures EditTask(cols, saved) == cols[i := cols[i].(tasks := cols[i].tasks[k := saved.(status := cols[i].title)])]
  {
    var r := EditTask(cols, saved);
    var u := cols[i := cols[i].(tasks := cols[i].tasks[k := saved.(status := cols[i].title)])];
    forall j | 0 <= j < |cols| ensures r[j] == u[j] {
      EditColumnOfSlot(cols, i, k, saved, j);
    }
  }

  /** Step of `EditOneSlot`: column `j` after the edit. */
  lemma EditColumnOfSlot(cols: seq<Column>, i: nat, k: nat, saved: Task, j: nat)
    requires UniqueTaskIds(cols)
    requires i < |cols| && k < |cols[i].tasks| && j < |cols|
    requires saved.id == cols[i].tasks[k].id
    ensures EditTask(cols, saved)[j].tasks
            == if j == i then cols[i].tasks[k := saved.(status := cols[i].title)] else cols[j].tasks
  {
    var rt := EditTask(cols, saved)[j].tasks;
    var ut := if j == i then cols[i].tasks[k := saved.(status := cols[i].title)] else cols[j].tasks;
    forall l | 0 <= l < |cols[j].tasks| ensures rt[l] == ut[l] {
      if cols[j].tasks[l].id == saved.id {
        SlotUnique(cols, i, k, j, l);
      }
    }
  }

  /** Saving the same edit twice is saving it once. */
  lemma EditIdempotent(cols: seq<Column>, saved: Task)
    ensures EditTask(EditTask(cols, saved), saved) == EditTask(cols, saved)
  {
    var r := EditTask(cols, saved);
    var r2 := EditTask(r, saved);
    forall i | 0 <= i < |cols| ensures r2[i] == r[i] {
      assert r2[i].tasks == r[i].tasks;
    }
  }

  /** An edit keeps the board well formed: ids are unchanged and every replaced task takes its column's title. */
  lemma EditKeepsWellFormed(cols: seq<Column>, saved: Task)
    requires WellFormed(cols)
    ensures WellFormed(EditTask(cols, saved))
    ensures TaskCount(EditTask(cols, saved)) == TaskCount(cols)
  {
  }

  /**
   * `handleSaveTask` keeps a well-formed board well formed, provided that a
   * task saved as new does not reuse an id already on the board.
   */
  lemma SaveKeepsWellFormed(cols: seq<Column>, saved: Task, isNew: bool, addTaskColumnId: Option<string>)
    requires WellFormed(cols)
    requires isNew ==> !OnBoard(cols, saved.id)
    ensures WellFormed(SaveTask(cols, saved, isNew, addTaskColumnId))
  {
    if isNew && addTaskColumnId.Some? && addTaskColumnId.value != "" {
      var x := addTaskColumnId.value;
      if exists c :: 0 <= c < |cols| && cols[c].id == x {
        var c :| 0 <= c < |cols| && cols[c].id == x;
        SaveAddsTask(cols, saved, c);
      } else {
        SaveAddToUnknownColumn(cols, saved, x);
      }
    } else {
      EditKeepsWellFormed(cols, saved);
    }
  }

  // ---------------------------------------------------------------- complete

  /**
   * Completing a task that is not in the first "Done" column moves it to the
   * end of that column with status "Done", leaves every other column as it
   * was, and conserves the tasks and the invariants.
   */
  lemma CompleteMovesToDone(cols: seq<Column>, id: string, loc: Location, d: nat)
    requires WellFormed(cols)
    requires Locate(cols, id) == Some(loc)
    requires cols[loc.column].id != ""
    requires FirstTitled(cols, DoneTitle) == Some(d) && d != loc.column
    ensures var task := cols[loc.column].tasks[loc.slot];
            var r := CompleteTask(cols, id);
            && r == cols[loc.column := RemoveSlot(cols[loc.column], loc.slot)]
                        [d := AppendTask(cols[d], task, DoneTitle)]
            && IdBag(r) == IdBag(cols)
            && TaskCount(r) == TaskCount(cols)
            && WellFormed(r)
  {
    MoveFound(cols, id, loc, d, Fixed(DoneTitle));
  }

  /**
   * Completing a task that already sits in the first "Done" column removes
   * it: the source column's filter wins over the Done column's append.
   */
  lemma CompleteDropsTaskInDone(cols: seq<Column>, id: string, loc: Location)
    requires WellFormed(cols)
    requires Locate(cols, id) == Some(loc)
    requires cols[loc.column].id != ""
    requires FirstTitled(cols, DoneTitle) == Some(loc.column)
    ensures var r := CompleteTask(cols, id);
            && r == cols[loc.column := RemoveSlot(cols[loc.column], loc.slot)]
            && TaskCount(r) + 1 == TaskCount(cols)
            && !OnBoard(r, id)
            && WellFormed(r)
  {
    DropFound(cols, id, loc, cols[loc.column].id, Fixed(DoneTitle));
  }

  /**
   * Every completion keeps a well-formed board well formed, and conserves the
   * number of tasks unless the task was already in the first "Done" column.
   */
  lemma CompleteKeepsWellFormed(cols: seq<Column>, id: string)
    requires WellFormed(cols)
    ensures WellFormed(CompleteTask(cols, id))
    ensures OnBoard(cols, id) && FirstTitled(cols, DoneTitle) != Some(Locate(cols, id).value.column) ==>
              TaskCount(CompleteTask(cols, id)) == TaskCount(cols)
  {
    match Locate(cols, id)
    case None =>
    case Some(loc) =>
      if cols[loc.column].id != "" {
        match FirstTitled(cols, DoneTitle)
        case None =>
        case Some(d) =>
          if d == loc.column {
            CompleteDropsTaskInDone(cols, id, loc);
          } else {
            CompleteMovesToDone(cols, id, loc, d);
          }
      }
  }
}
