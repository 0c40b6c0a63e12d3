/**
 * How the editor's save feeds the board's save: `handleSaveTask` decides
 * "new task" by comparing the saved id with `task-${Date.now()}` read again
 * on the board side. These lemmas follow a draft from the editor onto the board.
 */
module Workflow {
  import opened Wrappers
  import opened Types
  import opened Columns
  import opened BoardOps
  import opened TaskEditor
  import BoardProperties

  /** The board's test for a new task, against its own clock reading `now`. */
  function IsNewTask(saved: Task, now: nat): bool {
    saved.id == ClockTaskId(now)
  }

  /**
   * Adding through the editor: a fresh draft with only a title saves to a
   * task of defaults with id `task-<now>`; when the board reads the same
   * clock, it appends that task to the chosen column with the column's title
   * as status, and the board stays well formed.
   */
  lemma AddThroughEditor(cols: seq<Column>, c: nat, title: string, now: nat)
    requires WellFormed(cols)
    requires c < |cols| && cols[c].id != ""
    requires title != ""
    requires !OnBoard(cols, ClockTaskId(now))
    ensures var saved := Save(ChangeText(Open(None), TitleField, title).form, Some(cols[c].id), now);
            && saved == Some(Task(ClockTaskId(now), title, "", "Backlog", Medium, None, Date(now), [], [], [], []))
            && var r := SaveTask(cols, saved.value, IsNewTask(saved.value, now), Some(cols[c].id));
               && r == cols[c := AppendTask(cols[c], saved.value, cols[c].title)]
               && r[c].tasks[|r[c].tasks| - 1].status == cols[c].title
               && TaskCount(r) == TaskCount(cols) + 1
               && WellFormed(r)
  {
    var saved := Save(ChangeText(Open(None), TitleField, title).form, Some(cols[c].id), now);
    SaveTitleOnly(title, Some(cols[c].id), now);
    assert ChangeText(Open(None), TitleField, title).form == EmptyDraft.(title := Some(title));
    BoardProperties.SaveAddsTask(cols, saved.value, c);
  }

  /**
   * If the board's clock has moved on since the editor stamped the new task,
   * the board takes the edit branch, finds no task with that id, and the new
   * task is lost.
   */
  lemma AddLostWhenClockMoves(cols: seq<Column>, columnId: string, title: string, now: nat, later: nat)
    requires title != "" && later != now
    requires !OnBoard(cols, ClockTaskId(now))
    ensures var saved := Save(ChangeText(Open(None), TitleField, title).form, Some(columnId), now);
            && saved.Some?
            && !IsNewTask(saved.value, later)
            && SaveTask(cols, saved.value, IsNewTask(saved.value, later), Some(columnId)) == cols
  {
    var saved := Save(ChangeText(Open(None), TitleField, title).form, Some(columnId), now);
    ClockTaskIdInjective(now, later);
    BoardProperties.EditAbsentIsNoop(cols, saved.value);
  }

  /**
   * Editing through the editor: opening a task, changing its title and saving
   * updates that task in place; its column, slot and status stay, and every
   * other task is untouched.
   */
  lemma EditThroughEditor(cols: seq<Column>, i: nat, k: nat, title: string, now: nat)
    requires WellFormed(cols)
    requires i < |cols| && k < |cols[i].tasks|
    requires cols[i].tasks[k].id != "" && cols[i].tasks[k].status != ""
    requires title != ""
    ensures var t := cols[i].tasks[k];
            var saved := Save(ChangeText(Open(Some(t)), TitleField, title).form, None, now);
            && saved == Some(t.(title := title))
            && SaveTask(cols, saved.value, IsNewTask(saved.value, now), None)
               == cols[i := cols[i].(tasks := cols[i].tasks[k := t.(title := title)])]
  {
    var t := cols[i].tasks[k];
    var saved := t.(title := title);
    assert ChangeText(Open(Some(t)), TitleField, title).form == DraftOf(saved);
    OpenSaveRoundTrip(saved, None, now);
    assert t in cols[i].tasks;
    assert saved.(status := cols[i].title) == saved;
    BoardProperties.EditOneSlot(cols, i, k, saved);
  }

  /**
   * A board with a Backlog and a Done column: completing the Backlog task
   * moves it to Done with status "Done" and leaves Backlog empty.
   */
  lemma CompleteBacklogTask(t: Task)
    requires t.status == "Backlog"
    ensures CompleteTask([Column("column-1", "Backlog", [t]), Column("column-2", "Done", [])], t.id)
         == [Column("column-1", "Backlog", []), Column("column-2", "Done", [t.(status := "Done")])]
  {
    var cols := [Column("column-1", "Backlog", [t]), Column("column-2", "Done", [])];
    assert Locate(cols, t.id) == Some(Location(0, 0));
    assert FirstTitled(cols, DoneTitle) == Some(1);
    assert Without([t], t.id) == [];
    var r := Relocate(cols, "column-1", t, "column-2", Fixed(DoneTitle));
    assert r[0] == Column("column-1", "Backlog", []);
    assert r[1] == Column("column-2", "Done", [t.(status := "Done")]);
  }
}
