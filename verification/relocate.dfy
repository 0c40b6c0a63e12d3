/**
 * Facts about the building blocks of the handlers: what `Relocate` does on a
 * board with unique column ids, and how removing one task or appending one
 * task changes the id multiset, the count and the invariants.
 */
module RelocateFacts {
  import opened Wrappers
  import opened Types
  import opened Columns
  import opened BoardOps

  /** Column ids and titles are all the uniqueness of column ids depends on. */
  lemma FrameKeepsUniqueColumnIds(a: seq<Column>, b: seq<Column>)
    requires SameFrame(a, b) && UniqueColumnIds(a)
    ensures UniqueColumnIds(b)
  {
  }

  /** With unique column ids, relocating between two distinct columns touches exactly those two. */
  lemma RelocateTwo(cols: seq<Column>, s: nat, t: nat, moved: Task, stamp: Stamp)
    requires UniqueColumnIds(cols)
    requires s < |cols| && t < |cols| && s != t
    ensures Relocate(cols, cols[s].id, moved, cols[t].id, stamp)
         == cols[s := cols[s].(tasks := Without(cols[s].tasks, moved.id))]
                [t := AppendTask(cols[t], moved, StatusFor(stamp, cols[t]))]
  {
  }

  /** With unique column ids and no other column carrying the target id, only the source changes. */
  lemma RelocateOne(cols: seq<Column>, s: nat, moved: Task, targetId: string, stamp: Stamp)
    requires UniqueColumnIds(cols)
    requires s < |cols|
    requires forall i :: 0 <= i < |cols| && i != s ==> cols[i].id != targetId
    ensures Relocate(cols, cols[s].id, moved, targetId, stamp)
         == cols[s := cols[s].(tasks := Without(cols[s].tasks, moved.id))]
  {
  }

  /** Replacing a column by a synchronised one keeps the board synchronised. */
  lemma SyncUpdate(cols: seq<Column>, i: nat, c: Column)
    requires StatusSync(cols) && i < |cols| && ColumnSynced(c)
    ensures StatusSync(cols[i := c])
  {
  }

  /** Ids of a column with one task appended. */
  lemma {:induction false} TaskIdsAppend(tasks: seq<Task>, t: Task)
    ensures TaskIds(tasks + [t]) == TaskIds(tasks) + multiset{t.id}
  {
    if |tasks| > 0 {
      assert (tasks + [t])[1..] == tasks[1..] + [t];
      TaskIdsAppend(tasks[1..], t);
    }
  }

  /**
   * Taking the task found by `Locate` out of its column: it is the only one
   * with that id there, so the filter deletes exactly its slot, and the board
   * loses exactly that id and that one task.
   */
  lemma RemoveFound(cols: seq<Column>, id: string, loc: Location)
    requires UniqueTaskIds(cols)
    requires FirstAt(cols, id, loc)
    ensures cols[loc.column].(tasks := Without(cols[loc.column].tasks, id)) == RemoveSlot(cols[loc.column], loc.slot)
    ensures var r := cols[loc.column := RemoveSlot(cols[loc.column], loc.slot)];
            && IdBag(r) + multiset{id} == IdBag(cols)
            && TaskCount(r) + 1 == TaskCount(cols)
            && UniqueTaskIds(r)
            && !OnBoard(r, id)
            && (StatusSync(cols) ==> StatusSync(r))
  {
    OnlySlot(cols, id, loc);
    WithoutSingle(cols[loc.column].tasks, id, loc.slot);
    RemoveSlotBag(cols, id, loc);
    var r := cols[loc.column := RemoveSlot(cols[loc.column], loc.slot)];
    BagShrinks(cols, r, id);
    if StatusSync(cols) {
      WithoutMembers(cols[loc.column].tasks, id);
      assert ColumnSynced(RemoveSlot(cols[loc.column], loc.slot));
    }
  }

  lemma RemoveSlotBag(cols: seq<Column>, id: string, loc: Location)
    requires FirstAt(cols, id, loc)
    requires TaskIds(cols[loc.column].tasks)[id] == 1
    requires Without(cols[loc.column].tasks, id) == RemoveSlot(cols[loc.column], loc.slot).tasks
    ensures var r := cols[loc.column := RemoveSlot(cols[loc.column], loc.slot)];
            && IdBag(r) + multiset{id} == IdBag(cols)
            && TaskCount(r) + 1 == TaskCount(cols)
  {
    var s := loc.column;
    var removed := RemoveSlot(cols[s], loc.slot);
    IdBagUpdate(cols, s, removed);
    TaskCountUpdate(cols, s, removed);
    OneCopyLess(IdBag(cols[s := removed]), IdBag(cols), TaskIds(cols[s].tasks), TaskIds(removed.tasks), id);
  }

  /** Multiset arithmetic: trading `before` for `after`, which lacks the one copy of `id`, loses exactly that copy. */
  lemma OneCopyLess(x: multiset<string>, y: multiset<string>, before: multiset<string>, after: multiset<string>, id: string)
    requires x + before == y + after
    requires after == before[id := 0] && before[id] == 1
    ensures x + multiset{id} == y
  {
    forall e ensures (x + multiset{id})[e] == y[e] {
      assert (x + before)[e] == (y + after)[e];
    }
  }

  /** A board that lost one copy of a unique id keeps unique ids and no longer holds it. */
  lemma BagShrinks(cols: seq<Column>, r: seq<Column>, id: string)
    requires UniqueTaskIds(cols)
    requires IdBag(r) + multiset{id} == IdBag(cols)
    ensures UniqueTaskIds(r) && !OnBoard(r, id)
  {
    assert IdBag(cols)[id] == IdBag(r)[id] + 1;
    assert id in IdBag(cols);
    assert IdBag(r)[id] == 0;
    IdBagHas(r, id);
    forall x | x in IdBag(r) ensures IdBag(r)[x] <= 1 {
      assert IdBag(r)[x] <= IdBag(cols)[x];
    }
  }

  /** Appending a task to one column adds exactly its id and one to the count. */
  lemma AppendOne(cols: seq<Column>, t: nat, task: Task, status: string)
    requires t < |cols|
    ensures var r := cols[t := AppendTask(cols[t], task, status)];
            && IdBag(r) == IdBag(cols) + multiset{task.id}
            && TaskCount(r) == TaskCount(cols) + 1
            && (StatusSync(cols) && status == cols[t].title ==> StatusSync(r))
  {
    AppendBag(cols, t, task, status);
    var c := AppendTask(cols[t], task, status);
    TaskCountUpdate(cols, t, c);
    if StatusSync(cols) && status == cols[t].title {
      assert ColumnSynced(c);
      SyncUpdate(cols, t, c);
    }
  }

  lemma AppendBag(cols: seq<Column>, t: nat, task: Task, status: string)
    requires t < |cols|
    ensures IdBag(cols[t := AppendTask(cols[t], task, status)]) == IdBag(cols) + multiset{task.id}
  {
    var c := AppendTask(cols[t], task, status);
    var r := cols[t := c];
    IdBagUpdate(cols, t, c);
    TaskIdsAppend(cols[t].tasks, task.(status := status));
    var before := TaskIds(cols[t].tasks);
    assert TaskIds(c.tasks) == before + multiset{task.id};
    forall e ensures IdBag(r)[e] == (IdBag(cols) + multiset{task.id})[e] {
      assert (IdBag(r) + before)[e] == (IdBag(cols) + (before + multiset{task.id}))[e];
    }
  }

  /**
   * Moving the task found at `loc` to a different column `t` with a status
   * equal to `t`'s title: on a well-formed board this removes it from its slot,
   * appends it to `t`, keeps the id multiset (hence the count) and keeps the
   * board well formed.
   */
  lemma MoveFound(cols: seq<Column>, id: string, loc: Location, t: nat, stamp: Stamp)
    requires WellFormed(cols)
    requires FirstAt(cols, id, loc)
    requires t < |cols| && t != loc.column
    requires StatusFor(stamp, cols[t]) == cols[t].title
    ensures var task := cols[loc.column].tasks[loc.slot];
            var r := Relocate(cols, cols[loc.column].id, task, cols[t].id, stamp);
            && r == cols[loc.column := RemoveSlot(cols[loc.column], loc.slot)]
                        [t := AppendTask(cols[t], task, cols[t].title)]
            && IdBag(r) == IdBag(cols)
            && TaskCount(r) == TaskCount(cols)
            && WellFormed(r)
  {
    var s := loc.column;
    var task := cols[s].tasks[loc.slot];
    RelocateTwo(cols, s, t, task, stamp);
    RemoveFound(cols, id, loc);
    var mid := cols[s := RemoveSlot(cols[s], loc.slot)];
    assert mid[t] == cols[t];
    AppendOne(mid, t, task, cols[t].title);
    var r := mid[t := AppendTask(cols[t], task, cols[t].title)];
    assert IdBag(r) == IdBag(cols);
    FrameKeepsUniqueColumnIds(cols, r);
  }

  /**
   * Relocating the task found at `loc` when no other column carries the target
   * id: the task leaves its column and is not added anywhere.
   */
  lemma DropFound(cols: seq<Column>, id: string, loc: Location, targetId: string, stamp: Stamp)
    requires WellFormed(cols)
    requires FirstAt(cols, id, loc)
    requires forall i :: 0 <= i < |cols| && i != loc.column ==> cols[i].id != targetId
    ensures var task := cols[loc.column].tasks[loc.slot];
            var r := Relocate(cols, cols[loc.column].id, task, targetId, stamp);
            && r == cols[loc.column := RemoveSlot(cols[loc.column], loc.slot)]
            && IdBag(r) + multiset{id} == IdBag(cols)
            && TaskCount(r) + 1 == TaskCount(cols)
            && !OnBoard(r, id)
            && WellFormed(r)
  {
    var task := cols[loc.column].tasks[loc.slot];
    RelocateOne(cols, loc.column, task, targetId, stamp);
    RemoveFound(cols, id, loc);
    FrameKeepsUniqueColumnIds(cols, Relocate(cols, cols[loc.column].id, task, targetId, stamp));
  }
}
