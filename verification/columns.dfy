/**
 * The vocabulary the board handlers are written in: finding a task by id
 * (first match in column order), filtering a column's tasks by id, counting
 * tasks, and the board invariants (unique ids, status equal to column title).
 */
module Columns {
  import opened Wrappers
  import opened Types

  /** Some task in `tasks` carries `id`. */
  predicate HasId(tasks: seq<Task>, id: string) {
    exists k :: 0 <= k < |tasks| && tasks[k].id == id
  }

  /** Some column of the board holds a task carrying `id`. */
  predicate OnBoard(cols: seq<Column>, id: string) {
    exists i :: 0 <= i < |cols| && HasId(cols[i].tasks, id)
  }

  /** `column.tasks.find(t => t.id === id)`, as the index of the first match. */
  function FirstIndex(tasks: seq<Task>, id: string): (r: Option<nat>)
    ensures r.None? <==> !HasId(tasks, id)
    ensures r.Some? ==> r.value < |tasks| && tasks[r.value].id == id
    ensures r.Some? ==> forall k :: 0 <= k < r.value ==> tasks[k].id != id
  {
    if |tasks| == 0 then None
    else if tasks[0].id == id then Some(0)
    else
      match FirstIndex(tasks[1..], id)
      case None =>
        assert forall k :: 1 <= k < |tasks| ==> tasks[k] == tasks[1..][k - 1];
        None
      case Some(k) => Some(k + 1)
  }

  /** Where a task sits: the index of its column and its index inside that column. */
  datatype Location = Location(column: nat, slot: nat)

  /** `loc` is the first place, scanning columns in order and each column's tasks in order, holding `id`. */
  predicate FirstAt(cols: seq<Column>, id: string, loc: Location) {
    && loc.column < |cols|
    && loc.slot < |cols[loc.column].tasks|
    && cols[loc.column].tasks[loc.slot].id == id
    && (forall i :: 0 <= i < loc.column ==> !HasId(cols[i].tasks, id))
    && (forall k :: 0 <= k < loc.slot ==> cols[loc.column].tasks[k].id != id)
  }

  /** The scan over `boardData.columns` that stops at the first column whose `find` succeeds. */
  function Locate(cols: seq<Column>, id: string): (r: Option<Location>)
    ensures r.None? <==> !OnBoard(cols, id)
    ensures r.Some? ==> FirstAt(cols, id, r.value)
  {
    if |cols| == 0 then None
    else
      match FirstIndex(cols[0].tasks, id)
      case Some(k) => Some(Location(0, k))
      case None =>
        match Locate(cols[1..], id)
        case None =>
          assert forall i :: 1 <= i < |cols| ==> cols[i] == cols[1..][i - 1];
          None
        case Some(loc) =>
          assert forall i :: 1 <= i < |cols| ==> cols[i] == cols[1..][i - 1];
          Some(Location(loc.column + 1, loc.slot))
  }

  /** The multiset of the ids of `tasks`. */
  function TaskIds(tasks: seq<Task>): (r: multiset<string>)
    ensures |r| == |tasks|
  {
    if |tasks| == 0 then multiset{} else multiset{tasks[0].id} + TaskIds(tasks[1..])
  }

  /** An id is in the multiset exactly when some task carries it. */
  lemma {:induction false} TaskIdsHas(tasks: seq<Task>, x: string)
    ensures x in TaskIds(tasks) <==> HasId(tasks, x)
  {
    if |tasks| > 0 {
      TaskIdsHas(tasks[1..], x);
      if HasId(tasks, x) && tasks[0].id != x {
        var k :| 0 <= k < |tasks| && tasks[k].id == x;
        assert tasks[1..][k - 1].id == x;
      }
      if HasId(tasks[1..], x) {
        var k :| 0 <= k < |tasks[1..]| && tasks[1..][k].id == x;
        assert tasks[k + 1].id == x;
      }
    }
  }

  /** `tasks.filter(t => t.id !== id)` */
  function Without(tasks: seq<Task>, id: string): (r: seq<Task>)
    ensures TaskIds(r) == TaskIds(tasks)[id := 0]
  {
    if |tasks| == 0 then []
    else if tasks[0].id == id then Without(tasks[1..], id)
    else [tasks[0]] + Without(tasks[1..], id)
  }

  /** The filter keeps exactly the tasks whose id differs from `id`. */
  lemma {:induction false} WithoutMembers(tasks: seq<Task>, id: string)
    ensures forall t :: t in Without(tasks, id) <==> t in tasks && t.id != id
  {
    if |tasks| > 0 {
      WithoutMembers(tasks[1..], id);
      assert tasks == [tasks[0]] + tasks[1..];
    }
  }

  /** `WithoutMembers` for every column of a board at once. */
  lemma WithoutMembersEach(cols: seq<Column>, id: string)
    ensures forall i, t :: 0 <= i < |cols| ==> (t in Without(cols[i].tasks, id) <==> t in cols[i].tasks && t.id != id)
  {
    forall i | 0 <= i < |cols| {
      WithoutMembers(cols[i].tasks, id);
    }
  }

  /** A filter that matches nothing returns its input, order included. */
  lemma {:induction false} WithoutAbsent(tasks: seq<Task>, id: string)
    requires !HasId(tasks, id)
    ensures Without(tasks, id) == tasks
  {
    if |tasks| > 0 {
      assert tasks[0].id != id;
      assert !HasId(tasks[1..], id) by {
        forall k | 0 <= k < |tasks[1..]| ensures tasks[1..][k].id != id {
          assert tasks[1..][k] == tasks[k + 1];
        }
      }
      WithoutAbsent(tasks[1..], id);
      WithoutStep(tasks, id);
      assert tasks == [tasks[0]] + tasks[1..];
    }
  }

  /** Filtering out an id that occurs exactly once deletes that one slot and keeps the rest in order. */
  lemma {:induction false} WithoutSingle(tasks: seq<Task>, id: string, slot: nat)
    requires slot < |tasks| && tasks[slot].id == id
    requires forall k :: 0 <= k < |tasks| && k != slot ==> tasks[k].id != id
    ensures Without(tasks, id) == tasks[..slot] + tasks[slot + 1..]
  {
    var tail := tasks[1..];
    if slot == 0 {
      TailAbsent(tasks, id);
      WithoutAbsent(tail, id);
    } else {
      TailSingle(tasks, id, slot);
      WithoutSingle(tail, id, slot - 1);
      WithoutCons(tasks, id, slot);
    }
  }

  /** Steps of `WithoutSingle`: the tail of a column, and one filter step past a non-matching head. */
  lemma TailAbsent(tasks: seq<Task>, id: string)
    requires |tasks| > 0
    requires forall k :: 1 <= k < |tasks| ==> tasks[k].id != id
    ensures !HasId(tasks[1..], id)
  {
  }

  lemma TailSingle(tasks: seq<Task>, id: string, slot: nat)
    requires 0 < slot < |tasks|
    requires forall k :: 0 <= k < |tasks| && k != slot ==> tasks[k].id != id
    ensures forall k :: 0 <= k < |tasks| - 1 && k != slot - 1 ==> tasks[1..][k].id != id
  {
  }

  lemma WithoutCons(tasks: seq<Task>, id: string, slot: nat)
    requires 0 < slot < |tasks| && tasks[0].id != id
    requires Without(tasks[1..], id) == tasks[1..][..slot - 1] + tasks[1..][slot..]
    ensures Without(tasks, id) == tasks[..slot] + tasks[slot + 1..]
  {
    WithoutStep(tasks, id);
    ConcatAssoc([tasks[0]], tasks[1..][..slot - 1], tasks[1..][slot..]);
    SliceShift(tasks, slot);
  }

  /** The filter works piece by piece: filtering a concatenation concatenates the filtered parts, in order. */
  lemma {:induction false} WithoutConcat(a: seq<Task>, b: seq<Task>, id: string)
    ensures Without(a + b, id) == Without(a, id) + Without(b, id)
  {
    if |a| == 0 {
      assert a + b == b;
    } else {
      WithoutConcat(a[1..], b, id);
      WithoutConcatStep(a, b, id);
    }
  }

  /** The inductive step of `WithoutConcat`: it holds for `a` once it holds for the tail of `a`. */
  lemma WithoutConcatStep(a: seq<Task>, b: seq<Task>, id: string)
    requires |a| > 0
    requires Without(a[1..] + b, id) == Without(a[1..], id) + Without(b, id)
    ensures Without(a + b, id) == Without(a, id) + Without(b, id)
  {
    var head := if a[0].id == id then [] else [a[0]];
    ConsConcat(a, b);
    WithoutStep(a + b, id);
    WithoutStep(a, id);
    ConcatAssoc(head, Without(a[1..], id), Without(b, id));
  }

  /** Sequence facts the filter lemmas use: the head and tail of a concatenation, and associativity. */
  lemma ConsConcat<T>(a: seq<T>, b: seq<T>)
    requires |a| > 0
    ensures (a + b)[0] == a[0] && (a + b)[1..] == a[1..] + b
  {
  }

  lemma SliceShift<T>(s: seq<T>, slot: nat)
    requires 0 < slot < |s|
    ensures [s[0]] + s[1..][..slot - 1] == s[..slot] && s[1..][slot..] == s[slot + 1..]
  {
  }

  lemma ConcatAssoc<T>(x: seq<T>, y: seq<T>, z: seq<T>)
    ensures x + (y + z) == (x + y) + z
  {
  }

  /** One step of the filter: the head is kept or dropped, then the tail is filtered. */
  lemma WithoutStep(s: seq<Task>, id: string)
    requires |s| > 0
    ensures Without(s, id) == (if s[0].id == id then [] else [s[0]]) + Without(s[1..], id)
  {
  }

  /** Number of tasks on the board. */
  function TaskCount(cols: seq<Column>): nat {
    if |cols| == 0 then 0 else |cols[0].tasks| + TaskCount(cols[1..])
  }

  /** The multiset of all task ids on the board; it has one element per task. */
  function IdBag(cols: seq<Column>): (r: multiset<string>)
    ensures |r| == TaskCount(cols)
  {
    if |cols| == 0 then multiset{} else TaskIds(cols[0].tasks) + IdBag(cols[1..])
  }

  /** An id is in the board's multiset exactly when some column holds a task carrying it. */
  lemma {:induction false} IdBagHas(cols: seq<Column>, x: string)
    ensures x in IdBag(cols) <==> OnBoard(cols, x)
  {
    if |cols| > 0 {
      IdBagHas(cols[1..], x);
      TaskIdsHas(cols[0].tasks, x);
      if OnBoard(cols, x) && !HasId(cols[0].tasks, x) {
        var i :| 0 <= i < |cols| && HasId(cols[i].tasks, x);
        assert cols[1..][i - 1] == cols[i];
      }
      if OnBoard(cols[1..], x) {
        var i :| 0 <= i < |cols[1..]| && HasId(cols[1..][i].tasks, x);
        assert cols[i + 1] == cols[1..][i];
      }
    }
  }

  /** Replacing one column changes the id multiset by exactly that column's difference. */
  lemma {:induction false} IdBagUpdate(cols: seq<Column>, i: nat, c: Column)
    requires i < |cols|
    ensures IdBag(cols[i := c]) + TaskIds(cols[i].tasks) == IdBag(cols) + TaskIds(c.tasks)
  {
    var u := cols[i := c];
    if i == 0 {
      assert u[1..] == cols[1..];
    } else {
      var rest := cols[1..];
      assert u[1..] == rest[i - 1 := c];
      assert rest[i - 1] == cols[i];
      IdBagUpdate(rest, i - 1, c);
      var a, x, y := TaskIds(cols[0].tasks), IdBag(rest[i - 1 := c]), IdBag(rest);
      var ti, tc := TaskIds(cols[i].tasks), TaskIds(c.tasks);
      assert x + ti == y + tc;
      assert IdBag(u) == a + x;
      assert forall e :: ((a + x) + ti)[e] == ((a + y) + tc)[e] by {
        forall e ensures ((a + x) + ti)[e] == ((a + y) + tc)[e] {
          assert (x + ti)[e] == (y + tc)[e];
        }
      }
    }
  }

  /** Replacing one column changes the task count by exactly that column's difference. */
  lemma {:induction false} TaskCountUpdate(cols: seq<Column>, i: nat, c: Column)
    requires i < |cols|
    ensures TaskCount(cols[i := c]) + |cols[i].tasks| == TaskCount(cols) + |c.tasks|
  {
    var u := cols[i := c];
    if i == 0 {
      assert u[1..] == cols[1..];
    } else {
      assert u[1..] == cols[1..][i - 1 := c];
      TaskCountUpdate(cols[1..], i - 1, c);
    }
  }

  /** Each column's ids are part of the board's ids. */
  lemma {:induction false} ColumnIdsInBag(cols: seq<Column>, i: nat)
    requires i < |cols|
    ensures TaskIds(cols[i].tasks) <= IdBag(cols)
  {
    if i > 0 {
      ColumnIdsInBag(cols[1..], i - 1);
    }
  }

  /** Two different columns' ids are jointly part of the board's ids. */
  lemma {:induction false} ColumnPairInBag(cols: seq<Column>, i: nat, j: nat)
    requires i < j < |cols|
    ensures TaskIds(cols[i].tasks) + TaskIds(cols[j].tasks) <= IdBag(cols)
  {
    var rest := cols[1..];
    assert IdBag(cols) == TaskIds(cols[0].tasks) + IdBag(rest);
    assert rest[j - 1] == cols[j];
    if i == 0 {
      ColumnIdsInBag(rest, j - 1);
    } else {
      assert rest[i - 1] == cols[i];
      ColumnPairInBag(rest, i - 1, j - 1);
    }
  }

  /** Two boards whose columns have pairwise equal id multisets have equal id multisets. */
  lemma {:induction false} IdBagPointwise(a: seq<Column>, b: seq<Column>)
    requires |a| == |b|
    requires forall i :: 0 <= i < |a| ==> TaskIds(a[i].tasks) == TaskIds(b[i].tasks)
    ensures IdBag(a) == IdBag(b)
  {
    if |a| > 0 {
      IdBagPointwise(a[1..], b[1..]);
    }
  }

  /** Removing every occurrence of `x` from each column removes every occurrence from the board. */
  lemma {:induction false} IdBagPointwiseErase(a: seq<Column>, b: seq<Column>, x: string)
    requires |a| == |b|
    requires forall i :: 0 <= i < |a| ==> TaskIds(b[i].tasks) == TaskIds(a[i].tasks)[x := 0]
    ensures IdBag(b) == IdBag(a)[x := 0]
  {
    if |a| > 0 {
      IdBagPointwiseErase(a[1..], b[1..], x);
    }
  }

  /** No two columns share an id. */
  predicate UniqueColumnIds(cols: seq<Column>) {
    forall i, j :: 0 <= i < j < |cols| ==> cols[i].id != cols[j].id
  }

  /** No task id occurs twice on the board, within a column or across columns. */
  predicate UniqueTaskIds(cols: seq<Column>) {
    forall x :: x in IdBag(cols) ==> IdBag(cols)[x] <= 1
  }

  /** Every task of `c` has `c`'s title as its status. */
  predicate ColumnSynced(c: Column) {
    forall t :: t in c.tasks ==> t.status == c.title
  }

  /** The denormalised `status` field agrees with the containing column everywhere. */
  predicate StatusSync(cols: seq<Column>) {
    forall i :: 0 <= i < |cols| ==> ColumnSynced(cols[i])
  }

  /** The board invariants the handlers are meant to keep. */
  predicate WellFormed(cols: seq<Column>) {
    UniqueColumnIds(cols) && UniqueTaskIds(cols) && StatusSync(cols)
  }

  /** `b` has the same columns as `a` (ids and titles, in order); only their tasks may differ. */
  predicate SameFrame(a: seq<Column>, b: seq<Column>) {
    && |a| == |b|
    && forall i :: 0 <= i < |a| ==> a[i].id == b[i].id && a[i].title == b[i].title
  }

  /** With unique task ids, a task found by `Locate` is the only one with its id in its column. */
  lemma OnlySlot(cols: seq<Column>, id: string, loc: Location)
    requires UniqueTaskIds(cols)
    requires FirstAt(cols, id, loc)
    ensures forall k :: 0 <= k < |cols[loc.column].tasks| && k != loc.slot ==>
              cols[loc.column].tasks[k].id != id
    ensures TaskIds(cols[loc.column].tasks)[id] == 1
  {
    var tasks := cols[loc.column].tasks;
    ColumnIdsInBag(cols, loc.column);
    assert TaskIds(tasks)[id] <= 1;
    forall k | 0 <= k < |tasks| && k != loc.slot
      ensures tasks[k].id != id
    {
      if tasks[k].id == id {
        TwoSlots(tasks, id, k, loc.slot);
      }
    }
    TaskIdsHas(tasks, id);
  }

  /** Two different slots carrying the same id make that id occur twice. */
  lemma {:induction false} TwoSlots(tasks: seq<Task>, id: string, k: nat, l: nat)
    requires k < |tasks| && l < |tasks| && k != l
    requires tasks[k].id == id && tasks[l].id == id
    ensures TaskIds(tasks)[id] >= 2
  {
    if k == 0 || l == 0 {
      var other := if k == 0 then l else k;
      assert tasks[1..][other - 1].id == id;
      TaskIdsHas(tasks[1..], id);
      assert TaskIds(tasks) == multiset{tasks[0].id} + TaskIds(tasks[1..]);
    } else {
      TwoSlots(tasks[1..], id, k - 1, l - 1);
    }
  }

  /** With unique task ids, a task id pins down its column and its slot. */
  lemma SlotUnique(cols: seq<Column>, i: nat, k: nat, j: nat, l: nat)
    requires UniqueTaskIds(cols)
    requires i < |cols| && k < |cols[i].tasks| && j < |cols| && l < |cols[j].tasks|
    requires cols[i].tasks[k].id == cols[j].tasks[l].id
    ensures i == j && k == l
  {
    var id := cols[i].tasks[k].id;
    TaskIdsHas(cols[i].tasks, id);
    TaskIdsHas(cols[j].tasks, id);
    IdBagHas(cols, id);
    if i == j {
      if k != l {
        TwoSlots(cols[i].tasks, id, k, l);
        ColumnIdsInBag(cols, i);
      }
    } else if i < j {
      ColumnPairInBag(cols, i, j);
    } else {
      ColumnPairInBag(cols, j, i);
    }
  }
}
