/**
 * The task editor (src/components/TaskModal.tsx): a partial draft of a task,
 * the edits the form applies to it, and the save step that validates the
 * title and completes the draft into a `Task` with fixed defaults.
 * The clock (`Date.now()`, `new Date()`) is the parameter `now`.
 */
module TaskEditor {
  import opened Wrappers
  import opened Types

  /**
   * `Partial<Task>`: every field may be absent. `dueDate` is both optional
   * and nullable, so a present due date is itself an `Option`.
   */
  datatype Draft = Draft(
    id: Option<string>,
    title: Option<string>,
    description: Option<string>,
    status: Option<string>,
    priority: Option<Priority>,
    dueDate: Option<Option<Date>>,
    createdAt: Option<Date>,
    assignees: Option<seq<string>>,
    tags: Option<seq<string>>,
    comments: Option<seq<Comment>>,
    attachments: Option<seq<string>>)

  /** `{}` */
  const EmptyDraft: Draft := Draft(None, None, None, None, None, None, None, None, None, None, None)

  /** The spread of a whole task into a draft: every field present. */
  function DraftOf(t: Task): Draft {
    Draft(Some(t.id), Some(t.title), Some(t.description), Some(t.status), Some(t.priority),
          Some(t.dueDate), Some(t.createdAt), Some(t.assignees), Some(t.tags), Some(t.comments),
          Some(t.attachments))
  }

  /** The editor's state: the draft and the date shown in the calendar. */
  datatype Editor = Editor(form: Draft, selectedDate: Option<Date>)

  /** A present-but-null due date and an absent one both read as "no date". */
  function DueDateOf(d: Draft): Option<Date> {
    match d.dueDate
    case None => None
    case Some(due) => due
  }

  /** The calendar shows exactly the draft's due date. */
  predicate DateInSync(e: Editor) {
    e.selectedDate == DueDateOf(e.form)
  }

  /** The `useEffect` run when the editor opens: copy the task being edited, or start empty. */
  function Open(task: Option<Task>): (e: Editor)
    ensures task.None? ==> e.form == EmptyDraft && e.selectedDate == None
    ensures task.Some? ==> e.form.id == Some(task.value.id) && e.form.title == Some(task.value.title)
    ensures task.Some? ==> e.form.description == Some(task.value.description)
    ensures task.Some? ==> e.form.status == Some(task.value.status) && e.form.priority == Some(task.value.priority)
    ensures task.Some? ==> e.form.dueDate == Some(task.value.dueDate) && e.form.createdAt == Some(task.value.createdAt)
    ensures task.Some? ==> e.form.assignees == Some(task.value.assignees) && e.form.tags == Some(task.value.tags)
    ensures task.Some? ==> e.form.comments == Some(task.value.comments) && e.form.attachments == Some(task.value.attachments)
    ensures task.Some? ==> e.selectedDate == task.value.dueDate
    ensures DateInSync(e)
  {
    match task
    case Some(t) => Editor(DraftOf(t), t.dueDate)
    case None => Editor(EmptyDraft, None)
  }

  /** The two text inputs `handleChange` serves, by their `name`. */
  datatype TextField = TitleField | DescriptionField

  /** `handleChange`: the named text field takes the input's value. */
  function ChangeText(e: Editor, field: TextField, value: string): (r: Editor)
    ensures r.form.title == (if field == TitleField then Some(value) else e.form.title)
    ensures r.form.description == (if field == DescriptionField then Some(value) else e.form.description)
    ensures r.form.(title := e.form.title, description := e.form.description) == e.form
    ensures DateInSync(e) ==> DateInSync(r)
    ensures r.selectedDate == e.selectedDate
  {
    match field
    case TitleField => e.(form := e.form.(title := Some(value)))
    case DescriptionField => e.(form := e.form.(description := Some(value)))
  }

  /** `handleSelectChange('priority', value)` from the priority select. */
  function ChangePriority(e: Editor, p: Priority): (r: Editor)
    ensures DateInSync(e) ==> DateInSync(r)
    ensures r.form.priority == Some(p)
    ensures r.form.(priority := e.form.priority) == e.form && r.selectedDate == e.selectedDate
  {
    e.(form := e.form.(priority := Some(p)))
  }

  /** `handleDateSelect`: picking a date sets it; clearing the selection stores `null`. */
  function SelectDate(e: Editor, date: Option<Date>): (r: Editor)
    ensures DateInSync(r)
    ensures r.selectedDate == date
    ensures r.form.dueDate == Some(date)
    ensures r.form.(dueDate := e.form.dueDate) == e.form
  {
    Editor(e.form.(dueDate := Some(date)), date)
  }

  /** The priorities the select offers. */
  const AvailablePriorities: seq<Priority> := [Low, Medium, High, Urgent]

  /** The values the select's items hand to `handleSelectChange`: the literal of each offered priority. */
  function SelectValues(): (r: seq<string>)
    ensures |r| == |AvailablePriorities|
  {
    seq(|AvailablePriorities|, i requires 0 <= i < |AvailablePriorities| => PriorityName(AvailablePriorities[i]))
  }

  /**
   * The cast `formData.priority as Priority` is sound for what the select
   * hands over: exactly its item values parse as priorities, and each parses
   * to the priority the item stands for.
   */
  lemma SelectValuesParse()
    ensures forall s :: ParsePriority(s).Some? <==> s in SelectValues()
    ensures forall i :: 0 <= i < |SelectValues()| ==> ParsePriority(SelectValues()[i]) == Some(AvailablePriorities[i])
  {
    var v := SelectValues();
    assert v == ["low", "medium", "high", "urgent"];
  }

  /** The select offers every priority, each once. */
  lemma AvailablePrioritiesExact()
    ensures forall p: Priority :: p in AvailablePriorities
    ensures forall i, j :: 0 <= i < j < |AvailablePriorities| ==> AvailablePriorities[i] != AvailablePriorities[j]
    ensures |AvailablePriorities| == 4
  {
    forall p: Priority ensures p in AvailablePriorities {
      match p
      case Low => assert AvailablePriorities[0] == p;
      case Medium => assert AvailablePriorities[1] == p;
      case High => assert AvailablePriorities[2] == p;
      case Urgent => assert AvailablePriorities[3] == p;
    }
  }

  /** `s || dflt` for a possibly absent string: absent and empty both fall back. */
  function OrDefault(s: Option<string>, dflt: string): string {
    if s.Some? && s.value != "" then s.value else dflt
  }

  predicate IsDigits(s: string) {
    forall i :: 0 <= i < |s| ==> '0' <= s[i] <= '9'
  }

  function DigitChar(d: nat): (c: char)
    requires d < 10
    ensures '0' <= c <= '9'
  {
    "0123456789"[d]
  }

  /** The decimal rendering of a clock reading, as a template literal prints it. */
  function Decimal(n: nat): (s: string)
    ensures |s| >= 1 && IsDigits(s)
  {
    if n < 10 then [DigitChar(n)] else Decimal(n / 10) + [DigitChar(n % 10)]
  }

  /** Reads a string of digits back as a number. */
  function DigitsValue(s: string): nat
    requires IsDigits(s)
  {
    if |s| == 0 then 0
    else DigitsValue(s[..|s| - 1]) * 10 + (s[|s| - 1] as int - '0' as int)
  }

  /** Reading back the decimal rendering gives the number rendered. */
  lemma {:induction false} DecimalRoundTrip(n: nat)
    ensures DigitsValue(Decimal(n)) == n
  {
    if n >= 10 {
      DecimalRoundTrip(n / 10);
      var s := Decimal(n);
      assert s[..|s| - 1] == Decimal(n / 10);
    }
  }

  /** The id a new task gets: `task-${Date.now()}`. */
  function ClockTaskId(now: nat): string {
    "task-" + Decimal(now)
  }

  /** Different clock readings give different ids. */
  lemma ClockTaskIdInjective(a: nat, b: nat)
    ensures ClockTaskId(a) == ClockTaskId(b) ==> a == b
  {
    if ClockTaskId(a) == ClockTaskId(b) {
      assert Decimal(a) == ClockTaskId(a)[5..];
      assert Decimal(b) == ClockTaskId(b)[5..];
      DecimalRoundTrip(a);
      DecimalRoundTrip(b);
    }
  }

  /**
   * `handleSave`: a draft without a non-empty title is rejected (no task, so
   * `onSave` is not called); otherwise every absent or falsy field gets its
   * default. The fallback status is 'Backlog' on both arms of the source's
   * `columnId ? 'Backlog' : 'Backlog'`.
   */
  function Save(form: Draft, columnId: Option<string>, now: nat): (r: Option<Task>)
    ensures r.None? <==> form.title.None? || form.title.value == ""
    ensures r.Some? ==> r.value.title == form.title.value
    ensures r.Some? ==> r.value.id != "" && r.value.status != ""
    ensures r.Some? && (form.id.None? || form.id.value == "") ==> r.value.id == ClockTaskId(now)
  {
    if form.title.None? || form.title.value == "" then None
    else
      Some(Task(
        id := OrDefault(form.id, ClockTaskId(now)),
        title := form.title.value,
        description := OrDefault(form.description, ""),
        status := OrDefault(form.status, if columnId.Some? && columnId.value != "" then "Backlog" else "Backlog"),
        priority := form.priority.GetOr(Medium),
        dueDate := DueDateOf(form),
        createdAt := form.createdAt.GetOr(Date(now)),
        assignees := form.assignees.GetOr([]),
        tags := form.tags.GetOr([]),
        comments := form.comments.GetOr([]),
        attachments := form.attachments.GetOr([])))
  }

  /** A draft holding only a title saves to a task made entirely of defaults. */
  lemma SaveTitleOnly(title: string, columnId: Option<string>, now: nat)
    requires title != ""
    ensures Save(EmptyDraft.(title := Some(title)), columnId, now)
         == Some(Task(ClockTaskId(now), title, "", "Backlog", Medium, None, Date(now), [], [], [], []))
  {
  }

  /** Each absent field (or empty string, where `||` treats it as falsy) takes its fixed default. */
  lemma SaveFillsDefaults(form: Draft, columnId: Option<string>, now: nat)
    requires form.title.Some? && form.title.value != ""
    ensures var t := Save(form, columnId, now).value;
            && (form.id.None? || form.id.value == "" ==> t.id == ClockTaskId(now))
            && (form.description.None? ==> t.description == "")
            && (form.status.None? || form.status.value == "" ==> t.status == "Backlog")
            && (form.priority.None? ==> t.priority == Medium)
            && (form.dueDate.None? || form.dueDate == Some(None) ==> t.dueDate == None)
            && (form.createdAt.None? ==> t.createdAt == Date(now))
            && (form.assignees.None? ==> t.assignees == [])
            && (form.tags.None? ==> t.tags == [])
            && (form.comments.None? ==> t.comments == [])
            && (form.attachments.None? ==> t.attachments == [])
  {
  }

  /** Fields present in the draft (non-empty, for strings) are carried into the saved task unchanged. */
  lemma SaveKeepsPresentFields(form: Draft, columnId: Option<string>, now: nat)
    requires form.title.Some? && form.title.value != ""
    ensures var t := Save(form, columnId, now).value;
            && (form.id.Some? && form.id.value != "" ==> t.id == form.id.value)
            && (form.description.Some? ==> t.description == form.description.value)
            && (form.status.Some? && form.status.value != "" ==> t.status == form.status.value)
            && (form.priority.Some? ==> t.priority == form.priority.value)
            && (form.dueDate.Some? ==> t.dueDate == form.dueDate.value)
            && (form.createdAt.Some? ==> t.createdAt == form.createdAt.value)
            && (form.assignees.Some? ==> t.assignees == form.assignees.value)
            && (form.tags.Some? ==> t.tags == form.tags.value)
            && (form.comments.Some? ==> t.comments == form.comments.value)
            && (form.attachments.Some? ==> t.attachments == form.attachments.value)
  {
  }

  /** The column the editor was opened for never influences the saved task. */
  lemma SaveIgnoresColumn(form: Draft, c1: Option<string>, c2: Option<string>, now: nat)
    ensures Save(form, c1, now) == Save(form, c2, now)
  {
  }

  /**
   * Opening the editor on a task and saving without changes gives the task
   * back, as long as none of the fields `||` treats as falsy is empty.
   */
  lemma OpenSaveRoundTrip(t: Task, columnId: Option<string>, now: nat)
    requires t.id != "" && t.title != "" && t.status != ""
    ensures Save(Open(Some(t)).form, columnId, now) == Some(t)
  {
  }

  /** While the calendar and the draft agree, the saved due date is the one the calendar shows. */
  lemma SaveUsesSelectedDate(e: Editor, columnId: Option<string>, now: nat)
    requires DateInSync(e)
    requires e.form.title.Some? && e.form.title.value != ""
    ensures Save(e.form, columnId, now).value.dueDate == e.selectedDate
  {
  }
}
