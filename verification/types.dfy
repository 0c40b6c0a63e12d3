/** The records of the board's data model (src/types/index.ts). */
module Types {
  import opened Wrappers

  /** `'low' | 'medium' | 'high' | 'urgent'` */
  datatype Priority = Low | Medium | High | Urgent

  /** A JavaScript `Date`, kept opaque: only the instant it denotes, in epoch milliseconds. */
  datatype Date = Date(epochMillis: int)

  datatype User = User(id: string, name: string, avatar: string, role: string)

  datatype Tag = Tag(id: string, name: string, color: string)

  datatype Comment = Comment(id: string, userId: string, content: string, createdAt: Date)

  /** `dueDate` is nullable (`Date | null`), hence an `Option`. */
  datatype Task = Task(
    id: string,
    title: string,
    description: string,
    status: string,
    priority: Priority,
    dueDate: Option<Date>,
    createdAt: Date,
    assignees: seq<string>,
    tags: seq<string>,
    comments: seq<Comment>,
    attachments: seq<string>)

  datatype Column = Column(id: string, title: string, tasks: seq<Task>)

  datatype Board = Board(
    id: string,
    title: string,
    description: string,
    columns: seq<Column>,
    users: seq<User>,
    tags: seq<Tag>)

  /** The string literal each priority stands for in the source. */
  function PriorityName(p: Priority): string {
    match p
    case Low => "low"
    case Medium => "medium"
    case High => "high"
    case Urgent => "urgent"
  }

  /** Reads a priority literal back; any other string is not a `Priority`. */
  function ParsePriority(s: string): (r: Option<Priority>)
    ensures r.Some? <==> s in {"low", "medium", "high", "urgent"}
    ensures r.Some? ==> PriorityName(r.value) == s
  {
    if s == "low" then Some(Low)
    else if s == "medium" then Some(Medium)
    else if s == "high" then Some(High)
    else if s == "urgent" then Some(Urgent)
    else None
  }

  /** Every priority survives the trip through its literal. */
  lemma PriorityNameRoundTrip(p: Priority)
    ensures ParsePriority(PriorityName(p)) == Some(p)
  {
  }
}
