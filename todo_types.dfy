/**
 * The task record (src/types/todo.ts). Timestamps are integer milliseconds
 * since the epoch, the value `Date.getTime()` gives.
 */
module TodoTypes {
  import opened Wrappers

  /** The four urgency levels, the only values the `priority` field can take. */
  datatype Priority = Low | Medium | High | Critical

  /**
   * One task: six fields, `createdAt` always present, `completedAt` optional.
   * Nothing in the type ties `completed` to `completedAt`; see Consistent.
   */
  datatype Todo = Todo(
    id: string,
    text: string,
    completed: bool,
    priority: Priority,
    createdAt: int,
    completedAt: Option<int>)

  /** The string literal a priority is written as ('low' | 'medium' | 'high' | 'critical'). */
  function PriorityName(p: Priority): string {
    match p
    case Low => "low"
    case Medium => "medium"
    case High => "high"
    case Critical => "critical"
  }

  /** The priority a string literal denotes, if it is one of the four. */
  function ParsePriority(s: string): (r: Option<Priority>)
    ensures r.Some? <==> s in {"low", "medium", "high", "critical"}
    ensures r.Some? ==> PriorityName(r.value) == s
  {
    if s == "low" then Some(Low)
    else if s == "medium" then Some(Medium)
    else if s == "high" then Some(High)
    else if s == "critical" then Some(Critical)
    else None
  }

  /** Every priority is named by exactly one of the four literals, and parsing inverts naming. */
  lemma PriorityNameRoundTrip(p: Priority, q: Priority)
    ensures ParsePriority(PriorityName(p)) == Some(p)
    ensures PriorityName(p) == PriorityName(q) ==> p == q
  {
  }

  predicate IsDone(t: Todo) { t.completed }

  predicate IsPending(t: Todo) { !t.completed }

  /** The relation the operations maintain: `completedAt` is present exactly when `completed`. */
  predicate Consistent(t: Todo) {
    t.completed <==> t.completedAt.Some?
  }

  /** A completion time, when present, is not before the creation time. */
  predicate Chronological(t: Todo) {
    t.completedAt.Some? ==> t.createdAt <= t.completedAt.value
  }

  predicate AllConsistent(todos: seq<Todo>) {
    forall t :: t in todos ==> Consistent(t)
  }

  predicate AllChronological(todos: seq<Todo>) {
    forall t :: t in todos ==> Chronological(t)
  }

  predicate UniqueIds(todos: seq<Todo>) {
    forall i, j :: 0 <= i < j < |todos| ==> todos[i].id != todos[j].id
  }

  /** The ids in use. */
  function Ids(todos: seq<Todo>): set<string> {
    set t | t in todos :: t.id
  }
}
