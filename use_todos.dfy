/**
 * The task store (src/hooks/useTodos.ts). Each operation replaces the task
 * list by a spread, map or filter of the previous one; the pure transforms below are
 * those expressions, and the class TodoStore holds the state cell they update.
 */
module UseTodos {
  import opened Wrappers
  import opened TodoTypes
  import opened Seqs
  import opened Strings

  /** What `updateTodo` may change; an absent field is left as it is. */
  datatype Updates = Updates(text: Option<string>, priority: Option<Priority>)

  /** The derived `stats` record. */
  datatype Stats = Stats(total: nat, completed: nat, pending: nat, critical: nat)

  /** The task `addTodo` builds; the priority defaults to medium when it is not given. */
  function NewTodo(id: string, text: string, priority: Option<Priority>, now: int): (t: Todo)
    ensures t.id == id && t.createdAt == now
    ensures t.text == Trim(text)
    ensures !t.completed && t.completedAt == None
    ensures priority.None? ==> t.priority == Medium
    ensures priority.Some? ==> t.priority == priority.value
    ensures Consistent(t) && Chronological(t)
  {
    Todo(id, Trim(text), false, priority.GetOr(Medium), now, None)
  }

  /** `[newTodo, ...prev]`. */
  function Added(todos: seq<Todo>, id: string, text: string, priority: Option<Priority>, now: int): (r: seq<Todo>)
    ensures |r| == |todos| + 1
    ensures r[0] == NewTodo(id, text, priority, now) && r[1..] == todos
  {
    [NewTodo(id, text, priority, now)] + todos
  }

  /** A task as `toggleTodo` rewrites it. */
  function ToggledTodo(t: Todo, now: int): Todo {
    t.(completed := !t.completed, completedAt := if !t.completed then Some(now) else None)
  }

  /** `prev.map(...)` of toggleTodo: every task with the id is toggled, the others are kept. */
  function Toggled(todos: seq<Todo>, id: string, now: int): (r: seq<Todo>)
    ensures |r| == |todos|
    ensures forall i :: 0 <= i < |todos| && todos[i].id != id ==> r[i] == todos[i]
    ensures forall i :: 0 <= i < |todos| && todos[i].id == id ==>
      && r[i].completed == !todos[i].completed
      && r[i].completedAt == (if r[i].completed then Some(now) else None)
      && r[i].id == todos[i].id && r[i].text == todos[i].text
      && r[i].priority == todos[i].priority && r[i].createdAt == todos[i].createdAt
      && Consistent(r[i])
    ensures id !in Ids(todos) ==> r == todos
  {
    seq(|todos|, i requires 0 <= i < |todos| =>
      if todos[i].id == id then ToggledTodo(todos[i], now) else todos[i])
  }

  /** The clock reading `now` is not before the creation time of any task with the id. */
  predicate ClockNotBehind(todos: seq<Todo>, id: string, now: int) {
    forall t :: t in todos && t.id == id ==> now >= t.createdAt
  }

  /** The keep-predicate of deleteTodo. */
  function NotId(id: string): Todo -> bool {
    (t: Todo) => t.id != id
  }

  /** `prev.filter(todo => todo.id !== id)`. */
  function Deleted(todos: seq<Todo>, id: string): (r: seq<Todo>)
    ensures forall t :: t in r <==> t in todos && t.id != id
    ensures id !in Ids(r)
    ensures id !in Ids(todos) ==> r == todos
  {
    Filter(todos, NotId(id))
  }

  /** A task with `{ ...todo, ...updates }` applied. */
  function UpdatedTodo(t: Todo, u: Updates): Todo {
    t.(text := u.text.GetOr(t.text), priority := u.priority.GetOr(t.priority))
  }

  /** `prev.map(...)` of updateTodo: no trimming and no check of the new text. */
  function Updated(todos: seq<Todo>, id: string, u: Updates): (r: seq<Todo>)
    ensures |r| == |todos|
    ensures forall i :: 0 <= i < |todos| && todos[i].id != id ==> r[i] == todos[i]
    ensures forall i :: 0 <= i < |todos| && todos[i].id == id ==>
      && r[i].id == todos[i].id && r[i].completed == todos[i].completed
      && r[i].createdAt == todos[i].createdAt && r[i].completedAt == todos[i].completedAt
      && r[i].text == (if u.text.Some? then u.text.value else todos[i].text)
      && r[i].priority == (if u.priority.Some? then u.priority.value else todos[i].priority)
    ensures id !in Ids(todos) ==> r == todos
  {
    seq(|todos|, i requires 0 <= i < |todos| =>
      if todos[i].id == id then UpdatedTodo(todos[i], u) else todos[i])
  }

  /** `prev.filter(todo => !todo.completed)`. */
  function Cleared(todos: seq<Todo>): (r: seq<Todo>)
    ensures forall t :: t in r ==> !t.completed
    ensures forall t :: t in todos && !t.completed ==> t in r
    ensures forall t :: t in r ==> t in todos
  {
    Filter(todos, IsPending)
  }

  predicate IsOutstandingCritical(t: Todo) {
    t.priority == Critical && !t.completed
  }

  /** The `stats` record of a task list. */
  function StatsOf(todos: seq<Todo>): (s: Stats)
    ensures s.total == |todos|
    ensures s.total == s.completed + s.pending
    ensures s.critical <= s.pending
    ensures s.completed == 0 <==> forall t :: t in todos ==> !t.completed
    ensures s.critical == 0 <==> forall t :: t in todos ==> !IsOutstandingCritical(t)
  {
    FilterSplit(todos, IsDone, IsPending);
    FilterWeaker(todos, IsOutstandingCritical, IsPending);
    FilterEmpty(todos, IsDone);
    FilterEmpty(todos, IsOutstandingCritical);
    Stats(|todos|, |Filter(todos, IsDone)|, |Filter(todos, IsPending)|, |Filter(todos, IsOutstandingCritical)|)
  }

  // ---------------------------------------------------------------------------
  // Properties of the transforms

  /** addTodo with a fresh id keeps ids unique, every task consistent and every completion time after its creation. */
  lemma AddedKeepsInvariants(todos: seq<Todo>, id: string, text: string, priority: Option<Priority>, now: int)
    requires id !in Ids(todos)
    ensures var r := Added(todos, id, text, priority, now);
      && Ids(r) == Ids(todos) + {id}
      && (UniqueIds(todos) ==> UniqueIds(r))
      && (AllConsistent(todos) ==> AllConsistent(r))
      && (AllChronological(todos) ==> AllChronological(r))
  {
    var r := Added(todos, id, text, priority, now);
    assert forall t :: t in r <==> t == r[0] || t in todos by {
      assert r == [r[0]] + todos;
    }
    if UniqueIds(todos) {
      forall i, j | 0 <= i < j < |r| ensures r[i].id != r[j].id {
        if i == 0 {
          assert r[j] == todos[j - 1];
          assert r[j] in todos;
        } else {
          assert r[i] == todos[i - 1] && r[j] == todos[j - 1];
        }
      }
    }
  }

  /**
   * toggleTodo keeps ids, unique ids and consistency. It keeps every completion
   * time after its creation when the clock reading is not before the creation
   * time of the task being toggled.
   */
  lemma ToggledKeepsInvariants(todos: seq<Todo>, id: string, now: int)
    ensures var r := Toggled(todos, id, now);
      && (forall i :: 0 <= i < |r| ==> r[i].id == todos[i].id)
      && (UniqueIds(todos) ==> UniqueIds(r))
      && (AllConsistent(todos) ==> AllConsistent(r))
      && (AllChronological(todos) && ClockNotBehind(todos, id, now) ==> AllChronological(r))
  {
    var r := Toggled(todos, id, now);
    if AllConsistent(todos) {
      forall t | t in r ensures Consistent(t) {
        var i :| 0 <= i < |r| && r[i] == t;
        assert todos[i] in todos;
      }
    }
    if AllChronological(todos) && ClockNotBehind(todos, id, now) {
      forall t | t in r ensures Chronological(t) {
        var i :| 0 <= i < |r| && r[i] == t;
        assert todos[i] in todos;
      }
    }
  }

  /**
   * Toggling twice restores every `completed` flag. A task that was pending is
   * then exactly as before; one that was completed gets the second call's time
   * as its `completedAt`, not its original one.
   */
  lemma ToggleTwice(todos: seq<Todo>, id: string, now1: int, now2: int)
    ensures var r := Toggled(Toggled(todos, id, now1), id, now2);
      && |r| == |todos|
      && (forall i :: 0 <= i < |todos| ==> r[i].completed == todos[i].completed)
      && (forall i :: 0 <= i < |todos| && todos[i].id == id && todos[i].completed ==>
            r[i].completedAt == Some(now2))
      && (AllConsistent(todos) && (forall t :: t in todos && t.id == id ==> !t.completed) ==> r == todos)
  {
    var m := Toggled(todos, id, now1);
    var r := Toggled(m, id, now2);
    if AllConsistent(todos) && (forall t :: t in todos && t.id == id ==> !t.completed) {
      forall i | 0 <= i < |todos| ensures r[i] == todos[i] {
        assert todos[i] in todos;
      }
    }
  }

  /** With unique ids, deleting a present id removes exactly one task. */
  lemma {:induction false} DeletedOne(todos: seq<Todo>, id: string)
    requires UniqueIds(todos) && id in Ids(todos)
    ensures |Deleted(todos, id)| == |todos| - 1
  {
    var rest := todos[1..];
    assert UniqueIds(rest) by {
      forall i, j | 0 <= i < j < |rest| ensures rest[i].id != rest[j].id {
        assert rest[i] == todos[i + 1] && rest[j] == todos[j + 1];
      }
    }
    assert Deleted(todos, id) == (if todos[0].id != id then [todos[0]] else []) + Deleted(rest, id);
    if todos[0].id == id {
      assert id !in Ids(rest) by {
        forall t | t in rest ensures t.id != id {
          var j :| 0 <= j < |rest| && rest[j] == t;
          assert todos[j + 1] == t;
        }
      }
    } else {
      var t :| t in todos && t.id == id;
      assert t in rest;
      DeletedOne(rest, id);
    }
  }

  /** Deleting distributes over concatenation, so the remaining tasks keep their relative order. */
  lemma DeletedConcat(a: seq<Todo>, b: seq<Todo>, id: string)
    ensures Deleted(a + b, id) == Deleted(a, id) + Deleted(b, id)
  {
    FilterConcat(a, b, NotId(id));
  }

  /** Any filter of a list with unique ids has unique ids. */
  lemma {:induction false} FilterKeepsUniqueIds(todos: seq<Todo>, p: Todo -> bool)
    requires UniqueIds(todos)
    ensures UniqueIds(Filter(todos, p))
    decreases |todos|
  {
    if todos != [] {
      var rest := todos[1..];
      UniqueTail(todos);
      FilterKeepsUniqueIds(rest, p);
      var f := Filter(rest, p);
      if p(todos[0]) {
        UniqueCons(todos[0], f);
        assert Filter(todos, p) == [todos[0]] + f;
      } else {
        assert Filter(todos, p) == [] + f;
      }
    }
  }

  /** The tail of a list with unique ids has unique ids, none of them the head's. */
  lemma UniqueTail(todos: seq<Todo>)
    requires UniqueIds(todos) && todos != []
    ensures UniqueIds(todos[1..])
    ensures forall t :: t in todos[1..] ==> t.id != todos[0].id
  {
    var rest := todos[1..];
    forall i, j | 0 <= i < j < |rest| ensures rest[i].id != rest[j].id {
      assert rest[i] == todos[i + 1] && rest[j] == todos[j + 1];
    }
    forall t | t in rest ensures t.id != todos[0].id {
      var k :| 0 <= k < |rest| && rest[k] == t;
      assert todos[k + 1] == t;
    }
  }

  /** A task whose id is new, put in front of a list with unique ids, keeps ids unique. */
  lemma UniqueCons(x: Todo, f: seq<Todo>)
    requires UniqueIds(f) && forall t :: t in f ==> t.id != x.id
    ensures UniqueIds([x] + f)
  {
    var r := [x] + f;
    forall i, j | 0 <= i < j < |r| ensures r[i].id != r[j].id {
      assert r[j] == f[j - 1];
      if i == 0 {
        assert f[j - 1] in f;
      } else {
        assert r[i] == f[i - 1];
      }
    }
  }

  /** deleteTodo keeps ids unique, every task consistent and every completion time after its creation. */
  lemma DeletedKeepsInvariants(todos: seq<Todo>, id: string)
    ensures UniqueIds(todos) ==> UniqueIds(Deleted(todos, id))
    ensures AllConsistent(todos) ==> AllConsistent(Deleted(todos, id))
    ensures AllChronological(todos) ==> AllChronological(Deleted(todos, id))
  {
    if UniqueIds(todos) {
      FilterKeepsUniqueIds(todos, NotId(id));
    }
  }

  /** After updateTodo with a new text, every task with the id carries that text. */
  lemma UpdatedText(todos: seq<Todo>, id: string, u: Updates)
    requires u.text.Some?
    ensures forall t :: t in Updated(todos, id, u) && t.id == id ==> t.text == u.text.value
  {
    var r := Updated(todos, id, u);
    forall t | t in r && t.id == id
      ensures t.text == u.text.value
    {
      var i :| 0 <= i < |r| && r[i] == t;
    }
  }

  /**
   * updateTodo keeps ids, unique ids, consistency and chronology: it never
   * touches completed, completedAt or createdAt.
   */
  lemma UpdatedKeepsInvariants(todos: seq<Todo>, id: string, u: Updates)
    ensures var r := Updated(todos, id, u);
      && (forall i :: 0 <= i < |r| ==> r[i].id == todos[i].id)
      && (UniqueIds(todos) ==> UniqueIds(r))
      && (AllConsistent(todos) ==> AllConsistent(r))
      && (AllChronological(todos) ==> AllChronological(r))
  {
    var r := Updated(todos, id, u);
    if AllConsistent(todos) {
      forall t | t in r ensures Consistent(t) {
        var i :| 0 <= i < |r| && r[i] == t;
        assert todos[i] in todos;
      }
    }
    if AllChronological(todos) {
      forall t | t in r ensures Chronological(t) {
        var i :| 0 <= i < |r| && r[i] == t;
        assert todos[i] in todos;
      }
    }
  }

  /** clearCompleted keeps ids unique, every task consistent and every completion time after its creation. */
  lemma ClearedKeepsInvariants(todos: seq<Todo>)
    ensures UniqueIds(todos) ==> UniqueIds(Cleared(todos))
    ensures AllConsistent(todos) ==> AllConsistent(Cleared(todos))
    ensures AllChronological(todos) ==> AllChronological(Cleared(todos))
  {
    if UniqueIds(todos) {
      FilterKeepsUniqueIds(todos, IsPending);
    }
  }

  /**
   * After clearCompleted nothing is completed, the pending tasks (and their
   * count) are those before, and a second call changes nothing.
   */
  lemma ClearedProperties(todos: seq<Todo>)
    ensures StatsOf(Cleared(todos)).completed == 0
    ensures StatsOf(Cleared(todos)).pending == StatsOf(todos).pending
    ensures Filter(Cleared(todos), IsPending) == Filter(todos, IsPending)
    ensures Cleared(Cleared(todos)) == Cleared(todos)
  {
    FilterIdempotent(todos, IsPending);
  }

  /** Clearing distributes over concatenation, so the pending tasks keep their relative order. */
  lemma ClearedConcat(a: seq<Todo>, b: seq<Todo>)
    ensures Cleared(a + b) == Cleared(a) + Cleared(b)
  {
    FilterConcat(a, b, IsPending);
  }

  // ---------------------------------------------------------------------------
  // The state cell

  /** The `todos` state of the hook, with the five operations that replace it. */
  class TodoStore {
    var todos: seq<Todo>

    /** What every list built by the operations satisfies. */
    ghost predicate Valid()
      reads this
    {
      UniqueIds(todos) && AllConsistent(todos) && AllChronological(todos)
    }

    /** `useState<Todo[]>([])`. */
    constructor ()
      ensures todos == [] && Valid()
    {
      todos := [];
    }

    /** addTodo, with the fresh id and the clock reading as parameters. */
    method AddTodo(text: string, priority: Option<Priority>, id: string, now: int)
      requires id !in Ids(todos)
      modifies this
      ensures todos == Added(old(todos), id, text, priority, now)
      ensures Ids(todos) == old(Ids(todos)) + {id}
      ensures old(Valid()) ==> Valid()
    {
      AddedKeepsInvariants(todos, id, text, priority, now);
      todos := Added(todos, id, text, priority, now);
    }

    /**
     * toggleTodo, with the clock reading as a parameter. The reading is taken
     * to be no earlier than the creation time of the task it completes.
     */
    method ToggleTodo(id: string, now: int)
      requires ClockNotBehind(todos, id, now)
      modifies this
      ensures todos == Toggled(old(todos), id, now)
      ensures old(Valid()) ==> Valid()
    {
      ToggledKeepsInvariants(todos, id, now);
      todos := Toggled(todos, id, now);
    }

    method DeleteTodo(id: string)
      modifies this
      ensures todos == Deleted(old(todos), id)
      ensures old(Valid()) ==> Valid()
    {
      DeletedKeepsInvariants(todos, id);
      todos := Deleted(todos, id);
    }

    method UpdateTodo(id: string, u: Updates)
      modifies this
      ensures todos == Updated(old(todos), id, u)
      ensures old(Valid()) ==> Valid()
    {
      UpdatedKeepsInvariants(todos, id, u);
      todos := Updated(todos, id, u);
    }

    method ClearCompleted()
      modifies this
      ensures todos == Cleared(old(todos))
      ensures Stats().completed == 0
      ensures old(Valid()) ==> Valid()
    {
      ClearedKeepsInvariants(todos);
      ClearedProperties(todos);
      todos := Cleared(todos);
    }

    /** The `stats` record, recomputed from the current list. */
    function Stats(): (s: Stats)
      reads this
      ensures s.total == |todos| && s.total == s.completed + s.pending
      ensures s.critical <= s.pending
      ensures s.completed == 0 <==> forall t :: t in todos ==> !t.completed
    {
      StatsOf(todos)
    }
  }
}
