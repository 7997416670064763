/**
 * The list view of src/App.tsx: the status filter, the display order, and the
 * wiring of the two forms to the store's operations.
 */
module App {
  import opened Wrappers
  import opened TodoTypes
  import opened Seqs
  import opened Strings
  import UseTodos
  import TodoInput
  import TodoItem

  // Filtering

  /** The three tabs of the filter bar. */
  datatype FilterMode = All | Active | Completed

  /** `filteredTodos`: the tasks shown under a tab, in list order. */
  function FilteredTodos(todos: seq<Todo>, mode: FilterMode): (r: seq<Todo>)
    ensures mode == All ==> r == todos
    ensures mode == Active ==> forall t :: t in r <==> t in todos && !t.completed
    ensures mode == Completed ==> forall t :: t in r <==> t in todos && t.completed
    ensures multiset(r) <= multiset(todos)
  {
    match mode
    case Active => Filter(todos, IsPending)
    case Completed => Filter(todos, IsDone)
    case All => todos
  }

  /** The Active tab shows exactly what clearing the completed tasks would keep. */
  lemma ActiveIsCleared(todos: seq<Todo>)
    ensures FilteredTodos(todos, Active) == UseTodos.Cleared(todos)
  {
  }

  /** Every task is under exactly one of the Active and Completed tabs. */
  lemma ActiveCompletedPartition(todos: seq<Todo>)
    ensures |FilteredTodos(todos, Active)| + |FilteredTodos(todos, Completed)| == |todos|
    ensures |FilteredTodos(todos, Completed)| == UseTodos.StatsOf(todos).completed
    ensures |FilteredTodos(todos, Active)| == UseTodos.StatsOf(todos).pending
  {
    FilterSplit(todos, IsPending, IsDone);
  }

  /** Filtering keeps list order: the view of a concatenation is the concatenation of views. */
  lemma FilteredConcat(a: seq<Todo>, b: seq<Todo>, mode: FilterMode)
    ensures FilteredTodos(a + b, mode) == FilteredTodos(a, mode) + FilteredTodos(b, mode)
  {
    match mode
    case Active => FilterConcat(a, b, IsPending);
    case Completed => FilterConcat(a, b, IsDone);
    case All =>
  }

  // Ordering

  /** `priorityOrder`: critical first, low last. */
  function PriorityOrder(p: Priority): (r: nat)
    ensures r <= 3
    ensures r == 0 <==> p == Critical
  {
    match p
    case Critical => 0
    case High => 1
    case Medium => 2
    case Low => 3
  }

  /** A different priority has a different rank. */
  lemma PriorityOrderInjective(p: Priority, q: Priority)
    ensures PriorityOrder(p) == PriorityOrder(q) <==> p == q
  {
  }

  /** The comparator given to `sort`: negative when `a` is shown before `b`. */
  function Compare(a: Todo, b: Todo): (r: int)
    ensures a.completed != b.completed ==> (r < 0 <==> !a.completed)
    ensures a.completed == b.completed && a.priority != b.priority ==>
      (r < 0 <==> PriorityOrder(a.priority) < PriorityOrder(b.priority))
    ensures r == 0 <==> a.completed == b.completed && a.priority == b.priority && a.createdAt == b.createdAt
  {
    PriorityOrderInjective(a.priority, b.priority);
    if a.completed != b.completed then (if a.completed then 1 else -1)
    else if PriorityOrder(a.priority) != PriorityOrder(b.priority) then
      PriorityOrder(a.priority) - PriorityOrder(b.priority)
    else b.createdAt - a.createdAt
  }

  /** `a` may be shown before `b`. */
  predicate Precedes(a: Todo, b: Todo) {
    Compare(a, b) <= 0
  }

  /**
   * The comparator is a lexicographic key: pending before completed, then
   * by priority rank, then newest first.
   */
  lemma PrecedesMeaning(a: Todo, b: Todo)
    ensures Precedes(a, b) <==>
      || (!a.completed && b.completed)
      || (a.completed == b.completed && PriorityOrder(a.priority) < PriorityOrder(b.priority))
      || (a.completed == b.completed && a.priority == b.priority && a.createdAt >= b.createdAt)
  {
    PriorityOrderInjective(a.priority, b.priority);
  }

  /** The comparator is consistent: swapping the arguments negates it. */
  lemma CompareAntisymmetric(a: Todo, b: Todo)
    ensures Compare(a, b) == -Compare(b, a)
  {
  }

  /** Any two tasks can be ordered. */
  lemma PrecedesTotal(a: Todo, b: Todo)
    ensures Precedes(a, b) || Precedes(b, a)
  {
    CompareAntisymmetric(a, b);
  }

  lemma PrecedesTransitive(a: Todo, b: Todo, c: Todo)
    requires Precedes(a, b) && Precedes(b, c)
    ensures Precedes(a, c)
  {
    PrecedesMeaning(a, b);
    PrecedesMeaning(b, c);
    PrecedesMeaning(a, c);
  }

  predicate Sorted(s: seq<Todo>) {
    forall i, j :: 0 <= i < j < |s| ==> Precedes(s[i], s[j])
  }

  /** A task that may precede every task of a sorted list stays sorted in front of it. */
  lemma SortedCons(y: Todo, r: seq<Todo>)
    requires Sorted(r) && forall z :: z in r ==> Precedes(y, z)
    ensures Sorted([y] + r)
  {
    var t := [y] + r;
    forall i, j | 0 <= i < j < |t|
      ensures Precedes(t[i], t[j])
    {
      assert t[j] == r[j - 1];
      if i == 0 {
        assert r[j - 1] in r;
      } else {
        assert t[i] == r[i - 1];
      }
    }
  }

  /** Stable insertion of `x` into a sorted list: before the first task it may precede. */
  function Insert(x: Todo, s: seq<Todo>): (r: seq<Todo>)
    requires Sorted(s)
    ensures Sorted(r)
    ensures multiset(r) == multiset(s) + multiset{x}
    ensures |r| == |s| + 1
  {
    if s == [] then [x]
    else if Precedes(x, s[0]) then
      assert forall z :: z in s ==> Precedes(x, z) by {
        forall z | z in s
          ensures Precedes(x, z)
        {
          var j :| 0 <= j < |s| && s[j] == z;
          if j > 0 { PrecedesTransitive(x, s[0], s[j]); }
        }
      }
      SortedCons(x, s);
      [x] + s
    else
      var rest := Insert(x, s[1..]);
      PrecedesTotal(x, s[0]);
      assert forall y :: y in rest ==> Precedes(s[0], y) by {
        forall y | y in rest
          ensures Precedes(s[0], y)
        {
          assert y in multiset(rest);
          if y != x {
            assert y in multiset(s[1..]);
            var j :| 0 <= j < |s[1..]| && s[1..][j] == y;
            assert s[j + 1] == y;
          }
        }
      }
      SortedCons(s[0], rest);
      assert s == [s[0]] + s[1..];
      [s[0]] + rest
  }

  /** `sortedTodos`: the list in display order, a permutation of its input. */
  function SortedTodos(s: seq<Todo>): (r: seq<Todo>)
    ensures Sorted(r)
    ensures multiset(r) == multiset(s) && |r| == |s|
  {
    if s == [] then []
    else
      assert s == [s[0]] + s[1..];
      Insert(s[0], SortedTodos(s[1..]))
  }

  /** What the display order means, in the comparator's three steps. */
  lemma SortedOrder(s: seq<Todo>)
    ensures var r := SortedTodos(s);
      && (forall i, j :: 0 <= i < j < |r| && r[i].completed ==> r[j].completed)
      && (forall i, j :: 0 <= i < j < |r| && r[i].completed == r[j].completed ==>
            PriorityOrder(r[i].priority) <= PriorityOrder(r[j].priority))
      && (forall i, j :: 0 <= i < j < |r| && r[i].completed == r[j].completed && r[i].priority == r[j].priority ==>
            r[i].createdAt >= r[j].createdAt)
  {
    var r := SortedTodos(s);
    forall i, j | 0 <= i < j < |r|
      ensures r[i].completed ==> r[j].completed
      ensures r[i].completed == r[j].completed ==> PriorityOrder(r[i].priority) <= PriorityOrder(r[j].priority)
      ensures r[i].completed == r[j].completed && r[i].priority == r[j].priority ==> r[i].createdAt >= r[j].createdAt
    {
      PrecedesMeaning(r[i], r[j]);
    }
  }

  /** A list already in display order is left as it is. */
  lemma {:induction false} SortedTodosOfSorted(s: seq<Todo>)
    requires Sorted(s)
    ensures SortedTodos(s) == s
  {
    if s != [] {
      assert Sorted(s[1..]);
      SortedTodosOfSorted(s[1..]);
      if |s| > 1 {
        assert Precedes(s[0], s[1]);
      }
    }
  }

  /** Sorting twice is sorting once. */
  lemma SortedTodosIdempotent(s: seq<Todo>)
    ensures SortedTodos(SortedTodos(s)) == SortedTodos(s)
  {
    SortedTodosOfSorted(SortedTodos(s));
  }

  /** What the list shows: the filtered tasks, reordered, none added or lost. */
  function Visible(todos: seq<Todo>, mode: FilterMode): (r: seq<Todo>)
    ensures Sorted(r)
    ensures multiset(r) == multiset(FilteredTodos(todos, mode))
    ensures mode == Active ==> forall t :: t in r <==> t in todos && !t.completed
    ensures mode == Completed ==> forall t :: t in r <==> t in todos && t.completed
    ensures mode == All ==> multiset(r) == multiset(todos)
  {
    var f := FilteredTodos(todos, mode);
    var r := SortedTodos(f);
    assert forall t :: t in r <==> t in f by {
      forall t ensures t in r <==> t in f {
        assert t in r <==> t in multiset(r);
        assert t in f <==> t in multiset(f);
      }
    }
    r
  }

  // Wiring

  /** `<TodoInput onAdd={addTodo} />`: submitting the form adds the task to the store. */
  method SubmitTask(form: TodoInput.TaskForm, store: UseTodos.TodoStore, id: string, now: int)
    requires id !in Ids(store.todos)
    modifies form, store
    ensures Blank(old(form.text)) ==>
      && store.todos == old(store.todos)
      && form.text == old(form.text) && form.priority == old(form.priority)
    ensures !Blank(old(form.text)) ==>
      && store.todos == UseTodos.Added(old(store.todos), id, old(form.text), Some(old(form.priority)), now)
      && form.text == "" && form.priority == Medium
    ensures !Blank(old(form.text)) ==>
      !Blank(store.todos[0].text) && Trim(store.todos[0].text) == store.todos[0].text
    ensures old(store.Valid()) ==> store.Valid()
  {
    var request := form.HandleSubmit();
    if request.Some? {
      var text := request.value.text;
      TrimIdempotent(text);
      store.AddTodo(text, Some(request.value.priority), id, now);
    }
  }

  /** `<TodoItem onUpdate={updateTodo} />`: saving an edit rewrites the task in the store. */
  method SaveTaskEdit(editor: TodoItem.TaskEditor, store: UseTodos.TodoStore)
    modifies editor, store
    ensures editor.todo == old(editor.todo)
    ensures editor.editText == old(editor.editText) && editor.editPriority == old(editor.editPriority)
    ensures Blank(old(editor.editText)) ==>
      store.todos == old(store.todos) && editor.isEditing == old(editor.isEditing)
    ensures !Blank(old(editor.editText)) ==>
      && !editor.isEditing
      && store.todos == UseTodos.Updated(old(store.todos), old(editor.todo.id),
           UseTodos.Updates(Some(Trim(old(editor.editText))), Some(old(editor.editPriority))))
    ensures !Blank(old(editor.editText)) ==>
      forall t :: t in store.todos && t.id == old(editor.todo.id) ==> !Blank(t.text) && Trim(t.text) == t.text
    ensures old(store.Valid()) ==> store.Valid()
  {
    TrimIdempotent(editor.editText);
    var request := editor.HandleSave();
    if request.Some? {
      UseTodos.UpdatedText(store.todos, request.value.id, request.value.updates);
      store.UpdateTodo(request.value.id, request.value.updates);
    }
  }
}
