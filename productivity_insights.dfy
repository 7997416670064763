/**
 * The analytics panel (src/components/ProductivityInsights.tsx). The calendar
 * day of a timestamp, which the source compares through `toDateString()`, is
 * the parameter `dayOf`; the day before day `d` is `d - 1`.
 */
module ProductivityInsights {
  import opened Wrappers
  import opened TodoTypes
  import opened Seqs
  import opened JsMath

  /** Milliseconds per minute, `1000 * 60`. */
  const MinuteMs: int := 1000 * 60

  /** The number of days the streak walk examines at most. */
  const MaxStreak: nat := 30

  /** `todos.filter(todo => todo.completed)`. */
  function CompletedTodos(todos: seq<Todo>): (r: seq<Todo>)
    ensures forall t :: t in r <==> t in todos && t.completed
    ensures |r| <= |todos|
  {
    Filter(todos, IsDone)
  }

  /** The task has a completion time and it falls on `day`. */
  predicate CompletedOn(t: Todo, dayOf: int -> int, day: int) {
    t.completedAt.Some? && dayOf(t.completedAt.value) == day
  }

  function OnDay(dayOf: int -> int, day: int): Todo -> bool {
    (t: Todo) => CompletedOn(t, dayOf, day)
  }

  /** The completed tasks whose completion falls on the day of `now`. */
  function TodayCompleted(todos: seq<Todo>, dayOf: int -> int, now: int): (r: seq<Todo>)
    ensures forall t :: t in r <==> t in todos && t.completed && CompletedOn(t, dayOf, dayOf(now))
    ensures |r| <= |CompletedTodos(todos)|
  {
    Filter(CompletedTodos(todos), OnDay(dayOf, dayOf(now)))
  }

  /** What one task adds to the reduce of the average: its duration, or 0 without a completion time. */
  function Elapsed(t: Todo): int {
    if t.completedAt.Some? then t.completedAt.value - t.createdAt else 0
  }

  /** The reduce's sum, in milliseconds. */
  function TotalElapsed(todos: seq<Todo>): (r: int)
    ensures (forall i | 0 <= i < |todos| :: todos[i].completedAt.None?) ==> r == 0
    decreases |todos|
  {
    if todos == [] then 0 else Elapsed(todos[0]) + TotalElapsed(todos[1..])
  }

  /**
   * `avgCompletionTime`: 0 without completed tasks, otherwise the nearest
   * integer (halves up) to the total minutes over the number of completed tasks.
   */
  function AvgCompletionTime(todos: seq<Todo>): (r: int)
    ensures var c := CompletedTodos(todos);
      && (|c| == 0 ==> r == 0)
      && (|c| > 0 ==>
            var b := MinuteMs * |c|;
            2 * b * r <= 2 * TotalElapsed(c) + b < 2 * b * r + 2 * b)
  {
    var c := CompletedTodos(todos);
    if |c| > 0 then Round(TotalElapsed(c), MinuteMs * |c|) else 0
  }

  predicate HasCompletedAt(t: Todo) { t.completedAt.Some? }

  /** Tasks without a completion time add nothing to the total. */
  lemma {:induction false} TotalElapsedIgnoresMissing(todos: seq<Todo>)
    ensures TotalElapsed(todos) == TotalElapsed(Filter(todos, HasCompletedAt))
    decreases |todos|
  {
    if todos != [] {
      TotalElapsedIgnoresMissing(todos[1..]);
      var f := Filter(todos[1..], HasCompletedAt);
      if HasCompletedAt(todos[0]) {
        assert Filter(todos, HasCompletedAt) == [todos[0]] + f;
        assert ([todos[0]] + f)[1..] == f;
      } else {
        assert Filter(todos, HasCompletedAt) == f;
      }
    }
  }

  /**
   * The divisor counts every completed task, also one without a completion
   * time: one task done in 10 minutes and one such task average 5 minutes.
   */
  lemma AvgCountsTasksWithoutCompletionTime(a: Todo, b: Todo)
    requires a.completed && a.completedAt == Some(a.createdAt + 10 * MinuteMs)
    requires b.completed && b.completedAt == None
    ensures AvgCompletionTime([a, b]) == 5
  {
    var s := [a, b];
    assert Filter(s, IsDone) == [a] + Filter([b], IsDone) by {
      assert s[1..] == [b];
    }
    assert Filter([b], IsDone) == [b] + Filter([], IsDone) by {
      assert [b][1..] == [];
    }
    assert CompletedTodos(s) == [a, b];
    assert [a, b][1..] == [b] && [b][1..] == [];
    assert TotalElapsed([b]) == Elapsed(b) + TotalElapsed([]);
    assert TotalElapsed([a, b]) == Elapsed(a) + TotalElapsed([b]);
  }

  /** With every completion at or after its creation, the average is not negative. */
  lemma {:induction false} AvgNonNegative(todos: seq<Todo>)
    requires AllChronological(todos)
    ensures AvgCompletionTime(todos) >= 0
  {
    var c := CompletedTodos(todos);
    if |c| > 0 {
      TotalElapsedNonNegative(c);
      RoundNonNegative(TotalElapsed(c), MinuteMs * |c|);
    }
  }

  lemma {:induction false} TotalElapsedNonNegative(todos: seq<Todo>)
    requires AllChronological(todos)
    ensures TotalElapsed(todos) >= 0
    decreases |todos|
  {
    if todos != [] {
      assert todos[0] in todos;
      TotalElapsedNonNegative(todos[1..]);
    }
  }

  /** The completed-work breakdown per priority. */
  datatype Breakdown = Breakdown(critical: nat, high: nat, medium: nat, low: nat)

  function DoneWith(p: Priority): Todo -> bool {
    (t: Todo) => t.priority == p && t.completed
  }

  /** `priorityBreakdown`: the four counts of completed tasks, which add up to all completed tasks. */
  function PriorityBreakdown(todos: seq<Todo>): (b: Breakdown)
    ensures b.critical + b.high + b.medium + b.low == |CompletedTodos(todos)|
  {
    BreakdownSum(todos);
    Breakdown(
      |Filter(todos, DoneWith(Critical))|,
      |Filter(todos, DoneWith(High))|,
      |Filter(todos, DoneWith(Medium))|,
      |Filter(todos, DoneWith(Low))|)
  }

  /** Completed tasks whose priority is among `ps`. */
  function DoneWithin(ps: set<Priority>): Todo -> bool {
    (t: Todo) => t.priority in ps && t.completed
  }

  /** The four priority counts partition the completed tasks. */
  lemma BreakdownSum(todos: seq<Todo>)
    ensures |Filter(todos, DoneWith(Critical))| + |Filter(todos, DoneWith(High))|
          + |Filter(todos, DoneWith(Medium))| + |Filter(todos, DoneWith(Low))|
         == |Filter(todos, IsDone)|
  {
    assert forall t ::
      && (DoneWithin({Medium, Low})(t) <==> DoneWith(Medium)(t) || DoneWith(Low)(t))
      && !(DoneWith(Medium)(t) && DoneWith(Low)(t));
    assert forall t ::
      && (DoneWithin({High, Medium, Low})(t) <==> DoneWith(High)(t) || DoneWithin({Medium, Low})(t))
      && !(DoneWith(High)(t) && DoneWithin({Medium, Low})(t));
    assert forall t ::
      && (IsDone(t) <==> DoneWith(Critical)(t) || DoneWithin({High, Medium, Low})(t))
      && !(DoneWith(Critical)(t) && DoneWithin({High, Medium, Low})(t));
    FilterDisjointUnion(todos, DoneWith(Medium), DoneWith(Low), DoneWithin({Medium, Low}));
    FilterDisjointUnion(todos, DoneWith(High), DoneWithin({Medium, Low}), DoneWithin({High, Medium, Low}));
    FilterDisjointUnion(todos, DoneWith(Critical), DoneWithin({High, Medium, Low}), IsDone);
  }

  // ---------------------------------------------------------------------------
  // calculateStreak

  /** Some task of `todos` was completed on `day`. */
  predicate HasCompletionOn(todos: seq<Todo>, dayOf: int -> int, day: int) {
    exists j :: 0 <= j < |todos| && CompletedOn(todos[j], dayOf, day)
  }

  /**
   * `calculateStreak`: walk back from today while the day has a completion,
   * examining at most MaxStreak days. The result is the length of that run:
   * every day from today back over `streak` days has a completion, and the
   * next one back has none, unless the cap stopped the walk.
   */
  method CalculateStreak(completedTodos: seq<Todo>, dayOf: int -> int, now: int) returns (streak: nat)
    ensures streak <= MaxStreak
    ensures |completedTodos| == 0 ==> streak == 0
    ensures forall d :: dayOf(now) - streak < d <= dayOf(now) ==> HasCompletionOn(completedTodos, dayOf, d)
    ensures streak < MaxStreak ==> !HasCompletionOn(completedTodos, dayOf, dayOf(now) - streak)
    ensures streak == 0 <==> !HasCompletionOn(completedTodos, dayOf, dayOf(now))
  {
    if |completedTodos| == 0 {
      return 0;
    }
    var today := dayOf(now);
    streak := 0;
    var currentDay := today;
    while streak < MaxStreak
      invariant streak <= MaxStreak
      invariant currentDay == today - streak
      invariant forall d :: today - streak < d <= today ==> HasCompletionOn(completedTodos, dayOf, d)
    {
      var dayTodos := Filter(completedTodos, OnDay(dayOf, currentDay));
      if |dayTodos| > 0 {
        assert dayTodos[0] in dayTodos;
        streak := streak + 1;
        currentDay := currentDay - 1;
      } else {
        FilterEmpty(completedTodos, OnDay(dayOf, currentDay));
        assert forall j :: 0 <= j < |completedTodos| ==> completedTodos[j] in completedTodos;
        break;
      }
    }
  }

  // ---------------------------------------------------------------------------
  // getBestProductivityDay

  /** The day with the most completions and that number. */
  datatype BestDay = BestDay(day: int, count: nat)

  /** The number of tasks of `todos` completed on `day`. */
  function CountOn(todos: seq<Todo>, dayOf: int -> int, day: int): nat
    decreases |todos|
  {
    if todos == [] then 0
    else CountOn(todos[..|todos| - 1], dayOf, day) + (if CompletedOn(todos[|todos| - 1], dayOf, day) then 1 else 0)
  }

  /** `dayCount[key] || 0`. */
  function Lookup(m: map<int, nat>, key: int): nat {
    if key in m then m[key] else 0
  }

  lemma CountOnSnoc(s: seq<Todo>, t: Todo, dayOf: int -> int, day: int)
    ensures CountOn(s + [t], dayOf, day) == CountOn(s, dayOf, day) + (if CompletedOn(t, dayOf, day) then 1 else 0)
  {
    assert (s + [t])[..|s|] == s;
  }

  /** A day has a positive count exactly when some task was completed on it. */
  lemma {:induction false} CountOnHas(s: seq<Todo>, dayOf: int -> int, day: int)
    ensures CountOn(s, dayOf, day) > 0 <==> HasCompletionOn(s, dayOf, day)
    decreases |s|
  {
    if s != [] {
      var init := s[..|s| - 1];
      CountOnHas(init, dayOf, day);
      if HasCompletionOn(init, dayOf, day) {
        var j :| 0 <= j < |init| && CompletedOn(init[j], dayOf, day);
        assert s[j] == init[j];
      }
      if HasCompletionOn(s, dayOf, day) && !CompletedOn(s[|s| - 1], dayOf, day) {
        var j :| 0 <= j < |s| && CompletedOn(s[j], dayOf, day);
        assert init[j] == s[j];
      }
    }
  }

  /** Among the first `j + 1` tasks one was completed on `day`. */
  predicate SeenBy(s: seq<Todo>, dayOf: int -> int, day: int, j: int) {
    exists j' :: 0 <= j' <= j && j' < |s| && CompletedOn(s[j'], dayOf, day)
  }

  /** `keys` lists the keys of `dayCount`, each once, and every entry is positive. */
  ghost predicate KeysOf(keys: seq<int>, dayCount: map<int, nat>) {
    && (forall d :: d in dayCount <==> d in keys)
    && (forall a, b :: 0 <= a < b < |keys| ==> keys[a] != keys[b])
    && (forall d :: d in dayCount ==> dayCount[d] >= 1)
  }

  /** Each entry of `dayCount` is the number of completions on its day among the first `n` tasks. */
  ghost predicate CountsOf(s: seq<Todo>, dayOf: int -> int, n: int, dayCount: map<int, nat>) {
    && 0 <= n <= |s|
    && (forall d :: Lookup(dayCount, d) == CountOn(s[..n], dayOf, d))
  }

  /** A key's first task is not before the first task of any earlier key. */
  ghost predicate FirstSeenOrder(s: seq<Todo>, dayOf: int -> int, n: int, keys: seq<int>) {
    forall a, b, j {:trigger keys[a], SeenBy(s, dayOf, keys[b], j)} ::
      0 <= b <= a < |keys| && 0 <= j < n && j < |s| && CompletedOn(s[j], dayOf, keys[a]) ==>
      SeenBy(s, dayOf, keys[b], j)
  }

  /**
   * The dictionary `dayCount` after the `forEach` has visited the first `n`
   * tasks, with `keys` its keys in insertion order.
   */
  ghost predicate Tabulates(s: seq<Todo>, dayOf: int -> int, n: int, keys: seq<int>, dayCount: map<int, nat>) {
    KeysOf(keys, dayCount) && CountsOf(s, dayOf, n, dayCount) && FirstSeenOrder(s, dayOf, n, keys)
  }

  /** The day of a task's completion, as the key of `dayCount`. */
  function DayKey(t: Todo, dayOf: int -> int): int
    requires t.completedAt.Some?
  {
    dayOf(t.completedAt.value)
  }

  lemma CountsStep(s: seq<Todo>, dayOf: int -> int, n: int, dayCount: map<int, nat>)
    requires CountsOf(s, dayOf, n, dayCount) && n < |s|
    ensures s[n].completedAt.None? ==> CountsOf(s, dayOf, n + 1, dayCount)
    ensures s[n].completedAt.Some? ==>
      var d := DayKey(s[n], dayOf);
      CountsOf(s, dayOf, n + 1, dayCount[d := Lookup(dayCount, d) + 1])
  {
    var t := s[n];
    assert s[..n + 1] == s[..n] + [t];
    forall d ensures CountOn(s[..n + 1], dayOf, d) == CountOn(s[..n], dayOf, d) + (if CompletedOn(t, dayOf, d) then 1 else 0) {
      CountOnSnoc(s[..n], t, dayOf, d);
    }
  }

  /** Before the first task of a day that is not yet a key, no task was completed on it. */
  lemma NotSeenBefore(s: seq<Todo>, dayOf: int -> int, n: int, dayCount: map<int, nat>, d: int, j: int)
    requires CountsOf(s, dayOf, n, dayCount) && d !in dayCount && 0 <= j < n
    ensures !CompletedOn(s[j], dayOf, d)
  {
    assert s[..n][j] == s[j];
    CountOnHas(s[..n], dayOf, d);
  }

  /** A day that is already a key has a completion among the first `n` tasks. */
  lemma SeenBefore(s: seq<Todo>, dayOf: int -> int, n: int, dayCount: map<int, nat>, d: int) returns (j: int)
    requires CountsOf(s, dayOf, n, dayCount) && d in dayCount && dayCount[d] >= 1
    ensures 0 <= j < n && CompletedOn(s[j], dayOf, d)
  {
    CountOnHas(s[..n], dayOf, d);
    j :| 0 <= j < n && CompletedOn(s[..n][j], dayOf, d);
  }

  lemma OrderStep(s: seq<Todo>, dayOf: int -> int, n: int, keys: seq<int>, dayCount: map<int, nat>)
    requires Tabulates(s, dayOf, n, keys, dayCount) && n < |s|
    ensures s[n].completedAt.None? ==> FirstSeenOrder(s, dayOf, n + 1, keys)
    ensures s[n].completedAt.Some? ==>
      var d := DayKey(s[n], dayOf);
      FirstSeenOrder(s, dayOf, n + 1, if d in dayCount then keys else keys + [d])
  {
    var t := s[n];
    if t.completedAt.Some? {
      var d := DayKey(t, dayOf);
      var keys' := if d in dayCount then keys else keys + [d];
      forall a, b, j | 0 <= b <= a < |keys'| && 0 <= j < n + 1 && j < |s| && CompletedOn(s[j], dayOf, keys'[a])
        ensures SeenBy(s, dayOf, keys'[b], j)
      {
        if j < n {
          if a == |keys| {
            NotSeenBefore(s, dayOf, n, dayCount, d, j);
          }
          assert keys'[a] == keys[a] && keys'[b] == keys[b];
        } else if d in dayCount {
          assert keys'[a] == d && keys'[b] == keys[b];
          var j0 := SeenBefore(s, dayOf, n, dayCount, d);
          assert SeenBy(s, dayOf, keys[b], j0);
        } else if b == a {
          assert keys'[a] == keys'[b];
        } else {
          assert keys'[b] == keys[b] && keys[b] in dayCount;
          var j1 := SeenBefore(s, dayOf, n, dayCount, keys[b]);
        }
      }
    }
  }

  /** One step of the `forEach`: `dayCount[dateStr] = (dayCount[dateStr] || 0) + 1`. */
  lemma TabulateStep(s: seq<Todo>, dayOf: int -> int, n: int, keys: seq<int>, dayCount: map<int, nat>)
    requires Tabulates(s, dayOf, n, keys, dayCount) && n < |s|
    ensures s[n].completedAt.None? ==> Tabulates(s, dayOf, n + 1, keys, dayCount)
    ensures s[n].completedAt.Some? ==>
      var d := DayKey(s[n], dayOf);
      Tabulates(s, dayOf, n + 1, if d in dayCount then keys else keys + [d], dayCount[d := Lookup(dayCount, d) + 1])
  {
    CountsStep(s, dayOf, n, dayCount);
    OrderStep(s, dayOf, n, keys, dayCount);
    if s[n].completedAt.Some? {
      var d := DayKey(s[n], dayOf);
      var keys' := if d in dayCount then keys else keys + [d];
      var dayCount' := dayCount[d := Lookup(dayCount, d) + 1];
      assert KeysOf(keys', dayCount');
    }
  }

  /** The `forEach` that fills `dayCount`, with its keys in insertion order. */
  method CountByDay(s: seq<Todo>, dayOf: int -> int) returns (keys: seq<int>, dayCount: map<int, nat>)
    ensures Tabulates(s, dayOf, |s|, keys, dayCount)
  {
    keys, dayCount := [], map[];
    var i := 0;
    while i < |s|
      invariant Tabulates(s, dayOf, i, keys, dayCount)
    {
      TabulateStep(s, dayOf, i, keys, dayCount);
      var t := s[i];
      if t.completedAt.Some? {
        var d := DayKey(t, dayOf);
        if d !in dayCount {
          keys := keys + [d];
        }
        dayCount := dayCount[d := Lookup(dayCount, d) + 1];
      }
      i := i + 1;
    }
  }

  /**
   * The reduce over `Object.entries(dayCount)` from `{ date: '', count: 0 }`:
   * an entry replaces the best only when its count is strictly larger, so the
   * result is the first key, in order, with the largest count. The day is
   * never read while the count is 0.
   */
  method ReduceBest(keys: seq<int>, dayCount: map<int, nat>) returns (bestDay: int, bestCount: nat, ghost bestIdx: int)
    requires forall a :: 0 <= a < |keys| ==> keys[a] in dayCount
    ensures forall a :: 0 <= a < |keys| ==> dayCount[keys[a]] <= bestCount
    ensures bestCount > 0 ==> 0 <= bestIdx < |keys| && keys[bestIdx] == bestDay && dayCount[bestDay] == bestCount
    ensures bestCount > 0 ==> forall a :: 0 <= a < bestIdx ==> dayCount[keys[a]] < bestCount
    ensures bestCount == 0 ==> forall a :: 0 <= a < |keys| ==> dayCount[keys[a]] == 0
  {
    bestDay, bestCount, bestIdx := 0, 0, 0;
    var k := 0;
    while k < |keys|
      invariant 0 <= k <= |keys|
      invariant bestCount > 0 ==> 0 <= bestIdx < k && keys[bestIdx] == bestDay && dayCount[bestDay] == bestCount
      invariant forall a :: 0 <= a < k ==> dayCount[keys[a]] <= bestCount
      invariant bestCount > 0 ==> forall a :: 0 <= a < bestIdx ==> dayCount[keys[a]] < bestCount
    {
      var count := dayCount[keys[k]];
      if count > bestCount {
        bestDay, bestCount, bestIdx := keys[k], count, k;
      }
      k := k + 1;
    }
  }

  /** After the whole `forEach`, a key's entry is its day's number of completions. */
  lemma TableCount(s: seq<Todo>, dayOf: int -> int, keys: seq<int>, dayCount: map<int, nat>, d: int)
    requires Tabulates(s, dayOf, |s|, keys, dayCount)
    ensures Lookup(dayCount, d) == CountOn(s, dayOf, d)
    ensures d in dayCount <==> HasCompletionOn(s, dayOf, d)
  {
    assert s[..|s|] == s;
    CountOnHas(s, dayOf, d);
  }

  /** A count no smaller than every entry bounds every completion day's count. */
  lemma TableMax(s: seq<Todo>, dayOf: int -> int, keys: seq<int>, dayCount: map<int, nat>, bestCount: nat)
    requires Tabulates(s, dayOf, |s|, keys, dayCount)
    requires forall a :: 0 <= a < |keys| ==> Lookup(dayCount, keys[a]) <= bestCount
    ensures forall t :: t in s && t.completedAt.Some? ==> CountOn(s, dayOf, dayOf(t.completedAt.value)) <= bestCount
  {
    forall t | t in s && t.completedAt.Some?
      ensures CountOn(s, dayOf, dayOf(t.completedAt.value)) <= bestCount
    {
      var d := dayOf(t.completedAt.value);
      assert HasCompletionOn(s, dayOf, d) by {
        var j :| 0 <= j < |s| && s[j] == t;
      }
      TableCount(s, dayOf, keys, dayCount, d);
      var a :| 0 <= a < |keys| && keys[a] == d;
    }
  }

  /** The first key with the top count belongs to the day whose first completion is earliest. */
  lemma TableFirst(s: seq<Todo>, dayOf: int -> int, keys: seq<int>, dayCount: map<int, nat>, bestCount: nat, bestIdx: int)
    requires Tabulates(s, dayOf, |s|, keys, dayCount)
    requires 0 <= bestIdx < |keys| && Lookup(dayCount, keys[bestIdx]) == bestCount
    requires forall a :: 0 <= a < bestIdx ==> Lookup(dayCount, keys[a]) < bestCount
    ensures forall i :: 0 <= i < |s| && s[i].completedAt.Some? ==>
      (CountOn(s, dayOf, dayOf(s[i].completedAt.value)) == bestCount ==> SeenBy(s, dayOf, keys[bestIdx], i))
  {
    forall i | 0 <= i < |s| && s[i].completedAt.Some? && CountOn(s, dayOf, dayOf(s[i].completedAt.value)) == bestCount
      ensures SeenBy(s, dayOf, keys[bestIdx], i)
    {
      var d := dayOf(s[i].completedAt.value);
      assert HasCompletionOn(s, dayOf, d);
      TableCount(s, dayOf, keys, dayCount, d);
      var a :| 0 <= a < |keys| && keys[a] == d;
      assert bestIdx <= a;
    }
  }

  /** Every completion day is a key with a positive entry. */
  lemma TableHasKey(s: seq<Todo>, dayOf: int -> int, keys: seq<int>, dayCount: map<int, nat>)
    requires Tabulates(s, dayOf, |s|, keys, dayCount)
    ensures forall t :: t in s && t.completedAt.Some? ==>
      exists a :: 0 <= a < |keys| && keys[a] == dayOf(t.completedAt.value) && Lookup(dayCount, keys[a]) >= 1
  {
    forall t | t in s && t.completedAt.Some?
      ensures exists a :: 0 <= a < |keys| && keys[a] == dayOf(t.completedAt.value) && Lookup(dayCount, keys[a]) >= 1
    {
      var d := dayOf(t.completedAt.value);
      assert HasCompletionOn(s, dayOf, d) by {
        var j :| 0 <= j < |s| && s[j] == t;
      }
      TableCount(s, dayOf, keys, dayCount, d);
      assert d in keys;
      var a :| 0 <= a < |keys| && keys[a] == d;
    }
  }

  /** Without a positive entry no task has a completion time. */
  lemma TableEmpty(s: seq<Todo>, dayOf: int -> int, keys: seq<int>, dayCount: map<int, nat>)
    requires Tabulates(s, dayOf, |s|, keys, dayCount)
    requires forall a :: 0 <= a < |keys| ==> Lookup(dayCount, keys[a]) == 0
    ensures forall t :: t in s ==> t.completedAt.None?
  {
    TableHasKey(s, dayOf, keys, dayCount);
  }

  /**
   * `getBestProductivityDay`: null without completion times; otherwise a day
   * with the largest count, and of those the one whose first task comes first
   * in the input (the reduce over insertion-ordered keys replaces only on `>`).
   */
  method GetBestProductivityDay(completedTodos: seq<Todo>, dayOf: int -> int) returns (best: Option<BestDay>)
    ensures |completedTodos| == 0 ==> best == None
    ensures best.None? <==> forall t :: t in completedTodos ==> t.completedAt.None?
    ensures best.Some? ==>
      && HasCompletionOn(completedTodos, dayOf, best.value.day)
      && best.value.count == CountOn(completedTodos, dayOf, best.value.day)
    ensures best.Some? ==> forall t :: t in completedTodos && t.completedAt.Some? ==>
      CountOn(completedTodos, dayOf, dayOf(t.completedAt.value)) <= best.value.count
    ensures best.Some? ==> forall i :: 0 <= i < |completedTodos| && completedTodos[i].completedAt.Some? ==>
      (CountOn(completedTodos, dayOf, dayOf(completedTodos[i].completedAt.value)) == best.value.count ==>
         SeenBy(completedTodos, dayOf, best.value.day, i))
  {
    var s := completedTodos;
    if |s| == 0 {
      return None;
    }
    var keys, dayCount := CountByDay(s, dayOf);
    assert forall a :: 0 <= a < |keys| ==> keys[a] in dayCount by {
      forall a | 0 <= a < |keys|
        ensures keys[a] in dayCount
      {
        assert keys[a] in keys;
      }
    }
    var bestDay, bestCount, bestIdx := ReduceBest(keys, dayCount);
    if bestCount > 0 {
      best := Some(BestDay(bestDay, bestCount));
      TableCount(s, dayOf, keys, dayCount, bestDay);
      TableMax(s, dayOf, keys, dayCount, bestCount);
      TableFirst(s, dayOf, keys, dayCount, bestCount, bestIdx);
      assert exists t :: t in s && t.completedAt.Some? by {
        var j :| 0 <= j < |s| && CompletedOn(s[j], dayOf, bestDay);
        assert s[j] in s;
      }
    } else {
      best := None;
      TableEmpty(s, dayOf, keys, dayCount);
    }
  }
}
