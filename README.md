# CyberTask state logic in Dafny

A model of the state logic of CyberTask, a single-page task tracker. The model covers:

- The task record and its four priorities.
- The `useTodos` store and its five operations on the task list, each a spread, `map` or `filter` of the previous list, plus the `stats` record.
- The analytics panel: today's completions, average completion time, the per-priority breakdown, the day streak and the best day.
- The dashboard numbers: completion rate, the capped productivity score, and the status classifier.
- The filtered and sorted list the main view shows.
- The two forms: the new-task form and the per-row editor. They hold the only input validation in the program.

Modules follow the source files:

| module | file | form |
|---|---|---|
| `TodoTypes` | `todo_types.dfy` | datatypes for `Todo` and `Priority` |
| `UseTodos` | `use_todos.dfy` | pure list transforms plus the `TodoStore` class, with a `seq<Todo>` field the methods replace |
| `ProductivityInsights` | `productivity_insights.dfy` | functions for the filters and the average; methods with loops for `calculateStreak` and for `getBestProductivityDay`'s `forEach`/`reduce` |
| `TodoStats` | `todo_stats.dfy` | pure integer arithmetic |
| `App` | `app.dfy` | the filter switch and the comparator, a stable insertion sort, and the wiring of forms to store |
| `TodoInput` | `todo_input.dfy` | a `TaskForm` class with the `text`/`priority` state |
| `TodoItem` | `todo_item.dfy` | a `TaskEditor` class with the `isEditing`/`editText`/`editPriority` state |

Helper modules:

- `Wrappers`: `Option`.
- `Seqs`: `Array.prototype.filter` and its laws.
- `Strings`: `String.prototype.trim` over the ECMAScript white-space set.
- `JsMath`: `Math.round` and `Math.min` on exact integers.

Conventions:

- **Time.** Timestamps are integer milliseconds. "Now" is an explicit `now: int` parameter.
- **Calendar day.** The day a timestamp falls on (`toDateString` equality) is an uninterpreted `dayOf: int -> int`. "The day before" is `dayOf(now) - 1`, and so on.
- **Ids.** The fresh id of a new task is a caller-supplied parameter that must not already be in the list.
- **Rounding.** `Math.round(a / b)` with `b > 0` is modelled as `Round(a, b)`, the integer `r` with `2br <= 2a + b < 2br + 2b`, which is round half up.

Validation lives in the two forms, not in the store:

- `addTodo` only trims the text and `updateTodo` neither trims nor checks it.
- The two forms check the text: `TodoInput.TaskForm.HandleSubmit` and `TodoItem.TaskEditor.HandleSave`.
- `App.SubmitTask` and `App.SaveTaskEdit` compose each form with the store operation it is wired to. Their contracts show that text reaching the store through the user interface is non-blank and trimmed.

## Model

| member | source | states |
|---|---|---|
| TodoTypes.ParsePriority | src/types/todo.ts:5 | a priority literal is one of exactly four strings; parsing succeeds iff the string is one of them, and the parsed value prints back as that string |
| TodoTypes.PriorityNameRoundTrip | src/types/todo.ts:5 | every priority's literal parses back to it, and distinct priorities have distinct literals |
| UseTodos.NewTodo | src/hooks/useTodos.ts:31-38 | the new task has the given id, trimmed text, is not completed, has no completedAt, createdAt = now, priority defaults to medium; it is consistent and chronological |
| UseTodos.Added | src/hooks/useTodos.ts:39 | the new task is prepended: length grows by one and the old list is the tail unchanged |
| UseTodos.Toggled | src/hooks/useTodos.ts:42-54 | length and order kept; tasks with another id untouched; a matching task flips completed, gets completedAt = now when it becomes completed and none otherwise, other fields kept; absent id means no change |
| UseTodos.Deleted | src/hooks/useTodos.ts:56-58 | exactly the tasks with another id remain; the id no longer occurs; absent id means no change |
| UseTodos.Updated | src/hooks/useTodos.ts:60-66 | length kept; tasks with another id untouched; a matching task keeps id, completed, createdAt, completedAt, and takes the supplied text/priority verbatim (no trim, no check); absent id means no change |
| UseTodos.Cleared | src/hooks/useTodos.ts:68-70 | the result holds no completed task and holds every pending task of the input, and nothing else |
| UseTodos.StatsOf | src/hooks/useTodos.ts:72-77 | total is the list length, total = completed + pending, critical <= pending, completed = 0 iff no task is completed, critical = 0 iff no pending critical task |
| UseTodos.AddedKeepsInvariants | src/hooks/useTodos.ts:31-39 | with a fresh id, adding extends the id set by that id and keeps ids unique, completed/completedAt consistent and every completion time at or after its creation time |
| UseTodos.ToggledKeepsInvariants | src/hooks/useTodos.ts:42-54 | toggling keeps every id, keeps ids unique and every task consistent, and keeps every completion time at or after its creation time when the clock reading is not before the toggled task's creation time |
| UseTodos.ToggleTwice | src/hooks/useTodos.ts:47-49 | toggling twice restores every completed flag; a task that was completed gets the second time as completedAt, not its original one; with consistent tasks, a pending task comes back identical |
| UseTodos.DeletedOne | src/hooks/useTodos.ts:56-58 | with unique ids, deleting a present id shortens the list by exactly one |
| UseTodos.DeletedConcat | src/hooks/useTodos.ts:57 | deletion keeps relative order: it distributes over concatenation |
| UseTodos.FilterKeepsUniqueIds | src/hooks/useTodos.ts:57 | any filter of a list with unique ids has unique ids |
| UseTodos.UniqueTail | src/hooks/useTodos.ts:57 | the tail of a list with unique ids has unique ids, none equal to the head's |
| UseTodos.UniqueCons | src/hooks/useTodos.ts:39 | a task with a new id in front of a list with unique ids keeps ids unique |
| UseTodos.DeletedKeepsInvariants | src/hooks/useTodos.ts:56-58 | deleting keeps ids unique, tasks consistent and completion times at or after creation times |
| UseTodos.UpdatedText | src/hooks/useTodos.ts:60-66 | after an update that supplies a text, every task with the id carries exactly that text |
| UseTodos.UpdatedKeepsInvariants | src/hooks/useTodos.ts:60-66 | updating keeps every id, keeps ids unique, tasks consistent and completion times at or after creation times |
| UseTodos.ClearedKeepsInvariants | src/hooks/useTodos.ts:68-70 | clearing keeps ids unique, tasks consistent and completion times at or after creation times |
| UseTodos.ClearedProperties | src/hooks/useTodos.ts:68-70 | after clearing no task is completed, the pending count and the pending tasks in order are as before, and clearing twice is clearing once |
| UseTodos.ClearedConcat | src/hooks/useTodos.ts:69 | clearing keeps relative order: it distributes over concatenation |
| UseTodos.TodoStore.constructor | src/hooks/useTodos.ts:7 | the store starts with the empty list, which satisfies the store invariant |
| UseTodos.TodoStore.AddTodo | src/hooks/useTodos.ts:31-40 | the list becomes the added list; the id set grows by the fresh id; the invariant (unique ids, consistency, completion at or after creation) is kept |
| UseTodos.TodoStore.ToggleTodo | src/hooks/useTodos.ts:42-54 | with a clock reading not before the toggled task's creation time, the list becomes the toggled list and the invariant, including completion at or after creation, is kept |
| UseTodos.TodoStore.DeleteTodo | src/hooks/useTodos.ts:56-58 | the list becomes the list without the id; the invariant is kept |
| UseTodos.TodoStore.UpdateTodo | src/hooks/useTodos.ts:60-66 | the list becomes the updated list; the invariant is kept |
| UseTodos.TodoStore.ClearCompleted | src/hooks/useTodos.ts:68-70 | the list becomes the cleared list, whose completed count is 0; the invariant is kept |
| UseTodos.TodoStore.Stats | src/hooks/useTodos.ts:72-77 | the stats record of the current list: total is its length, total = completed + pending, critical <= pending, completed = 0 iff no task is completed |
| ProductivityInsights.CompletedTodos | src/components/ProductivityInsights.tsx:17 | exactly the completed tasks |
| ProductivityInsights.TodayCompleted | src/components/ProductivityInsights.tsx:18-20 | exactly the completed tasks with a completion time on today's day; no more than the completed tasks |
| ProductivityInsights.AvgCompletionTime | src/components/ProductivityInsights.tsx:22-29 | 0 with no completed task; otherwise the round-half-up of the total elapsed minutes over the number of completed tasks |
| ProductivityInsights.TotalElapsedIgnoresMissing | src/components/ProductivityInsights.tsx:23-28 | tasks without completedAt contribute nothing to the sum |
| ProductivityInsights.TotalElapsed | src/components/ProductivityInsights.tsx:23-28 | the reduce's sum in milliseconds; a list in which no task has completedAt sums to 0 |
| ProductivityInsights.AvgCountsTasksWithoutCompletionTime | src/components/ProductivityInsights.tsx:22-28 | a task done in 10 minutes and a completed task without completedAt average to 5: the divisor counts the task that added nothing |
| ProductivityInsights.AvgNonNegative | src/components/ProductivityInsights.tsx:22-29 | with every completion after its creation, the average is not negative |
| ProductivityInsights.TotalElapsedNonNegative | src/components/ProductivityInsights.tsx:23-28 | with every completion after its creation, the elapsed sum is not negative |
| ProductivityInsights.PriorityBreakdown | src/components/ProductivityInsights.tsx:31-36 | the four per-priority counts of completed tasks add up to the number of completed tasks |
| ProductivityInsights.BreakdownSum | src/components/ProductivityInsights.tsx:31-36 | the four priority filters of completed tasks partition the completed tasks |
| ProductivityInsights.CalculateStreak | src/components/ProductivityInsights.tsx:143-165 | the streak is at most 30 and 0 for an empty input; every one of the last `streak` days up to today has a completion; below the cap the day before them has none; it is 0 iff today has no completion |
| ProductivityInsights.CountOnSnoc | src/components/ProductivityInsights.tsx:175 | appending a task raises a day's count by one exactly when that task was completed on it |
| ProductivityInsights.CountOnHas | src/components/ProductivityInsights.tsx:172-177 | a day's count is positive iff some task was completed on that day |
| ProductivityInsights.CountsStep | src/components/ProductivityInsights.tsx:173-176 | one `forEach` step keeps the table equal to the per-day counts of the prefix read so far |
| ProductivityInsights.NotSeenBefore | src/components/ProductivityInsights.tsx:172-177 | a day absent from the table had no completion in the prefix read so far |
| ProductivityInsights.SeenBefore | src/components/ProductivityInsights.tsx:172-177 | a day in the table had a completion in the prefix read so far, at the returned index |
| ProductivityInsights.OrderStep | src/components/ProductivityInsights.tsx:172-177 | one `forEach` step keeps the keys in order of each day's first completion |
| ProductivityInsights.TabulateStep | src/components/ProductivityInsights.tsx:172-177 | one `forEach` step keeps the whole table invariant: keys, counts and first-seen order |
| ProductivityInsights.CountByDay | src/components/ProductivityInsights.tsx:170-177 | the table's keys are the completion days in order of first appearance, each mapped to its number of completions |
| ProductivityInsights.ReduceBest | src/components/ProductivityInsights.tsx:179-181 | the reduce with strict `>`: the result count bounds every entry; when positive it is the entry of the returned key, and every earlier key has a strictly smaller entry; when 0 every entry is 0 |
| ProductivityInsights.TableCount | src/components/ProductivityInsights.tsx:172-177 | after the whole `forEach`, an entry is its day's number of completions, and a day is a key iff it has a completion |
| ProductivityInsights.TableMax | src/components/ProductivityInsights.tsx:179-181 | a count that bounds every entry bounds every completion day's count |
| ProductivityInsights.TableFirst | src/components/ProductivityInsights.tsx:179-181 | the first key with the top count is the day whose first completion comes no later than that of any day with the same count |
| ProductivityInsights.TableHasKey | src/components/ProductivityInsights.tsx:173-176 | every completion day is a key with a positive entry |
| ProductivityInsights.TableEmpty | src/components/ProductivityInsights.tsx:183 | without a positive entry no task has a completion time |
| ProductivityInsights.GetBestProductivityDay | src/components/ProductivityInsights.tsx:167-184 | null for an empty input and iff no task has completedAt; otherwise a day with a completion whose count is its true count and at least every other day's; among days with the top count it is the one whose first completion comes earliest |
| TodoStats.CompletionRate | src/components/TodoStats.tsx:14 | 0 when there are no tasks; otherwise the round-half-up of 100·completed/total; in 0..100 when completed <= total |
| TodoStats.Productivity | src/components/TodoStats.tsx:15 | at most 100 and at least the completion rate; below 100 it equals rate + 5·completed, and it is 100 iff that sum reaches 100 |
| TodoStats.GetSystemStatus | src/components/TodoStats.tsx:17-22 | OPTIMAL iff rate >= 90, STABLE iff 70 <= rate < 90, MODERATE iff 50 <= rate < 70, CRITICAL iff rate < 50; it pulses iff OPTIMAL or CRITICAL |
| TodoStats.StatusMonotone | src/components/TodoStats.tsx:17-22 | a higher rate never gives a worse status |
| JsMath.Round | src/components/TodoStats.tsx:14 | `Math.round(a / b)` for b > 0: the integer nearest to a/b, halves rounded up |
| JsMath.RoundMonotone | src/components/TodoStats.tsx:14 | rounding is monotone in the numerator |
| JsMath.RoundNonNegative | src/components/ProductivityInsights.tsx:22-29 | rounding a non-negative quotient gives a non-negative integer |
| JsMath.RoundExact | src/components/TodoStats.tsx:14 | rounding an exact multiple gives the exact quotient |
| JsMath.Min | src/components/TodoStats.tsx:15 | `Math.min`: one of the two arguments, and at most both |
| Seqs.Filter | src/hooks/useTodos.ts:74-76 | `Array.prototype.filter`: exactly the elements satisfying the predicate, a sub-multiset, no longer than the input, and the input itself when every element passes |
| Seqs.FilterConcat | src/App.tsx:18-20 | filtering keeps relative order: it distributes over concatenation |
| Seqs.FilterIdempotent | src/hooks/useTodos.ts:69 | filtering twice with one predicate is filtering once |
| Seqs.FilterWeaker | src/hooks/useTodos.ts:75-76 | a predicate implied by another keeps at least as many elements |
| Seqs.FilterSplit | src/hooks/useTodos.ts:74-75 | complementary predicates split the list: the two counts add up to its length |
| Seqs.FilterDisjointUnion | src/components/ProductivityInsights.tsx:31-36 | a predicate that holds exactly when one of two exclusive ones does keeps as many elements as the two together |
| Seqs.FilterEmpty | src/hooks/useTodos.ts:74 | the filter is empty iff no element satisfies the predicate |
| Strings.Lead | src/hooks/useTodos.ts:34 | the length of the leading white space: everything before it is white space and the next character is not |
| Strings.TrailEnd | src/hooks/useTodos.ts:34 | where the trailing white space begins, not left of the given bound: everything from it on is white space and the character before it (above the bound) is not |
| Strings.Trim | src/hooks/useTodos.ts:34 | `String.prototype.trim`: the slice of the input between its leading and its trailing white space, with no white space at its ends; empty iff the input is blank |
| Strings.TrimIdempotent | src/components/TodoItem.tsx:19 | trimming a trimmed string changes nothing |
| TodoInput.SubmitDisabled | src/components/TodoInput.tsx:58 | the submit button is disabled iff the text is only white space |
| TodoInput.TaskForm.constructor | src/components/TodoInput.tsx:10-11 | the form starts with text "" and priority medium |
| TodoInput.TaskForm.SetText | src/components/TodoInput.tsx:38 | typing replaces the text and leaves the priority |
| TodoInput.TaskForm.SetPriority | src/components/TodoInput.tsx:47 | choosing replaces the priority and leaves the text |
| TodoInput.TaskForm.HandleSubmit | src/components/TodoInput.tsx:13-20 | nothing is sent iff the text is blank, and then the state is unchanged; otherwise the untrimmed text and the current priority are sent and the form resets to "" and medium |
| TodoItem.TaskEditor.constructor | src/components/TodoItem.tsx:13-15 | the editor starts not editing, with the edit fields equal to the task's text and priority |
| TodoItem.TaskEditor.ReceiveTodo | src/components/TodoItem.tsx:12-15 | a new task prop leaves the editor's state cells as they were |
| TodoItem.TaskEditor.StartEditing | src/components/TodoItem.tsx:128 | the edit button turns editing on and changes nothing else |
| TodoItem.TaskEditor.SetEditText | src/components/TodoItem.tsx:76 | typing replaces the edit text only |
| TodoItem.TaskEditor.SetEditPriority | src/components/TodoItem.tsx:86 | choosing replaces the edit priority only |
| TodoItem.TaskEditor.HandleSave | src/components/TodoItem.tsx:17-22 | nothing is sent iff the edit text is blank, and then editing goes on; otherwise the task's id with the trimmed text and the chosen priority is sent and editing ends |
| TodoItem.TaskEditor.HandleCancel | src/components/TodoItem.tsx:24-28 | the edit fields return to the task's text and priority, editing ends, nothing is sent |
| TodoItem.TaskEditor.HandleKeyDown | src/components/TodoItem.tsx:78-81 | Enter behaves as save, Escape as cancel, and any other key changes nothing |
| App.FilteredTodos | src/App.tsx:15-24 | 'all' is the identity, 'active' keeps exactly the incomplete tasks, 'completed' exactly the completed ones; each is a sub-multiset of the list |
| App.ActiveIsCleared | src/App.tsx:17-18 | the active view is what clearing the completed tasks would keep |
| App.ActiveCompletedPartition | src/App.tsx:17-20 | the active and completed views split the list, with the sizes the stats record reports as pending and completed |
| App.FilteredConcat | src/App.tsx:15-24 | every view keeps relative order: it distributes over concatenation |
| App.PriorityOrder | src/App.tsx:34 | ranks 0..3 with critical alone at 0 |
| App.PriorityOrderInjective | src/App.tsx:34-35 | two priorities have the same rank iff they are equal |
| App.PrecedesMeaning | src/App.tsx:27-41 | the comparator is non-positive iff a is pending and b completed, or same status and a's priority ranks higher, or same status and priority and a is not older |
| App.Compare | src/App.tsx:27-41 | the comparator given to `sort`: between a pending and a completed task it is negative exactly when a is the pending one; at equal status and different priority it is negative exactly when a ranks higher; it is 0 exactly when status, priority and creation time all agree |
| App.CompareAntisymmetric | src/App.tsx:27-41 | swapping the comparator's arguments negates its result |
| App.PrecedesTotal | src/App.tsx:27-41 | any two tasks are ordered one way or the other |
| App.PrecedesTransitive | src/App.tsx:27-41 | the order the comparator induces is transitive |
| App.SortedCons | src/App.tsx:27 | a task that may precede every task of a sorted list keeps it sorted when put in front |
| App.Insert | src/App.tsx:27 | inserting into a sorted list gives a sorted list with exactly one more element, the inserted one |
| App.SortedTodos | src/App.tsx:26-42 | the sorted list is in comparator order and a permutation of its input |
| App.SortedOrder | src/App.tsx:29-40 | in the output every incomplete task precedes every completed one; within one status priorities go critical, high, medium, low; within one status and priority newest first |
| App.SortedTodosOfSorted | src/App.tsx:26-42 | a list already in comparator order is returned unchanged |
| App.SortedTodosIdempotent | src/App.tsx:26-42 | sorting twice is sorting once |
| App.Visible | src/App.tsx:15-42 | the displayed list is sorted and a permutation of the filtered list; under 'active' and 'completed' it holds exactly the tasks of that status |
| App.SubmitTask | src/App.tsx:101 | a blank form leaves store and form unchanged; otherwise the store gets the added task and the form resets, and the stored text is non-blank and trimmed; the store invariant is kept |
| App.SaveTaskEdit | src/App.tsx:142 | editText and editPriority keep their values; a blank edit leaves the store unchanged; otherwise the store gets the update with the trimmed text and the chosen priority, editing ends, and the stored text of the task is non-blank and trimmed; the store invariant is kept |

## Left out

- Persistence: loading from and saving to `localStorage`, JSON parsing and the rehydration of dates (src/hooks/useTodos.ts:9-29). These are browser I/O and a foreign serialiser. Nothing re-checks the completed/completedAt relation on load. The store invariant therefore covers only lists built by the modelled operations, starting from the empty list.
- `crypto.randomUUID()` (src/hooks/useTodos.ts:33) is a foreign call. The id is a parameter that must not already be in the list.
- `new Date()`, `toDateString`, `setDate` and time zones are the ambient clock and calendar. They become `now` and `dayOf`. The best day's display string is its `dayOf` number.
- Floating point: the model divides exact integers. These are the places where the source uses floats:
  - the minute sum in the average (src/components/ProductivityInsights.tsx:25);
  - `(completed / total) * 100` (src/components/TodoStats.tsx:14).

  Where a float result lands next to a .5 boundary, the program can round differently from the exact value.
- The progress-bar widths, colours, icons, JSX layout, `src/components/TodoFilters.tsx` (presentation only) and `tailwind.config.js` are not part of this model.
- UseTodos.Updated: an `updates` object that holds an explicit `undefined` field would overwrite that field with `undefined`. The model's `Updates` has only "absent" or "present with a value", so it does not model this. Neither form ever sends such an object.
- App.SortedTodos: stability is not stated as a contract. The model's insertion sort is stable, like `Array.prototype.sort`. Tasks that compare equal (same status, priority and creation time) keep their order, but no lemma says so.
- UseTodos.TodoStore.ToggleTodo: requires the clock reading to be no earlier than the creation time of the task being toggled. The code reads the wall clock, which could in principle be set back; the model does not represent a clock running behind, and under one the completion-after-creation part of the store invariant would not hold.
- The React render cycle is not modelled: batching of state updates, effect ordering, re-mounting of rows. Each handler is one atomic method call.
