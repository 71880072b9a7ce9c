# Task store of a browser to-do list, in Dafny

The page keeps two pieces of global state: a list of task records and an id
counter. It changes them with five operations. Initialisation either seeds
two sample tasks or adopts a loaded list. Add appends a task. Toggle flips a
task's completion. Delete filters tasks out. Edit finds a task, hands its
fields to the form and deletes it. After every change the page redraws a set
of derived views: a progress percentage, three counters, two panels with the
first three incomplete tasks, and a full list narrowed by a filter select.

The model has three modules:

- `Tasks` (`tasks.dfy`) holds the task record. Priority and status are
  datatypes. Id, title, description, date and time are plain values. The
  module defines the store's three invariants:
  - ids are pairwise distinct (`UniqueIds`);
  - the counter is above every id (`Below`);
  - the status mirrors the completed flag (`AllMirrored`).
  It also defines the list operations the page takes from JavaScript: a
  filter, find-by-id (as an index) and the largest id.
- `Views` (`views.dfy`) holds the derived views as pure functions of the list.
- `Store` (`store.dfy`) holds each operation's effect as a pure function on
  the list (`ToggleFirst`, `Without`, `NewTask`, `Seed`), the lemmas about
  those functions, and the class `TaskStore`. The class has the fields
  `tasks` and `counter`. Its methods perform the updates and state the new
  state in terms of the functions. Each method keeps `Valid()`, the
  conjunction of the three invariants.

Behaviour the code has that a reader might not expect:

- Initialisation adopts a loaded list without checking it. The model
  therefore proves two things separately. The counter always ends above
  every id. `Valid()` holds when the loaded list already had unique ids and
  mirrored statuses.
- A new task's id is the counter, not "the largest id plus one". The two
  agree right after initialisation. They drift apart once the task with the
  largest id is deleted, because delete never lowers the counter
  (`DeleteLargestKeepsCounter`).
- Toggling twice restores a task only when its status already mirrored its
  flag. The toggle recomputes the status from the new flag, so it repairs a
  status that was out of step.
- The percentage is `Math.round`. For fewer than 200 tasks it reads 100
  exactly when every task is completed. From 200 tasks on, a single pending
  task rounds away and the bar shows 100 (`ProgressRoundsUpWithOnePending`).
- Edit followed by a form submit does not restore the task. The form carries
  no description and no completion, and the re-added task gets a new id
  (`EditResubmit`).

## Model

| member | source | states |
|---|---|---|
| `Tasks.StatusOf` | script.js:89 | the status is `Completed` exactly when the flag is set |
| `Tasks.Filter` | script.js:96 | the result holds exactly the elements that satisfy the predicate, and is no longer than the input |
| `Tasks.FilterAppend` | script.js:96 | filtering a concatenation gives the concatenation of the filtered parts, so relative order is kept |
| `Tasks.FindIndex` | script.js:86 | returns the index of the first task with the id, or `None` exactly when no task has it |
| `Tasks.MaxId` | script.js:36 | the result is the id of some task and at least every id in the list |
| `Views.Incomplete` | script.js:114 | keeps exactly the tasks that are not completed |
| `Views.Done` | script.js:113 | keeps exactly the completed tasks |
| `Views.HighPriority` | script.js:115 | keeps exactly the tasks of priority high |
| `Views.HighPriorityCount` | script.js:115 | the high-priority count is at most the number of tasks |
| `Views.CompletedCount` | script.js:113 | the number of completed tasks; its meaning comes from `Done` and `CountsPartition` |
| `Views.PendingCount` | script.js:114 | the number of incomplete tasks; its meaning comes from `Incomplete` and `CountsPartition` |
| `Views.CountsPartition` | script.js:113-114 | the completed count plus the pending count is the number of tasks |
| `Views.RoundPercent` | script.js:106 | the nearest integer to 100·completed/total with halves rounded up, which lies in 0..100 |
| `Views.RoundPercentHundred` | script.js:106 | the rounded percentage is 100 if and only if at least 99.5% of the tasks are completed |
| `Views.Progress` | script.js:103-106 | the percentage is at most 100, and 0 for an empty list |
| `Views.ProgressAllDone` | script.js:103-106 | a non-empty list whose tasks are all completed shows 100 |
| `Views.ProgressHundredIff` | script.js:103-106 | with 1 to 199 tasks, 100 is shown if and only if every task is completed |
| `Views.ProgressRoundsUpWithOnePending` | script.js:103-106 | with 200 or more tasks and exactly one pending, 100 is shown although a task is pending |
| `Views.ProgressHalf` | script.js:103-106 | any two-task list with exactly one completed task shows 50 |
| `Views.Take` | script.js:123 | `slice(0, n)` gives the first min(n, length) elements as a prefix |
| `Views.FirstIncomplete` | script.js:149 | the focus panel, the same expression as the active panel at line 123; its meaning comes from `FirstIncompleteShape` |
| `Views.FirstIncompleteShape` | script.js:123 | the panel holds min(3, #incomplete) tasks, all incomplete, and is a prefix of the incomplete tasks in insertion order |
| `Views.Selects` | script.js:173-177 | the predicate each filter value applies, with `true` for any other value; used by `FilteredTasksMembers` and `FilteredTasksSingle` |
| `Views.FilteredTasks` | script.js:172-177 | the full list narrowed by the filter value; its meaning comes from `FilteredTasksMembers`, `FilteredTasksOther`, `FilteredTasksOrder` and `FilteredTasksSingle` |
| `Views.FilteredTasksMembers` | script.js:172-177 | the filtered list holds exactly the tasks the filter value selects |
| `Views.FilteredTasksOther` | script.js:172 | a value other than pending, completed or high gives the whole list |
| `Views.FilteredTasksOrder` | script.js:172-177 | the filtered list of a concatenation is the concatenation of the filtered lists, so insertion order is kept |
| `Views.FilteredTasksSingle` | script.js:172-177 | a single task is kept exactly when the filter selects it |
| `Store.NewTask` | script.js:70-79 | the record add builds; its meaning comes from `AddWellFormed` and `TaskStore.AddTask` |
| `Store.Seed` | script.js:11-32 | two tasks with ids 1 and 2, both pending and not completed, each with its own clock date, well formed under counter 3 |
| `Store.Flip` | script.js:88-89 | the flag is negated, the status mirrors the new flag, and every other field is unchanged |
| `Store.FlipTwice` | script.js:88-89 | flipping twice restores a task whose status mirrored its flag |
| `Store.ToggleFirst` | script.js:86-89 | the list after toggling the first task with the id; its meaning comes from `ToggleFirstShape`, `ToggleAbsent`, `ToggleTwice` and `ToggleWellFormed` |
| `Store.ToggleFirstShape` | script.js:85-93 | only the first task with the id is flipped; the length, the ids and the other tasks are unchanged |
| `Store.ToggleAbsent` | script.js:86-87 | an id no task carries leaves the list unchanged |
| `Store.ToggleTwice` | script.js:85-93 | toggling the same id twice restores a list whose statuses mirrored the flags |
| `Store.ToggleWellFormed` | script.js:85-93 | toggling keeps the ids unique, below the counter, and the statuses mirrored |
| `Store.Without` | script.js:96 | the list after delete; its meaning comes from `WithoutMembers`, `WithoutOrder`, `WithoutAbsent`, `WithoutPresent` and `WithoutWellFormed` |
| `Store.WithoutMembers` | script.js:96 | delete keeps exactly the tasks whose id differs |
| `Store.WithoutOrder` | script.js:96 | delete keeps the remaining tasks in their original relative order |
| `Store.WithoutAbsent` | script.js:96 | deleting an absent id leaves the list unchanged |
| `Store.WithoutPresent` | script.js:96 | with unique ids, deleting a present id removes exactly one task |
| `Store.WithoutWellFormed` | script.js:96 | delete keeps the three invariants under the unchanged counter |
| `Store.AddWellFormed` | script.js:69-80 | appending a task with the counter as its id keeps the three invariants once the counter moves up by one |
| `Store.FormDataOf` | script.js:227-244 | what the form carries from an edit to the next submit: title, date, time and priority, and no description; used by `EditResubmit` |
| `Store.DeleteLargestKeepsCounter` | script.js:95-96 | after seeding and deleting task 2, the largest id plus one is 2, the list is still well formed under counter 3, and the next task gets id 3 |
| `Store.EditResubmit` | script.js:224-246 | edit then submit gives a list of the same length at the end of which is a fresh-id, pending task with the old title, priority, date and time and an empty description; the invariants hold |
| `Store.TaskStore.constructor` | script.js:2-3 | the store starts with no tasks and counter 1 |
| `Store.TaskStore.Initialize` | script.js:6-37 | an empty loaded list seeds the two sample tasks with counter 3; otherwise the loaded list is kept and the counter is its largest id plus one; the counter is always above every id; the invariants hold when the loaded list had them |
| `Store.TaskStore.AddTask` | script.js:69-83 | one task is appended and the earlier ones are kept; its id is the old counter; the counter goes up by one; the task is pending and not completed; its description defaults to empty; the invariants are kept |
| `Store.TaskStore.ToggleTaskComplete` | script.js:85-93 | the new list is the first match flipped; the counter is unchanged; an absent id changes nothing; the invariants are kept |
| `Store.TaskStore.DeleteTask` | script.js:95-99 | the new list is the old one without the id; the counter is unchanged; an absent id changes nothing; the invariants are kept |
| `Store.TaskStore.EditTask` | script.js:224-233 | returns the first task with the id, as `find` does, or nothing exactly when no task has it, and deletes every task with the id; the counter is unchanged; the invariants are kept |

## Left out

- Markup: the HTML strings, the `innerHTML` and `textContent` writes, and
  the progress-bar width are presentation only. The model stops at the
  sequences and numbers they are built from.
- The form fields that edit fills in are DOM writes. `EditTask` returns the
  found task instead, and `FormDataOf` models what the form sends back.
- The submit listener and the theme toggle are event and DOM wiring. The
  form's output is simply the argument of `AddTask`.
- `saveTasks` only logs to the console and `getTasks` returns the in-memory
  list, so neither is modelled. `Initialize` takes the loaded list as a
  parameter. With this code the list is empty on page load, so the seed
  branch is the one taken.
- The seed dates come from the clock, read once per task, and are the
  parameters `firstDate` and `secondDate`.
- Export, import, clear-all and browser-storage persistence are described
  for this program but are not in its code, so they are not part of this
  model. Neither is the fallback to an empty store when loading fails.
- Priority is a three-valued datatype. The full list's filter is kept as a
  string, so any value other than the three named ones is covered.
- `Views.RoundPercent`: the source's floating-point division is not
  modelled; the model uses the exact ratio. The two can differ only when
  100·completed/total is exactly an integer plus one half, where the double
  result may land just below it: for 23 of 40 tasks the source computes
  57.49999999999999 and shows 57, the model shows 58.
- Records are values: the source flips a shared task object in place. No
  other reference to that object exists in this code, so nothing observable
  is lost.
- Ids are natural numbers. The model does not cover loaded records with
  missing, negative or non-numeric ids, or non-boolean flags.
