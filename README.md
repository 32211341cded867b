# Smart Study Planner — task store model

This project models the core of the study planner's `study.js`: the in-memory
task list and the rules on top of it. The user adds a task, toggles its
completion or deletes it; each change is saved to the key-value store and the
views are re-rendered. The list can be filtered four ways (all, pending,
completed, overdue) and is shown sorted by due time. A statistics panel shows
counts and a rounded progress percentage. A timeline shows today's open tasks.
A sweep every 30 seconds fires a "due in 5 minutes" notice and an overdue
buzzer, each recorded by a sticky flag on the task.

Times are integer milliseconds. The current time `now` is a parameter. The
local calendar day of a timestamp is a function parameter `dayOf`. Task ids are
creation times and nothing assumes they are unique.

Modules:

- `Seqs` (`seqs.dfy`): the order-preserving filter behind `Array.prototype.filter`, and the subsequence relation.
- `Tasks` (`tasks.dfy`): the task record, the overdue test, `find` by id, the toggle and the removal by id.
- `Views` (`views.dfy`): the filters, the stable sort by due time, the list view, the side effect of rendering, the timeline and the statistics.
- `Reminders` (`reminders.dfy`): one sweep as functions over a task and over the list, and a task across successive sweeps.
- `Store` (`store.dfy`): class `TaskStore`. It holds the list, the selected filter and the last saved copy. Its methods are the user actions, the renders and the sweep loop.

Points where the code behaves differently from what its own comments, messages and names suggest; the model follows the code:

- The buzzer test is nested inside the `!task.reminded` guard (study.js:258, study.js:270). The comment "Task overdue - play buzzer" announces an alert for every overdue task. But a task that got its 5-minute notice never gets the buzzer. `Reminders.RemindedMissesBuzzer` shows this.
- The delete button belongs to one task, but `deleteTask` removes every task with that id (study.js:94).
- Under the `all` filter, `filterTasks` returns the stored array itself (study.js:118), and `renderTasks` sorts that array in place (study.js:138). Start-up therefore sorts the loaded list in memory (study.js:20-21), without saving it. Each save writes the in-memory order as it was before that action's render. Under `all`, after an add, that is the previous sorted order with the new task last. Under `all` the list is already sorted by the previous render, so toggle and delete leave its order as it is (`Views.SortSortedIsIdentity`).
- Ids come from `Date.now()` (study.js:52), so two tasks can share one. Nothing in the model assumes ids are unique.

## Model

| member | source | states |
|---|---|---|
| Seqs.Filter | study.js:112-116 | the filtered list is no longer than the input |
| Seqs.FilterMembers | study.js:112-116 | an element is kept exactly when it is in the input and satisfies the predicate |
| Seqs.FilterIsSubsequence | study.js:112-116 | a filtered list keeps the input's relative order |
| Seqs.AllKept | study.js:112-116 | a filter whose predicate holds on every element keeps the whole list |
| Seqs.NoneKept | study.js:112-116 | a filter whose predicate holds on no element keeps nothing |
| Tasks.NewTask | study.js:51-61 | a new task has id and creation time `now`, the given due time and title, is not completed and has neither alert flag |
| Tasks.IsOverdue | study.js:104-106 | a completed task is never overdue; an incomplete task is overdue exactly when its due time is strictly before `now` |
| Tasks.OverdueLater | study.js:104-106 | an overdue task stays overdue as the clock advances, and completing it clears the state |
| Tasks.FirstIndex | study.js:77 | finds the first index holding the id, or reports that no task has it |
| Tasks.ToggleFirst | study.js:76-79 | toggling flips `completed` on the first task with the id; its other fields, including both alert flags, and all other tasks are unchanged; an unknown id changes nothing |
| Tasks.ToggleTwice | study.js:76-79 | toggling the same id twice restores the list |
| Tasks.RemoveId | study.js:92-94 | deleting leaves no task with the id, keeps every task with another id, and keeps their relative order |
| Tasks.RemoveIdSpec | study.js:92-94 | deleting shortens the list by exactly the number of tasks with the id, and the kept and the removed tasks together are the original list |
| Tasks.FilterSplitId | study.js:94 | the kept tasks and the removed tasks together are the original list, as a multiset |
| Views.Select | study.js:109-120 | under `all` the selection is the list itself; otherwise a task is selected exactly when it is in the list and the filter lets it through (pending: incomplete and not past due; completed; overdue: incomplete and past due) |
| Views.ModeExclusive | study.js:104-116 | every task is exactly one of pending, completed or overdue |
| Views.FiltersCover | study.js:109-120 | the pending, completed and overdue lists together hold every task exactly as often as the list does |
| Views.FiltersDisjointOrdered | study.js:109-120 | no task is in two of those lists, and each keeps the list's order |
| Views.Insert | study.js:138 | insertion adds exactly one element |
| Views.InsertSorted | study.js:138 | insertion into a list sorted by due time keeps it sorted |
| Views.SortByDue | study.js:138 | the sort returns a permutation of its input in ascending due order |
| Views.SortStable | study.js:138 | tasks with equal due times keep their relative order |
| Views.SortSortedIsIdentity | study.js:138 | sorting a list already in due order leaves it unchanged |
| Views.SortIdempotent | study.js:138 | sorting twice gives the same list as sorting once |
| Views.ListView | study.js:125-138 | the list view is sorted by due time and is a permutation of the filter's selection |
| Views.ListViewContents | study.js:104-120 | a task is shown under `all` when it is in the list; under `pending` when it is incomplete and due at or after `now`; under `completed` when completed; under `overdue` when incomplete and due before `now` |
| Views.Rendered | study.js:118 | after rendering, the list under `all` is its own sorted permutation; under any other filter it is unchanged |
| Views.Timeline | study.js:196-217 | the timeline holds exactly the incomplete tasks due on today's calendar day, in ascending due order |
| Views.HalfUp | study.js:184 | the quotient rounded to the nearest integer, halves up |
| Views.Progress | study.js:184 | progress is 0 for an empty list, otherwise completed·100/total rounded half up, and never above 100 |
| Views.CountsAddUp | study.js:182-183 | the completed count plus the not-completed count is the total |
| Views.StatsOf | study.js:180-184 | total is the list length; completed + pending = total; progress lies in 0..100 and is the rounded ratio |
| Views.StatsCounts | study.js:182-183 | the completed statistic is the size of the completed list; the pending statistic is the number of incomplete tasks |
| Views.AllDoneIsFull | study.js:182-184 | a non-empty list whose tasks are all completed shows progress 100 |
| Views.NoneDoneIsEmpty | study.js:182-184 | a list with no completed task shows progress 0 |
| Views.PendingStatSplits | study.js:183 | the pending statistic is the size of the pending list plus the size of the overdue list |
| Views.ProgressPoints | study.js:184 | all completed gives 100, none gives 0, 3 of 4 gives 75, and 199 of 200 also gives 100 |
| Views.NewTaskViews | study.js:51-63 | a newly added task that is not yet due is shown under `all` and `pending` only; alone, it gives total 1, pending 1, progress 0 |
| Views.DeleteOnlyTask | study.js:92-94 | deleting the only task leaves total 0, completed 0, pending 0 and progress 0 |
| Reminders.SweepTask | study.js:258-275 | a sweep changes only the two flags; `reminded` becomes true exactly for incomplete tasks with 240000 < due − now ≤ 300000; `buzzerPlayed` becomes true exactly for incomplete, not-reminded tasks with −60000 < due − now < 0 |
| Reminders.TaskEvents | study.js:258-275 | a task fires at most one notice per sweep: the reminder exactly when its flag is newly set, the buzzer exactly when its flag is newly set, and nothing when the task is unchanged |
| Reminders.SweepAll | study.js:257-275 | a sweep never clears a flag and never changes completion, due time, any other field, length or order; it sets `reminded` exactly on incomplete, not-reminded tasks 4 to 5 minutes before due, and `buzzerPlayed` exactly on incomplete, not-reminded, not-buzzed tasks less than a minute past due |
| Reminders.SweepEvents | study.js:257 | a sweep fires no more notices than the list has tasks, and each notice is about a task of the list |
| Reminders.SweepNotices | study.js:257-275 | one sweep fires a reminder for exactly the incomplete, not-reminded tasks 4 to 5 minutes before due, and the buzzer for exactly the incomplete, not-reminded, not-buzzed tasks less than a minute past due |
| Reminders.SweepStep | study.js:257 | sweeping one more task extends the result and the notices |
| Reminders.SweepInPlace | study.js:257-265 | updating position `i` of a half-swept list advances the sweep by one task |
| Reminders.QuietSweep | study.js:254-278 | a sweep fires nothing exactly when it changes nothing |
| Reminders.QuietTasks | study.js:254-278 | a sweep fires nothing exactly when every task is left unchanged |
| Reminders.SweepIdempotent | study.js:254-278 | a second sweep at the same time fires nothing and changes nothing |
| Reminders.AtDueTime | study.js:263-270 | exactly at the due time neither notice fires |
| Reminders.TaskRun | study.js:312-315 | successive sweeps of one task fire no more notices than there are sweeps |
| Reminders.RemindedIsSilent | study.js:258 | once reminded, a task gets no further notice from any sweep, not even the buzzer |
| Reminders.BuzzedIsSilent | study.js:270 | once buzzed and past due, a task gets no further notice from later sweeps |
| Reminders.AtMostOneNotice | study.js:254-278 | with the clock moving forward, a task gets at most one notice over any number of sweeps |
| Reminders.NoticeScenarios | study.js:258-275 | a task first seen 4 min 30 s before due gets exactly one reminder and none later; 30 s overdue fires the buzzer; 90 s overdue fires nothing |
| Reminders.RemindedMissesBuzzer | study.js:258-275 | a task reminded 4 min 30 s before due and swept again 30 s after due gets no buzzer |
| Store.TaskStore.Init | study.js:6-11 | start-up loads the stored list, or an empty one when there is none, and the first render under `all` sorts it |
| Store.TaskStore.Save | study.js:14-16 | the store holds the current list |
| Store.TaskStore.RenderTasks | study.js:123-138 | the view is the sorted selection of the current filter; under `all` the stored list is replaced by its sorted permutation, otherwise it is untouched |
| Store.TaskStore.ChooseFilter | study.js:30-36 | selecting a filter records it and renders it |
| Store.TaskStore.Add | study.js:48-67 | the saved list is the old list with the new task last; in memory the render may then sort it |
| Store.TaskStore.Toggle | study.js:76-89 | the first task with the id is flipped, saved and rendered; an unknown id changes nothing; the success notice fires exactly when the task becomes completed |
| Store.TaskStore.Delete | study.js:92-101 | with confirmation every task with the id is removed, then the list is saved and rendered; without confirmation nothing changes |
| Store.TaskStore.UpdateStats | study.js:180-188 | the panel's counts add up to the list length, the completed count is the size of the completed list, progress lies in 0..100 and is 100 when every task of a non-empty list is completed |
| Store.TaskStore.RenderTimeline | study.js:196-217 | the timeline is today's incomplete tasks in due order, and the stored list is not touched |
| Store.TaskStore.CheckReminders | study.js:254-278 | the loop leaves the list as the sweep function says and returns the sweep's notices: a reminder for exactly the tasks in the reminder window and a buzzer for exactly the not-reminded tasks in the buzzer window; the store is saved whenever a notice fires |
| Store.TaskStore.CheckTask | study.js:258-275 | one task's step: both flag tests under the one guard; each flag set is saved immediately |

## Left out

- HTML built by `renderTasks`, `renderTimeline`, `showReminder` and `showToast`, and the `document` lookups. These are presentation only. The methods return the lists and notices those functions display.
- `localStorage` and JSON. The store is modelled as holding the list value, so a save followed by a load gives back the same list. Flags that JSON leaves out because they are `undefined` on a new task are modelled as `false`.
- `playBuzzer`. It drives the Web Audio API. A `Buzzer` notice stands for the tone and the overdue message.
- `setInterval`, `setTimeout` and toast lifetimes. A caller runs `CheckReminders` once at start-up and then every 30 seconds.
- `setMinDateTime`, date-string parsing, time zones and locale formatting. Due times are integers, and `dayOf` stands for truncation to local midnight. An unparsable date (`NaN` in JavaScript) is not modelled.
- The `confirm` dialog and the form fields. Delete takes the answer as a boolean, and Add takes the field values. The priority is one of three values. The duration is kept as the entered text.
- The filter buttons' `data-filter` string. The model has exactly four modes, and any unknown string would behave like `all`.
- Store.TaskStore.CheckReminders: assumes the tone always plays. In the source, `playBuzzer` creates a new `AudioContext` with no `try`/`catch` (study.js:236) and never closes it. If that constructor is missing or the browser refuses another context, the call throws at study.js:271. Then the overdue notice is not shown, `buzzerPlayed` is neither set nor saved, and the `forEach` stops, so the later tasks are not swept that round. The first sweep runs inside `init` (study.js:25, study.js:313). A throw there also ends `init`: the 30-second interval is never set (study.js:314), and the form and filter-button listeners are never attached (study.js:28-37). The model's sweep always reaches every task.
- Views.Progress: uses exact integer half-up rounding, not the floating-point `Math.round(completed / total * 100)`.
