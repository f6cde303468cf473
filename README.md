# Schedulr task store, modelled in Dafny

Schedulr is a single-page task scheduler. Its logic lives in `app.js`: a
global `tasks` array of task records and a global `analytics` object. The
page's handlers add a task from a form, toggle a task between pending and
completed, and delete a task after the user confirms. They also render the
tasks sorted by due date, count the tasks by status for the dashboard and
the pie chart, and compute a completion rate, a productivity score and a
streak. This project models that store and the statistics derived from it,
and proves what they guarantee.

Layout, one module per file:

- `task_model.dfy` (`TaskModel`): the task record, its status, clock values
  and the whitespace trimming of `String.prototype.trim`.
- `task_list.dfy` (`TaskList`): lookup by id, the task built from the form,
  and the task sequences left by a toggle and by a delete, as pure functions.
- `task_sort.dfy` (`TaskSort`): the list view. It is a stable sort by due
  date, shown to be the only result a stable sort can give.
- `task_stats.dfy` (`TaskStats`): `filter(...).length` counts, the dashboard
  and chart numbers, the analytics, `isWithinLastWeek` and `isOverdue`, and
  how each operation changes the counts.
- `sample_data.dfy` (`SampleData`): the five start-up tasks and their
  statistics.
- `app.dfy` (`App`): class `TaskStore` holds `tasks` and `analytics`. Its
  methods do what the page's handlers do, and each is proved against the
  pure functions above.

Modelling choices:

- A clock value is an integer number of milliseconds since the Unix epoch.
- A due date `YYYY-MM-DD` is the millisecond value of that day's UTC
  midnight, which is what `new Date('YYYY-MM-DD')` gives.
- The due-date form field is an `Option`. `None` stands for the empty
  string, which is all the date input yields when nothing valid is entered.
- "Now", the new task's id and the answer to the `confirm()` dialog are
  parameters.
- The source only ever writes the statuses `'pending'` and `'completed'`,
  so status is a two-valued datatype. Completed plus pending therefore
  always equals the total.
- `AddTask`, `ToggleTaskStatus` and `DeleteTask` return an `Outcome`. The
  page itself shows a notification, logs to the console, or, for a declined
  delete confirmation, does nothing at all (app.js:376 has no else branch).
  The `Outcome` names the path taken; `Declined` stands for the silent one.

Behaviours of the code worth noting:

- A delete removes every task with the id, because it is a `filter`
  (app.js:378). With unique ids that is exactly one task
  (`TaskList.WithoutIdRemovesOne`).
- A toggle changes only the first task with the id, because it uses
  `findIndex` (app.js:334).
- The productivity score compares a task's creation time with its due date,
  not its completion time (app.js:176).
- The store's invariant `App.TaskStore.Valid` says every stored title is
  non-empty and already trimmed. The add-task form and `loadSampleData` are
  the only writers of titles: the form trims them, and the sample titles
  carry no surrounding whitespace.

## Model

| member | source | states |
|---|---|---|
| TaskModel.Flip | app.js:341-344 | a toggle always changes the status: a pending task becomes completed and a completed one becomes pending |
| TaskModel.TrimStart | app.js:108-109 | the result never starts with JavaScript whitespace and is no longer than the input |
| TaskModel.TrimEnd | app.js:108-109 | the result never ends with JavaScript whitespace and is no longer than the input |
| TaskModel.TrimStartDrops | app.js:108-109 | trimming the start keeps a suffix of the input and drops only whitespace |
| TaskModel.TrimEndDrops | app.js:108-109 | trimming the end keeps a prefix of the input and drops only whitespace |
| TaskModel.Trim | app.js:108-109 | the trimmed title or description has no whitespace at either end |
| TaskModel.TrimEmptyIff | app.js:108-113 | a title trims to the empty string, and so fails the required-field check, exactly when it is all whitespace |
| TaskModel.TrimDrops | app.js:108-109 | the trim is the slice of the input between its leading and trailing whitespace, and those are all it removes |
| TaskModel.TrimKeepsTrimmed | app.js:108 | a string with no whitespace at either end is its own trim |
| TaskModel.TrimIdempotent | app.js:108 | trimming an already trimmed string changes nothing |
| TaskList.FindIndex | app.js:334-335 | gives -1 exactly when no task has the id; otherwise the first position holding that id |
| TaskList.BuildTask | app.js:108-126 | rejected exactly when the trimmed title is empty or the due date is missing; otherwise a pending, never-updated task with the trimmed title and description, the given due date, id and creation time, whose title is non-empty and already trimmed |
| TaskList.Toggled | app.js:334-345 | same length; an unknown id changes nothing; otherwise only the first task with the id changes: its status flips and updatedAt becomes now; ids and titles are kept |
| TaskList.WithoutId | app.js:378 | keeps exactly the tasks whose id differs, removes at least one task when the id is present, and changes nothing when it is absent |
| TaskList.WithoutIdAppend | app.js:378 | the filter distributes over concatenation, so the kept tasks keep their relative order |
| TaskList.WithoutIdRemovesOne | app.js:369-378 | with unique ids, deleting a present id removes exactly one task |
| TaskList.AppendFreshKeepsUnique | app.js:119-129 | appending a task whose id is not present keeps the ids unique |
| TaskList.ToggledKeepsUnique | app.js:340-345 | toggling keeps the ids unique |
| TaskList.WithoutIdKeepsUnique | app.js:378 | deleting keeps the ids unique |
| TaskList.ToggleTwice | app.js:331-345 | toggling the same id twice restores every status; only the first matching task keeps a trace, its updatedAt from the second toggle; an unknown id changes nothing |
| TaskSort.InsertByDue | app.js:266 | inserting one task into a due-date-sorted list keeps it sorted and adds exactly that task |
| TaskSort.SortByDue | app.js:266 | the list view is sorted by non-decreasing due date and is a permutation of the tasks |
| TaskSort.SortStable | app.js:266 | for every due date, the tasks due then appear in the view in stored order, as a stable sort requires |
| TaskSort.SortedAgreeingEqual | app.js:266 | two sorted lists that hold the same tasks, in the same order, for every due date are equal |
| TaskSort.StableSortUnique | app.js:266 | every sorted, stable arrangement of the tasks equals the model's view, so the view is what the stable sort produces |
| TaskStats.Count | app.js:153 | a filter's length is at most the list length and is 0 exactly when no task passes the filter |
| TaskStats.CountAppend | app.js:152-154 | counting over two lists joined together gives the sum of the two counts |
| TaskStats.CountUpdate | app.js:344-345 | replacing one task changes a count by that task's old and new votes only |
| TaskStats.CountImplies | app.js:174-177 | a filter that accepts everything another accepts counts at least as many tasks |
| TaskStats.CountWithoutId | app.js:378 | with unique ids, a delete lowers each count by the vote of the one task removed |
| TaskStats.StatusPartition | app.js:152-154 | completed plus pending equals the total |
| TaskStats.Dashboard | app.js:152-154 | the dashboard's total is the task count and equals completed plus pending |
| TaskStats.ChartData | app.js:407-414 | the chart data is [completed, pending], the dashboard's split, summing to the total |
| TaskStats.RoundPercent | app.js:171 | the integer nearest to 100·part/whole, with halves rounded up; at most 100 when part ≤ whole; 0 for no part; 100 for the whole |
| TaskStats.RoundPercentMonotone | app.js:171-178 | a larger share never rounds to a smaller percentage |
| TaskStats.CompletionRate | app.js:169-171 | in [0,100]; 0 with no tasks or no completed tasks; 100 when every task is completed; otherwise the rounded percentage of completed tasks |
| TaskStats.OnTimeCompleted | app.js:174-177 | the on-time count is at most the completed count |
| TaskStats.ProductivityScore | app.js:174-178 | in [0,100], at most the completion rate, 0 with no tasks; the cap at 100 never changes the value |
| TaskStats.IsWithinLastWeek | app.js:200-205 | true exactly when the date is at most 7·24 hours before now, i.e. at or after now minus a week |
| TaskStats.RecentCompleted | app.js:182-185 | the recent-completion count is at most the completed count |
| TaskStats.CurrentStreak | app.js:182-186 | returns ⌊recent/2⌋ capped at 30: at most 30, twice it never exceeds recent, and below the cap it is the floor of recent/2 |
| TaskStats.StreakNonIncreasing | app.js:182-205 | a task is within the last week when created at or after now minus 7 days, so as now advances the recent count and the streak never grow |
| TaskStats.ComputeAnalytics | app.js:169-186 | completionRate ≤ 100, productivityScore ≤ completionRate, currentStreak ≤ 30, and all three are 0 for no tasks |
| TaskStats.IsOverdue | app.js:817-822 | false for a completed task; for a pending task, true exactly when it is due before now |
| TaskStats.OverdueAtTopOfView | app.js:817-822 | isOverdue holds only for a task that is not completed and due before now, so everything listed above an overdue task is completed or overdue itself |
| TaskStats.CountsAfterAdd | app.js:129 | a successful add raises the pending count by one and leaves the completed count alone |
| TaskStats.CountsAfterToggle | app.js:340-345 | toggling a present id moves exactly one task between pending and completed |
| TaskStats.CountsAfterDelete | app.js:369-378 | with unique ids, a confirmed delete lowers the total by one and only the count of the deleted task's status |
| SampleData.SampleTasks | app.js:750-793 | five sample tasks with unique ids, non-empty titles and no updatedAt |
| SampleData.SampleTasksTrimmed | app.js:750-793 | every sample title is non-empty and already trimmed, as the add-task form would store it |
| SampleData.SampleStatistics | app.js:750-793 | the sample data gives total 5, completed 2, pending 3, chart [2, 3], completion rate 40, and productivity score 40 from two on-time tasks |
| SampleData.SampleStreak | app.js:750-793 | the sample streak is 1 until 2025-06-22T00:00Z, a week after the older completed task was created, and 0 after it |
| App.TaskStore.constructor | app.js:3 | the page starts with no tasks and zeroed analytics |
| App.TaskStore.LoadSampleData | app.js:747-793 | the tasks become the sample tasks |
| App.TaskStore.UpdateAnalytics | app.js:165-186 | the analytics object is set to the rate, score and streak of the current tasks, within their bounds; the tasks are untouched |
| App.TaskStore.Startup | app.js:26-33 | after start-up the tasks are the samples and the analytics show 40% completion and a productivity score of 40 |
| App.TaskStore.AddTask | app.js:103-139 | rejected exactly when the trimmed title or the due date is empty, and then nothing changes; otherwise one new pending task goes on the end, earlier tasks are kept, analytics are recomputed, and a fresh id keeps ids unique |
| App.TaskStore.ToggleTaskStatus | app.js:331-352 | an unknown id gives NotFound and changes nothing; otherwise the tasks become Toggled of the old tasks and the analytics are recomputed |
| App.TaskStore.DeleteTask | app.js:365-384 | an absent id gives NotFound and a declined confirmation gives Declined; both change nothing; otherwise every task with the id is removed, the rest keep their order, and the analytics are recomputed |
| App.TaskStore.ListTasks | app.js:265-266 | every listed title is non-empty and trimmed; the view is sorted by due date, is a permutation of the tasks, keeps same-date tasks in stored order, and leaves the tasks unchanged |

## Left out

- DOM rendering and interaction glue: task HTML, navigation, theme toggle,
  notifications, confetti, the success badge, the profile modal and
  keyboard shortcuts (app.js:44-99, 276-328, 579-743, 826-851). These are
  presentation and hold no state the store depends on.
- `updateDashboard` and `updateTasksList` store nothing. They are modelled
  as the read-only `TaskStats.Dashboard` and `App.TaskStore.ListTasks`,
  which the caller re-evaluates after each change. The empty-list message
  (app.js:254-263) is presentation.
- Chart.js setup, chart updates and tooltips (app.js:393-404, 428-575). They
  belong to a foreign library. Only the counts of `getChartData` are
  modelled.
- `animateNumber` and `animateProgressBar` (app.js:208-242). They are
  timer-driven animations with floating-point steps.
- Parsing and formatting dates: ISO strings, `toLocaleDateString`,
  `formatDate` and `isToday` (app.js:282-288, 799-814). Dates are integers.
- `TaskStats.IsWithinLastWeek`: it takes "a week ago" as exactly 7·24 hours
  before now. The source steps back seven local calendar days with
  `setDate`, which differs by an hour across a daylight-saving change.
- `TaskStats.RoundPercent`: JavaScript computes `Math.round(c / t * 100)` in
  floating point. The model rounds the exact fraction half up. The two can
  differ where the floating-point product lands just below a .5 boundary.
- Generating ids: the source uses `Date.now()`, which can give two tasks the
  same id. The id is a parameter. Unique ids are an assumption of the
  lemmas that need them, not a proved invariant of the store.
- Separate clock readings: the source reads the clock once for the id and
  again for `createdAt`, and again inside `updateAnalytics`. The id is its
  own parameter; one `now` serves `createdAt`, `updatedAt` and the
  analytics. The source's link between a task's id and its `createdAt`
  (app.js:120 and 125), both clock readings, is therefore not modelled.
- Browser form validation: the page sets the due-date input's `min` to the
  current UTC date (app.js:36, 134), so the browser blocks a past due date
  before the handler runs, and it may enforce `required` attributes of the
  page. Neither is modelled: `BuildTask` and `AddTask` accept any due date.
- The `confirm()` dialog (app.js:376) is UI. Its answer is the boolean
  `confirmed`.
- Task objects are values. The source changes `status` and `updatedAt` on
  the shared task object. The model replaces that element of the sequence.
  This is the same state, because no other reference to a task outlives
  an operation.
