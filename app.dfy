/** The application state of Schedulr: the global `tasks` array and the
    global `analytics` object, with the operations the page's handlers run on
    them. The clock reading, the new task's id and the answer to the delete
    confirmation dialog are parameters. */
module App {
  import opened TaskModel
  import opened TaskList
  import opened TaskSort
  import opened TaskStats
  import SampleData

  /** How an operation ended: it took effect, the add-task form was missing
      a required field, no task has the id, or the user declined to delete. */
  datatype Outcome = Done | ValidationError | NotFound | Declined

  class TaskStore {
    var tasks: seq<Task>
    var analytics: Analytics

    /** Every stored task has a non-empty title with no whitespace at either
        end, as the add-task form stores it. */
    ghost predicate Valid()
      reads this
    {
      forall k :: 0 <= k < |tasks| ==> IsTrimmedTask(tasks[k])
    }

    /** The page's initial state: no tasks and zeroed analytics. */
    constructor ()
      ensures Valid()
      ensures tasks == [] && analytics == Analytics(0, 0, 0)
    {
      tasks := [];
      analytics := Analytics(0, 0, 0);
    }

    /** `loadSampleData`: replaces the tasks with the five sample tasks. */
    method LoadSampleData()
      modifies this`tasks
      ensures Valid()
      ensures tasks == SampleData.SampleTasks()
    {
      tasks := SampleData.SampleTasks();
      SampleData.SampleTasksTrimmed();
    }

    /** `updateAnalytics`: recomputes the three analytics fields from the
      tasks at time `now`. */
    method UpdateAnalytics(now: Time)
      modifies this`analytics
      ensures analytics == ComputeAnalytics(tasks, now)
      ensures analytics.completionRate <= 100 && analytics.currentStreak <= 30
      ensures analytics.productivityScore <= analytics.completionRate
    {
      var totalTasks := |tasks|;
      var completedTasks := CompletedCount(tasks);
      analytics := analytics.(completionRate := if totalTasks > 0 then RoundPercent(completedTasks, totalTasks) else 0);
      var completedOnTime := OnTimeCompleted(tasks);
      analytics := analytics.(productivityScore := if totalTasks > 0 then Min(RoundPercent(completedOnTime, totalTasks), 100) else 0);
      var recentCompleted := RecentCompleted(tasks, now);
      analytics := analytics.(currentStreak := Min(recentCompleted / 2, 30));
    }

    /** Start-up: the sample data is loaded and the analytics computed. */
    method Startup(now: Time)
      modifies this
      ensures Valid()
      ensures tasks == SampleData.SampleTasks()
      ensures analytics == ComputeAnalytics(tasks, now)
      ensures analytics.completionRate == 40 && analytics.productivityScore == 40
    {
      LoadSampleData();
      UpdateAnalytics(now);
      SampleData.SampleStatistics();
    }

    /** The add-task form's submit handler: a blank title or an empty due date
        is rejected and nothing changes; otherwise the new pending task goes on
        the end of the list and the analytics are recomputed. */
    method AddTask(rawTitle: string, rawDescription: string, dueField: Option<Time>, id: int, now: Time)
      returns (outcome: Outcome)
      requires Valid()
      modifies this
      ensures Valid()
      ensures outcome == Done || outcome == ValidationError
      ensures outcome == ValidationError <==> Trim(rawTitle) == [] || dueField.None?
      ensures outcome == ValidationError ==> tasks == old(tasks) && analytics == old(analytics)
      ensures outcome == Done ==>
        && tasks == old(tasks) + [BuildTask(rawTitle, rawDescription, dueField, id, now).value]
        && analytics == ComputeAnalytics(tasks, now)
      ensures outcome == Done && UniqueIds(old(tasks)) && !ContainsId(old(tasks), id) ==> UniqueIds(tasks)
    {
      var newTask := BuildTask(rawTitle, rawDescription, dueField, id, now);
      if newTask.None? {
        return ValidationError;
      }
      var t := newTask.value;
      assert IsTrimmedTask(t);
      if UniqueIds(tasks) && !ContainsId(tasks, id) {
        AppendFreshKeepsUnique(tasks, t);
      }
      ghost var before := tasks;
      tasks := tasks + [t];
      assert forall k :: 0 <= k < |tasks| ==> tasks[k] == (if k < |before| then before[k] else t);
      UpdateAnalytics(now);
      outcome := Done;
    }

    /** `toggleTaskStatus`: flips the first task with that id between pending
        and completed and stamps `updatedAt`; an unknown id changes nothing. */
    method ToggleTaskStatus(id: int, now: Time) returns (outcome: Outcome)
      requires Valid()
      modifies this
      ensures Valid()
      ensures outcome == Done || outcome == NotFound
      ensures outcome == NotFound <==> !ContainsId(old(tasks), id)
      ensures tasks == Toggled(old(tasks), id, now)
      ensures outcome == NotFound ==> analytics == old(analytics)
      ensures outcome == Done ==> analytics == ComputeAnalytics(tasks, now)
      ensures UniqueIds(old(tasks)) ==> UniqueIds(tasks)
    {
      var taskIndex := FindIndex(tasks, id);
      if taskIndex == -1 {
        return NotFound;
      }
      var task := tasks[taskIndex];
      var wasCompleted := task.status == Completed;
      task := task.(status := if wasCompleted then Pending else Completed, updatedAt := Some(now));
      tasks := tasks[taskIndex := task];
      UpdateAnalytics(now);
      outcome := Done;
    }

    /** `deleteTask`: when a task has the id and the user confirms, every task
        with that id is removed and the analytics are recomputed; an unknown id
        or a declined confirmation changes nothing. */
    method DeleteTask(id: int, confirmed: bool, now: Time) returns (outcome: Outcome)
      requires Valid()
      modifies this
      ensures Valid()
      ensures outcome == Done || outcome == NotFound || outcome == Declined
      ensures outcome == NotFound <==> !ContainsId(old(tasks), id)
      ensures outcome == Declined <==> ContainsId(old(tasks), id) && !confirmed
      ensures outcome != Done ==> tasks == old(tasks) && analytics == old(analytics)
      ensures outcome == Done ==> tasks == WithoutId(old(tasks), id) && analytics == ComputeAnalytics(tasks, now)
      ensures outcome == Done ==> !ContainsId(tasks, id)
      ensures UniqueIds(old(tasks)) ==> UniqueIds(tasks)
    {
      var taskIndex := FindIndex(tasks, id);
      if taskIndex == -1 {
        return NotFound;
      }
      if !confirmed {
        return Declined;
      }
      if UniqueIds(tasks) {
        WithoutIdKeepsUnique(tasks, id);
      }
      tasks := WithoutId(tasks, id);
      UpdateAnalytics(now);
      outcome := Done;
    }

    /** The order `updateTasksList` renders: a sorted copy of the tasks, earliest
        due first, same-date tasks in stored order. The stored tasks are not
        touched. */
    method ListTasks() returns (view: seq<Task>)
      requires Valid()
      ensures forall k :: 0 <= k < |view| ==> view[k].title != [] && Trim(view[k].title) == view[k].title
      ensures SortedByDue(view)
      ensures multiset(view) == multiset(tasks)
      ensures forall d :: WithDue(view, d) == WithDue(tasks, d)
    {
      SortStable(tasks);
      view := SortByDue(tasks);
      forall k | 0 <= k < |view| ensures IsTrimmedTask(view[k]) {
        assert view[k] in multiset(tasks);
      }
    }
  }
}
