/** The five demonstration tasks `loadSampleData` installs at start-up, and
    the statistics they produce. */
module SampleData {
  import opened TaskModel
  import opened TaskList
  import opened TaskStats

  /** UTC midnights of the sample dates, in milliseconds since the epoch. */
  const June15: Time := 1_749_945_600_000
  const June18: Time := 1_750_204_800_000
  const June20: Time := 1_750_377_600_000
  const June21: Time := 1_750_464_000_000
  const June22: Time := 1_750_550_400_000
  const June23: Time := 1_750_636_800_000
  const June25: Time := 1_750_809_600_000
  const June30: Time := 1_751_241_600_000

  /** The sample tasks, in their stored order; `createdAt` is the UTC
      midnight of the given creation date and no task has been updated. */
  function SampleTasks(): (s: seq<Task>)
    ensures |s| == 5
    ensures UniqueIds(s)
    ensures forall k :: 0 <= k < |s| ==> s[k].title != [] && s[k].updatedAt == None
  {
    [ Task(1, "Complete Software Engineering Assignment",
           "Finish the web development project for CS 461",
           June25, Pending, June20, None),
      Task(2, "Study for Computer Science Exam",
           "Review data structures and algorithms for the midterm",
           June30, Pending, June21, None),
      Task(3, "Submit Research Proposal",
           "Complete and submit the research proposal for AI project",
           June20, Completed, June18, None),
      Task(4, "Prepare Project Presentation",
           "Create slides for the upcoming team presentation",
           June22, Completed, June15, None),
      Task(5, "Review Team Code",
           "Provide feedback on pull requests from team members",
           June23, Pending, June21, None) ]
  }

  /** Every sample title is non-empty and already trimmed, as the add-task
      form would have stored it. */
  lemma SampleTasksTrimmed()
    ensures forall k :: 0 <= k < |SampleTasks()| ==> IsTrimmedTask(SampleTasks()[k])
  {
    var s := SampleTasks();
    TrimKeepsTrimmed(s[0].title);
    TrimKeepsTrimmed(s[1].title);
    TrimKeepsTrimmed(s[2].title);
    TrimKeepsTrimmed(s[3].title);
    TrimKeepsTrimmed(s[4].title);
  }

  /** Five tasks, two completed and three pending: a 40% completion rate, and
      both completed tasks were created before they were due, so the
      productivity score is 40 as well. */
  lemma SampleStatistics()
    ensures Dashboard(SampleTasks()) == DashboardCounts(5, 2, 3)
    ensures ChartData(SampleTasks()) == [2, 3]
    ensures CompletionRate(SampleTasks()) == 40
    ensures OnTimeCompleted(SampleTasks()) == 2
    ensures ProductivityScore(SampleTasks()) == 40
  {
    var s := SampleTasks();
    assert s[1..][1..][1..][1..][1..] == [];
    assert CompletedCount(s) == 2;
    assert PendingCount(s) == 3;
    assert Count(s, IsCompletedOnTime) == 2;
  }

  /** The streak of the sample data at time `now`: both completed tasks are
      recent until a week after the older one was created, which gives a
      streak of one day; after that, at most one is recent and the streak is 0. */
  lemma SampleStreak(now: Time)
    ensures CurrentStreak(SampleTasks(), now) == if now <= June22 then 1 else 0
  {
    var s := SampleTasks();
    assert s[1..][1..][1..][1..][1..] == [];
    assert RecentCompleted(s, now) == if now <= June22 then 2 else if now <= June25 then 1 else 0;
  }
}
