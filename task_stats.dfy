/** The statistics derived from the tasks: the dashboard and chart counts,
    the analytics percentages and streak, and the two date predicates. Every
    count is a `tasks.filter(pred).length`, written here as `Count`. */
module TaskStats {
  import opened TaskModel
  import opened TaskList
  import opened TaskSort

  /** `s.filter(p).length`. */
  function Count(s: seq<Task>, p: Task -> bool): (n: nat)
    ensures n <= |s|
    ensures n == 0 <==> forall k :: 0 <= k < |s| ==> !p(s[k])
  {
    if s == [] then 0
    else
      assert forall k :: 0 < k < |s| ==> s[k] == s[1..][k - 1];
      (if p(s[0]) then 1 else 0) + Count(s[1..], p)
  }

  lemma {:induction false} CountAppend(a: seq<Task>, b: seq<Task>, p: Task -> bool)
    ensures Count(a + b, p) == Count(a, p) + Count(b, p)
  {
    if a == [] {
      assert a + b == b;
    } else {
      assert (a + b)[1..] == a[1..] + b;
      CountAppend(a[1..], b, p);
    }
  }

  /** Replacing one task changes a count by at most that task's own vote. */
  lemma {:induction false} CountUpdate(s: seq<Task>, i: nat, t: Task, p: Task -> bool)
    requires i < |s|
    ensures Count(s[i := t], p) == Count(s, p) - (if p(s[i]) then 1 else 0) + (if p(t) then 1 else 0)
  {
    if i > 0 {
      assert s[i := t][1..] == s[1..][i - 1 := t];
      CountUpdate(s[1..], i - 1, t, p);
    } else {
      assert s[i := t][1..] == s[1..];
    }
  }

  /** A filter that accepts every task another one accepts counts at least as many. */
  lemma {:induction false} CountImplies(s: seq<Task>, p: Task -> bool, q: Task -> bool)
    requires forall k :: 0 <= k < |s| && p(s[k]) ==> q(s[k])
    ensures Count(s, p) <= Count(s, q)
  {
    if s != [] {
      assert forall k :: 0 <= k < |s[1..]| ==> s[1..][k] == s[k + 1];
      CountImplies(s[1..], p, q);
    }
  }

  /** With unique ids, deleting a present id lowers each count by the vote of
      the one task removed. */
  lemma {:induction false} CountWithoutId(s: seq<Task>, id: int, p: Task -> bool)
    requires UniqueIds(s)
    requires ContainsId(s, id)
    ensures Count(WithoutId(s, id), p) == Count(s, p) - (if p(s[FindIndex(s, id)]) then 1 else 0)
  {
    var rest := s[1..];
    assert UniqueIds(rest) by {
      forall i, j | 0 <= i < j < |rest| ensures rest[i].id != rest[j].id {
        assert rest[i] == s[i + 1] && rest[j] == s[j + 1];
      }
    }
    if s[0].id == id {
      assert !ContainsId(rest, id) by {
        forall k | 0 <= k < |rest| ensures rest[k].id != id {
          assert rest[k] == s[k + 1];
        }
      }
    } else {
      var i := FindIndex(s, id);
      assert rest[i - 1].id == id;
      assert FindIndex(rest, id) == i - 1;
      CountWithoutId(rest, id, p);
    }
  }

  predicate IsCompleted(t: Task) { t.status == Completed }

  predicate IsPending(t: Task) { t.status == Pending }

  function CompletedCount(s: seq<Task>): (n: nat) { Count(s, IsCompleted) }

  function PendingCount(s: seq<Task>): (n: nat) { Count(s, IsPending) }

  /** Every task is either pending or completed. */
  lemma {:induction false} StatusPartition(s: seq<Task>)
    ensures CompletedCount(s) + PendingCount(s) == |s|
  {
    if s != [] {
      StatusPartition(s[1..]);
    }
  }

  datatype DashboardCounts = DashboardCounts(total: nat, completed: nat, pending: nat)

  /** The three numbers `updateDashboard` shows. */
  function Dashboard(s: seq<Task>): (d: DashboardCounts)
    ensures d.total == |s| && d.completed + d.pending == d.total
    ensures d.completed == CompletedCount(s) && d.pending == PendingCount(s)
  {
    StatusPartition(s);
    DashboardCounts(|s|, CompletedCount(s), PendingCount(s))
  }

  /** The pie chart's data `[completed, pending]`: the dashboard's split of
      all the tasks. */
  function ChartData(s: seq<Task>): (r: seq<nat>)
    ensures |r| == 2 && r[0] + r[1] == |s|
    ensures r == [Dashboard(s).completed, Dashboard(s).pending]
  {
    StatusPartition(s);
    [Count(s, IsCompleted), Count(s, IsPending)]
  }

  /** `Math.round(part / whole * 100)` in exact arithmetic: the integer
      nearest to 100 * part / whole, halves rounded up. */
  function RoundPercent(part: nat, whole: nat): (r: nat)
    requires whole > 0
    ensures 2 * whole * r <= 200 * part + whole < 2 * whole * r + 2 * whole
    ensures part <= whole ==> r <= 100
    ensures part == 0 ==> r == 0
    ensures part == whole ==> r == 100
  {
    var w2 := 2 * whole;
    var n := 200 * part + whole;
    var r := n / w2;
    assert w2 * r <= n < w2 * r + w2 by {
      assert n == w2 * r + n % w2;
    }
    assert 2 * whole * r == w2 * r;
    assert part <= whole ==> r <= 100 by {
      if part <= whole && r > 100 {
        MulAtLeast(w2, r, 101);
      }
    }
    assert part == 0 ==> r == 0 by {
      if part == 0 && r > 0 {
        MulAtLeast(w2, r, 1);
      }
    }
    assert part == whole ==> r >= 100 by {
      if part == whole && r < 100 {
        MulAtLeast(w2, 99, r);
      }
    }
    r
  }

  lemma MulAtLeast(a: nat, b: int, c: int)
    requires b >= c
    ensures a * b >= a * c
  {
  }

  /** A larger share never rounds to a smaller percentage. */
  lemma RoundPercentMonotone(p1: nat, p2: nat, whole: nat)
    requires whole > 0 && p1 <= p2
    ensures RoundPercent(p1, whole) <= RoundPercent(p2, whole)
  {
    var r1, r2 := RoundPercent(p1, whole), RoundPercent(p2, whole);
    if r1 > r2 {
      MulAtLeast(2 * whole, r1, r2 + 1);
    }
  }

  /** `analytics.completionRate`: the rounded percentage of completed tasks,
      0 when there are none. */
  function CompletionRate(s: seq<Task>): (r: nat)
    ensures r <= 100
    ensures |s| == 0 ==> r == 0
    ensures |s| > 0 ==> r == RoundPercent(CompletedCount(s), |s|)
    ensures CompletedCount(s) == 0 ==> r == 0
    ensures |s| > 0 && CompletedCount(s) == |s| ==> r == 100
  {
    if |s| > 0 then RoundPercent(CompletedCount(s), |s|) else 0
  }

  /** The productivity filter: completed and created no later than due. */
  predicate IsCompletedOnTime(t: Task)
  {
    t.status == Completed && t.createdAt <= t.dueDate
  }

  /** The tasks counted as finished on time are among the completed ones. */
  function OnTimeCompleted(s: seq<Task>): (n: nat)
    ensures n <= CompletedCount(s)
  {
    CountImplies(s, IsCompletedOnTime, IsCompleted);
    Count(s, IsCompletedOnTime)
  }

  /** `analytics.productivityScore`: the rounded percentage of tasks completed
      on time, capped at 100 and 0 when there are none. The cap never bites,
      and the score never exceeds the completion rate. */
  function ProductivityScore(s: seq<Task>): (r: nat)
    ensures r <= 100
    ensures r <= CompletionRate(s)
    ensures |s| == 0 ==> r == 0
    ensures |s| > 0 ==> r == RoundPercent(OnTimeCompleted(s), |s|)
  {
    if |s| > 0 then
      RoundPercentMonotone(OnTimeCompleted(s), CompletedCount(s), |s|);
      Min(RoundPercent(OnTimeCompleted(s), |s|), 100)
    else 0
  }

  function Min(a: int, b: int): (m: int) { if a <= b then a else b }

  /** `isWithinLastWeek(date)`: at or after the moment seven days before now. */
  function IsWithinLastWeek(date: Time, now: Time): (r: bool)
    ensures r <==> now - date <= 7 * 24 * 60 * 60 * 1000
  {
    date >= now - WeekMs
  }

  /** The streak filter: completed and created within the last week. */
  function RecentCompleted(s: seq<Task>, now: Time): (n: nat)
    ensures n <= CompletedCount(s)
  {
    var recent := (t: Task) => t.status == Completed && IsWithinLastWeek(t.createdAt, now);
    CountImplies(s, recent, IsCompleted);
    Count(s, recent)
  }

  /** `analytics.currentStreak`: half the recent completions, rounded down and
      capped at 30 days. */
  function CurrentStreak(s: seq<Task>, now: Time): (r: nat)
    ensures r <= 30
    ensures 2 * r <= RecentCompleted(s, now)
    ensures r < 30 ==> RecentCompleted(s, now) <= 2 * r + 1
  {
    Min(RecentCompleted(s, now) / 2, 30)
  }

  /** As time passes, tasks only leave the last week, so the streak never grows
      without a change to the tasks. */
  lemma StreakNonIncreasing(s: seq<Task>, now1: Time, now2: Time)
    requires now1 <= now2
    ensures RecentCompleted(s, now2) <= RecentCompleted(s, now1)
    ensures CurrentStreak(s, now2) <= CurrentStreak(s, now1)
  {
    CountImplies(s,
      (t: Task) => t.status == Completed && IsWithinLastWeek(t.createdAt, now2),
      (t: Task) => t.status == Completed && IsWithinLastWeek(t.createdAt, now1));
  }

  /** The `analytics` object. */
  datatype Analytics = Analytics(completionRate: nat, productivityScore: nat, currentStreak: nat)

  /** What `updateAnalytics` writes into `analytics` at time `now`. */
  function ComputeAnalytics(s: seq<Task>, now: Time): (a: Analytics)
    ensures a.completionRate <= 100
    ensures a.productivityScore <= a.completionRate
    ensures a.currentStreak <= 30
    ensures s == [] ==> a == Analytics(0, 0, 0)
  {
    Analytics(CompletionRate(s), ProductivityScore(s), CurrentStreak(s, now))
  }

  /** `isOverdue(dueDate, status)`: not completed and due before now. The
      source never calls this helper; the list view's task card computes the
      same test inline (app.js:292). */
  function IsOverdue(due: Time, status: Status, now: Time): (r: bool)
    ensures status == Completed ==> !r
    ensures status == Pending ==> (r <==> due < now)
  {
    status != Completed && due < now
  }

  /** In the sorted list view, everything above an overdue task is either
      completed or overdue itself. */
  lemma OverdueAtTopOfView(s: seq<Task>, now: Time, i: nat, j: nat)
    requires i < j < |SortByDue(s)|
    requires var v := SortByDue(s); IsOverdue(v[j].dueDate, v[j].status, now)
    ensures var v := SortByDue(s); v[i].status == Completed || IsOverdue(v[i].dueDate, v[i].status, now)
  {
  }

  /** A successful add puts one more task among the pending ones. */
  lemma CountsAfterAdd(s: seq<Task>, t: Task)
    requires t.status == Pending
    ensures CompletedCount(s + [t]) == CompletedCount(s)
    ensures PendingCount(s + [t]) == PendingCount(s) + 1
  {
    CountAppend(s, [t], IsCompleted);
    CountAppend(s, [t], IsPending);
  }

  /** Toggling a present id moves exactly one task between pending and
      completed. */
  lemma CountsAfterToggle(s: seq<Task>, id: int, now: Time)
    requires ContainsId(s, id)
    ensures var i := FindIndex(s, id); var r := Toggled(s, id, now);
      if s[i].status == Pending then
        CompletedCount(r) == CompletedCount(s) + 1 && PendingCount(r) == PendingCount(s) - 1
      else
        CompletedCount(r) == CompletedCount(s) - 1 && PendingCount(r) == PendingCount(s) + 1
  {
    var i := FindIndex(s, id);
    var t := s[i].(status := Flip(s[i].status), updatedAt := Some(now));
    assert Toggled(s, id, now) == s[i := t];
    CountUpdate(s, i, t, IsCompleted);
    CountUpdate(s, i, t, IsPending);
  }

  /** With unique ids, a confirmed delete takes exactly one task off the count
      of its status. */
  lemma CountsAfterDelete(s: seq<Task>, id: int)
    requires UniqueIds(s)
    requires ContainsId(s, id)
    ensures var i := FindIndex(s, id); var r := WithoutId(s, id);
      && |r| == |s| - 1
      && CompletedCount(r) == CompletedCount(s) - (if s[i].status == Completed then 1 else 0)
      && PendingCount(r) == PendingCount(s) - (if s[i].status == Pending then 1 else 0)
  {
    WithoutIdRemovesOne(s, id);
    CountWithoutId(s, id, IsCompleted);
    CountWithoutId(s, id, IsPending);
  }
}
