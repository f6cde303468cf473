/** The task list view: a copy of the tasks sorted by due date, earliest
    first. JavaScript's Array.prototype.sort is stable, so tasks with the same
    due date keep their stored order; `SortByDue` is an insertion sort with
    exactly that behaviour, and `StableSortUnique` shows that it is the only
    result a stable sort can give. */
module TaskSort {
  import opened TaskModel

  predicate SortedByDue(s: seq<Task>)
  {
    forall i, j :: 0 <= i < j < |s| ==> s[i].dueDate <= s[j].dueDate
  }

  /** The tasks of `s` due at time `d`, in their order in `s`. */
  function WithDue(s: seq<Task>, d: Time): (r: seq<Task>)
    ensures |r| <= |s|
    ensures forall k :: 0 <= k < |r| ==> r[k].dueDate == d
  {
    if s == [] then []
    else if s[0].dueDate == d then [s[0]] + WithDue(s[1..], d)
    else WithDue(s[1..], d)
  }

  /** Places `t` in front of the first task of `s` due no earlier than it. */
  function InsertByDue(t: Task, s: seq<Task>): (r: seq<Task>)
    requires SortedByDue(s)
    ensures SortedByDue(r)
    ensures multiset(r) == multiset(s) + multiset{t}
    ensures r[0] == t || (s != [] && r[0] == s[0])
  {
    if s == [] || t.dueDate <= s[0].dueDate then [t] + s
    else
      var rest := InsertByDue(t, s[1..]);
      assert s == [s[0]] + s[1..];
      assert s[0].dueDate <= rest[0].dueDate;
      [s[0]] + rest
  }

  /** The list view `[...tasks].sort((a, b) => a.dueDate - b.dueDate)`. */
  function SortByDue(s: seq<Task>): (r: seq<Task>)
    ensures SortedByDue(r)
    ensures multiset(r) == multiset(s)
    ensures |r| == |s|
  {
    if s == [] then []
    else
      assert s == [s[0]] + s[1..];
      InsertByDue(s[0], SortByDue(s[1..]))
  }

  /** Nothing in a sorted sequence is due before its first task. */
  lemma {:induction false} WithDueAbove(s: seq<Task>, d: Time)
    requires SortedByDue(s)
    ensures s != [] && d < s[0].dueDate ==> WithDue(s, d) == []
  {
    if |s| > 1 {
      WithDueAbove(s[1..], d);
    }
  }

  lemma {:induction false} WithDueInsert(t: Task, s: seq<Task>, d: Time)
    requires SortedByDue(s)
    ensures WithDue(InsertByDue(t, s), d) == if t.dueDate == d then [t] + WithDue(s, d) else WithDue(s, d)
  {
    if s == [] || t.dueDate <= s[0].dueDate {
      assert ([t] + s)[1..] == s;
    } else {
      var rest := InsertByDue(t, s[1..]);
      assert ([s[0]] + rest)[1..] == rest;
      WithDueInsert(t, s[1..], d);
    }
  }

  /** Stability: for every due date, the tasks due then appear in the view in
      the same order as in the store. */
  lemma {:induction false} SortStable(s: seq<Task>)
    ensures forall d :: WithDue(SortByDue(s), d) == WithDue(s, d)
  {
    if s != [] {
      SortStable(s[1..]);
      forall d ensures WithDue(SortByDue(s), d) == WithDue(s, d) {
        WithDueInsert(s[0], SortByDue(s[1..]), d);
      }
    }
  }

  lemma {:induction false} WithDueTail(s: seq<Task>, d: Time)
    requires s != []
    ensures WithDue(s[1..], d) == if s[0].dueDate == d then WithDue(s, d)[1..] else WithDue(s, d)
  {
  }

  /** Two due-date-sorted sequences that agree, date by date, on the tasks due
      then are equal. */
  lemma {:induction false} SortedAgreeingEqual(r1: seq<Task>, r2: seq<Task>)
    requires SortedByDue(r1) && SortedByDue(r2)
    requires forall d :: WithDue(r1, d) == WithDue(r2, d)
    ensures r1 == r2
  {
    assert r1 != [] ==> WithDue(r1, r1[0].dueDate) != [];
    assert r2 != [] ==> WithDue(r2, r2[0].dueDate) != [];
    if r1 == [] || r2 == [] {
      assert r1 == [] && r2 == [];
    } else {
      var a, b := r1[0].dueDate, r2[0].dueDate;
      WithDueAbove(r2, a);
      WithDueAbove(r1, b);
      assert WithDue(r1, a) != [] && WithDue(r2, b) != [];
      assert a == b;
      assert r1[0] == WithDue(r1, a)[0] == WithDue(r2, a)[0] == r2[0];
      forall d ensures WithDue(r1[1..], d) == WithDue(r2[1..], d) {
        WithDueTail(r1, d);
        WithDueTail(r2, d);
      }
      SortedAgreeingEqual(r1[1..], r2[1..]);
      assert r1 == [r1[0]] + r1[1..] && r2 == [r2[0]] + r2[1..];
    }
  }

  /** Any sorted arrangement of `s` that keeps same-date tasks in stored
      order is `SortByDue(s)`. */
  lemma StableSortUnique(s: seq<Task>, r: seq<Task>)
    requires SortedByDue(r)
    requires forall d :: WithDue(r, d) == WithDue(s, d)
    ensures r == SortByDue(s)
  {
    SortStable(s);
    SortedAgreeingEqual(r, SortByDue(s));
  }
}
