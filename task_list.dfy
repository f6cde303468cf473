/** The operations on the `tasks` array, as values: the lookup by id, the
    task built by the add-task form, and the collections that toggling a
    status and deleting a task leave behind. The store's methods are proved
    against these functions. */
module TaskList {
  import opened TaskModel

  predicate ContainsId(tasks: seq<Task>, id: int)
  {
    exists k :: 0 <= k < |tasks| && tasks[k].id == id
  }

  /** What every write path stores: a non-empty title with no whitespace at
      either end. */
  predicate IsTrimmedTask(t: Task)
  {
    t.title != [] && Trim(t.title) == t.title
  }

  /** No two tasks share an id. */
  predicate UniqueIds(tasks: seq<Task>)
  {
    forall i, j :: 0 <= i < j < |tasks| ==> tasks[i].id != tasks[j].id
  }

  /** `tasks.findIndex(task => task.id === id)`: the first position holding
      that id, or -1 when there is none. */
  function FindIndex(tasks: seq<Task>, id: int): (i: int)
    ensures -1 <= i < |tasks|
    ensures i == -1 <==> !ContainsId(tasks, id)
    ensures 0 <= i ==> tasks[i].id == id && forall k :: 0 <= k < i ==> tasks[k].id != id
  {
    if tasks == [] then -1
    else if tasks[0].id == id then 0
    else
      var j := FindIndex(tasks[1..], id);
      assert forall k :: 0 < k < |tasks| ==> tasks[k] == tasks[1..][k - 1];
      if j == -1 then -1 else j + 1
  }

  /** The add-task form: the title and description are trimmed; a title that
      trims to nothing or an empty due-date field rejects the submission
      (None); otherwise the new task is pending, created at `now`, and has
      never been updated. */
  function BuildTask(rawTitle: string, rawDescription: string, dueField: Option<Time>, id: int, now: Time): (r: Option<Task>)
    ensures r.None? <==> Trim(rawTitle) == [] || dueField.None?
    ensures r.Some? ==>
      && r.value.id == id
      && r.value.title == Trim(rawTitle)
      && r.value.description == Trim(rawDescription)
      && r.value.dueDate == dueField.value
      && r.value.status == Pending
      && r.value.createdAt == now
      && r.value.updatedAt == None
    ensures r.Some? ==> IsTrimmedTask(r.value)
  {
    var title := Trim(rawTitle);
    var description := Trim(rawDescription);
    if title == [] || dueField.None? then None
    else
      TrimIdempotent(rawTitle);
      Some(Task(id, title, description, dueField.value, Pending, now, None))
  }

  /** What `toggleTaskStatus(id)` leaves behind: the first task with that id
      has its status flipped and `updatedAt` set to `now`; every other task,
      and every other field, is unchanged. An unknown id changes nothing. */
  function Toggled(tasks: seq<Task>, id: int, now: Time): (r: seq<Task>)
    ensures |r| == |tasks|
    ensures !ContainsId(tasks, id) ==> r == tasks
    ensures ContainsId(tasks, id) ==>
      var i := FindIndex(tasks, id);
      && r[i] == tasks[i].(status := Flip(tasks[i].status), updatedAt := Some(now))
      && forall k :: 0 <= k < |tasks| && k != i ==> r[k] == tasks[k]
    ensures forall k :: 0 <= k < |tasks| ==> r[k].id == tasks[k].id && r[k].title == tasks[k].title
  {
    var i := FindIndex(tasks, id);
    if i == -1 then tasks
    else tasks[i := tasks[i].(status := Flip(tasks[i].status), updatedAt := Some(now))]
  }

  /** `tasks.filter(t => t.id !== id)`: exactly the tasks with another id, in
      their original order (see `WithoutIdAppend`); nothing changes when the
      id is absent. */
  function WithoutId(tasks: seq<Task>, id: int): (r: seq<Task>)
    ensures |r| <= |tasks|
    ensures forall t :: t in r <==> t in tasks && t.id != id
    ensures !ContainsId(r, id)
    ensures !ContainsId(tasks, id) ==> r == tasks
    ensures ContainsId(tasks, id) ==> |r| < |tasks|
  {
    if tasks == [] then []
    else
      var rest := WithoutId(tasks[1..], id);
      assert !ContainsId(tasks, id) ==> !ContainsId(tasks[1..], id);
      assert ContainsId(tasks, id) && tasks[0].id != id ==> tasks[1..][FindIndex(tasks, id) - 1].id == id;
      if tasks[0].id == id then rest else [tasks[0]] + rest
  }

  /** Filtering distributes over concatenation, so the kept tasks stay in
      their original relative order. */
  lemma {:induction false} WithoutIdAppend(a: seq<Task>, b: seq<Task>, id: int)
    ensures WithoutId(a + b, id) == WithoutId(a, id) + WithoutId(b, id)
  {
    if a == [] {
      assert a + b == b;
    } else {
      assert (a + b)[1..] == a[1..] + b;
      WithoutIdAppend(a[1..], b, id);
    }
  }

  /** With unique ids, deleting a present id removes exactly one task. */
  lemma {:induction false} WithoutIdRemovesOne(tasks: seq<Task>, id: int)
    requires UniqueIds(tasks)
    requires ContainsId(tasks, id)
    ensures |WithoutId(tasks, id)| == |tasks| - 1
  {
    var rest := tasks[1..];
    assert UniqueIds(rest) by {
      forall i, j | 0 <= i < j < |rest| ensures rest[i].id != rest[j].id {
        assert rest[i] == tasks[i + 1] && rest[j] == tasks[j + 1];
      }
    }
    if tasks[0].id == id {
      assert !ContainsId(rest, id) by {
        forall k | 0 <= k < |rest| ensures rest[k].id != id {
          assert rest[k] == tasks[k + 1];
        }
      }
    } else {
      var i := FindIndex(tasks, id);
      assert rest[i - 1].id == id;
      WithoutIdRemovesOne(rest, id);
    }
  }

  /** Adding a task whose id is not yet present keeps the ids unique. */
  lemma AppendFreshKeepsUnique(tasks: seq<Task>, t: Task)
    requires UniqueIds(tasks)
    requires !ContainsId(tasks, t.id)
    ensures UniqueIds(tasks + [t])
  {
    var s := tasks + [t];
    forall i, j | 0 <= i < j < |s| ensures s[i].id != s[j].id {
      if j == |tasks| {
        assert s[i] == tasks[i];
      } else {
        assert s[i] == tasks[i] && s[j] == tasks[j];
      }
    }
  }

  /** Toggling keeps every id, so it keeps the ids unique. */
  lemma ToggledKeepsUnique(tasks: seq<Task>, id: int, now: Time)
    requires UniqueIds(tasks)
    ensures UniqueIds(Toggled(tasks, id, now))
  {
  }

  /** Deleting keeps the ids unique. */
  lemma {:induction false} WithoutIdKeepsUnique(tasks: seq<Task>, id: int)
    requires UniqueIds(tasks)
    ensures UniqueIds(WithoutId(tasks, id))
  {
    if tasks != [] {
      var rest := tasks[1..];
      assert UniqueIds(rest) by {
        forall i, j | 0 <= i < j < |rest| ensures rest[i].id != rest[j].id {
          assert rest[i] == tasks[i + 1] && rest[j] == tasks[j + 1];
        }
      }
      WithoutIdKeepsUnique(rest, id);
      var r := WithoutId(rest, id);
      if tasks[0].id != id {
        assert forall t :: t in rest ==> t.id != tasks[0].id by {
          forall k | 0 <= k < |rest| ensures rest[k].id != tasks[0].id {
            assert rest[k] == tasks[k + 1];
          }
        }
        var s := [tasks[0]] + r;
        forall i, j | 0 <= i < j < |s| ensures s[i].id != s[j].id {
          assert s[j] == r[j - 1];
          if i == 0 {
            assert s[j] in rest;
          } else {
            assert s[i] == r[i - 1];
          }
        }
      }
    }
  }

  /** Toggling the same id twice restores every status; the only trace left
      is the second `updatedAt`. */
  lemma ToggleTwice(tasks: seq<Task>, id: int, now1: Time, now2: Time)
    ensures var r := Toggled(Toggled(tasks, id, now1), id, now2);
      && |r| == |tasks|
      && (forall k :: 0 <= k < |tasks| ==> r[k].status == tasks[k].status)
      && (ContainsId(tasks, id) ==>
            var i := FindIndex(tasks, id);
            && r[i] == tasks[i].(updatedAt := Some(now2))
            && forall k :: 0 <= k < |tasks| && k != i ==> r[k] == tasks[k])
      && (!ContainsId(tasks, id) ==> r == tasks)
  {
    var once := Toggled(tasks, id, now1);
    if ContainsId(tasks, id) {
      var i := FindIndex(tasks, id);
      assert FindIndex(once, id) == i by {
        assert once[i].id == id;
        assert forall k :: 0 <= k < i ==> once[k].id != id;
      }
    }
  }
}
