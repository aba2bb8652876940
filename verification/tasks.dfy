/** The task records of the planner page (script.js) and the pure list
    operations behind its handlers: the filter that deletes, the lookup-and-flip
    that toggles completion, and the sort that orders the list for display. */
module Tasks {
  import opened Seqs
  import opened StableSort
  import Text

  /** One task. `dueDate` is the calendar day the date field named, as a day
      number; `difficulty` is the parsed rating and `difficultyText` the label of
      the option it was chosen from, kept verbatim for display. */
  datatype Task = Task(
    id: int,
    name: string,
    dueDate: int,
    difficulty: int,
    difficultyText: string,
    completed: bool)

  predicate IsPending(t: Task) {
    !t.completed
  }

  predicate IsDone(t: Task) {
    t.completed
  }

  /** The name a task was stored under: trimmed and not empty. */
  predicate HasTrimmedName(t: Task) {
    t.name != [] && Text.Trim(t.name) == t.name
  }

  predicate AllNamed(tasks: seq<Task>) {
    forall i :: 0 <= i < |tasks| ==> HasTrimmedName(tasks[i])
  }

  predicate UniqueIds(tasks: seq<Task>) {
    forall i, j :: 0 <= i < j < |tasks| ==> tasks[i].id != tasks[j].id
  }

  /** The tasks still to do, in list order. */
  function Incomplete(tasks: seq<Task>): seq<Task> {
    Filter(tasks, IsPending)
  }

  function HasOtherId(id: int): Task -> bool {
    (t: Task) => t.id != id
  }

  /** The list after deleting `id`: every task with that id is dropped. */
  function WithoutId(tasks: seq<Task>, id: int): seq<Task> {
    Filter(tasks, HasOtherId(id))
  }

  /** Deleting keeps every other task as often as it occurred and no task with
      the deleted id. */
  lemma DeleteRemovesExactlyThatId(tasks: seq<Task>, id: int, t: Task)
    ensures multiset(WithoutId(tasks, id))[t] == if t.id == id then 0 else multiset(tasks)[t]
  {
    FilterMultiset(tasks, HasOtherId(id), t);
  }

  /** Deleting keeps the remaining tasks in their order: it acts on each part of
      a list separately. */
  lemma DeleteKeepsOrder(a: seq<Task>, b: seq<Task>, id: int)
    ensures WithoutId(a + b, id) == WithoutId(a, id) + WithoutId(b, id)
  {
    FilterConcat(a, b, HasOtherId(id));
  }

  /** Deleting an id that no task has leaves the list as it was. */
  lemma DeleteAbsentIsNoOp(tasks: seq<Task>, id: int)
    requires forall i :: 0 <= i < |tasks| ==> tasks[i].id != id
    ensures WithoutId(tasks, id) == tasks
  {
    FilterKeepsAll(tasks, HasOtherId(id));
  }

  /** Deleting a task just added under a fresh id gives back the list before. */
  lemma DeleteUndoesAdd(tasks: seq<Task>, t: Task)
    requires forall i :: 0 <= i < |tasks| ==> tasks[i].id != t.id
    ensures WithoutId(tasks + [t], t.id) == tasks
  {
    DeleteKeepsOrder(tasks, [t], t.id);
    DeleteAbsentIsNoOp(tasks, t.id);
    assert WithoutId([t], t.id) == [];
  }

  /** A task put in front of a list without its id keeps the ids distinct. */
  lemma ConsKeepsUniqueIds(x: Task, rest: seq<Task>)
    requires UniqueIds(rest)
    requires forall j :: 0 <= j < |rest| ==> rest[j].id != x.id
    ensures UniqueIds([x] + rest)
  {
    var r := [x] + rest;
    forall i, j | 0 <= i < j < |r| ensures r[i].id != r[j].id {
      assert r[j] == rest[j - 1];
      if i > 0 {
        assert r[i] == rest[i - 1];
      }
    }
  }

  /** What a filter keeps of the tail of a list with distinct ids does not
      share the head's id. */
  lemma FilteredTailAvoidsHeadId(s: seq<Task>, p: Task -> bool)
    requires s != [] && UniqueIds(s)
    ensures forall j :: 0 <= j < |Filter(s[1..], p)| ==> Filter(s[1..], p)[j].id != s[0].id
  {
    var rest := Filter(s[1..], p);
    FilterMembers(s[1..], p);
    forall j | 0 <= j < |rest| ensures rest[j].id != s[0].id {
      var k :| 0 <= k < |s[1..]| && s[1..][k] == rest[j];
      assert s[k + 1] == rest[j];
    }
  }

  /** A filter keeps the ids of a list distinct when they were. */
  lemma {:induction false} FilterKeepsUniqueIds(s: seq<Task>, p: Task -> bool)
    requires UniqueIds(s)
    ensures UniqueIds(Filter(s, p))
  {
    if s != [] {
      var rest := Filter(s[1..], p);
      FilterKeepsUniqueIds(s[1..], p);
      FilterCons(s[0], s[1..], p);
      assert s == [s[0]] + s[1..];
      if p(s[0]) {
        FilteredTailAvoidsHeadId(s, p);
        ConsKeepsUniqueIds(s[0], rest);
      }
    }
  }

  function HasId(id: int): Task -> bool {
    (t: Task) => t.id == id
  }

  /** The list after toggling `id`: the first task with that id has its
      `completed` flag flipped, and nothing else changes. */
  function Toggled(tasks: seq<Task>, id: int): (r: seq<Task>)
    ensures |r| == |tasks|
    ensures forall j :: 0 <= j < |tasks| ==> r[j].(completed := tasks[j].completed) == tasks[j]
    ensures forall j :: 0 <= j < |tasks| ==>
      (r[j].completed != tasks[j].completed <==>
         tasks[j].id == id && forall k :: 0 <= k < j ==> tasks[k].id != id)
  {
    match FindFirst(tasks, HasId(id))
    case None => tasks
    case Some(i) => tasks[i := tasks[i].(completed := !tasks[i].completed)]
  }

  /** Toggling an id that no task has leaves the list as it was. */
  lemma ToggleAbsentIsNoOp(tasks: seq<Task>, id: int)
    requires forall i :: 0 <= i < |tasks| ==> tasks[i].id != id
    ensures Toggled(tasks, id) == tasks
  {
    var r := Toggled(tasks, id);
    forall j | 0 <= j < |tasks| ensures r[j] == tasks[j] {
      assert r[j].completed == tasks[j].completed;
      assert r[j] == r[j].(completed := tasks[j].completed);
    }
  }

  /** Toggling the same id twice restores the list. */
  lemma ToggleTwiceRestores(tasks: seq<Task>, id: int)
    ensures Toggled(Toggled(tasks, id), id) == tasks
  {
    var r := Toggled(tasks, id);
    var r2 := Toggled(r, id);
    forall j | 0 <= j < |tasks| ensures r2[j] == tasks[j] {
      assert forall k :: 0 <= k < |tasks| ==> r[k].id == tasks[k].id;
      assert r2[j].completed == tasks[j].completed;
      assert r2[j] == r2[j].(completed := tasks[j].completed);
    }
  }

  /** The comparator key of the task list: `completed` read as 0 or 1. */
  function CompletedKey(t: Task): int {
    if t.completed then 1 else 0
  }

  /** The order the list is shown in: sorted by CompletedKey. */
  function DisplayOrder(tasks: seq<Task>): seq<Task> {
    SortBy(tasks, CompletedKey)
  }

  /** Inserting a task into pending-then-completed tasks puts it last among
      the tasks with the same flag. */
  lemma InsertByCompleted(x: Task, pending: seq<Task>, done: seq<Task>)
    requires forall i :: 0 <= i < |pending| ==> !pending[i].completed
    requires forall i :: 0 <= i < |done| ==> done[i].completed
    ensures InsertBy(x, pending + done, CompletedKey)
         == if x.completed then pending + ([x] + done) else [x] + pending + done
  {
    if x.completed {
      InsertBetween(x, pending, done, CompletedKey);
      assert pending + [x] + done == pending + ([x] + done);
    } else {
      var rest := pending + done;
      assert rest == [] || CompletedKey(x) <= CompletedKey(rest[0]);
      assert InsertBy(x, rest, CompletedKey) == [x] + rest;
      assert [x] + rest == [x] + pending + done;
    }
  }

  /** The display order is the pending tasks in list order followed by the
      completed tasks in list order. */
  lemma {:induction false} DisplayOrderSplit(tasks: seq<Task>)
    ensures DisplayOrder(tasks) == Filter(tasks, IsPending) + Filter(tasks, IsDone)
  {
    if tasks != [] {
      var x, rest := tasks[0], tasks[1..];
      var pending, done := Filter(rest, IsPending), Filter(rest, IsDone);
      assert tasks == [x] + rest;
      assert DisplayOrder(tasks) == InsertBy(x, pending + done, CompletedKey) by {
        DisplayOrderSplit(rest);
      }
      assert InsertBy(x, pending + done, CompletedKey)
          == if x.completed then pending + ([x] + done) else [x] + pending + done by {
        InsertByCompleted(x, pending, done);
      }
      assert Filter(tasks, IsPending) == (if x.completed then [] else [x]) + pending
                 && Filter(tasks, IsDone) == (if x.completed then [x] else []) + done by {
        FilterCons(x, rest, IsPending);
        FilterCons(x, rest, IsDone);
      }
      if x.completed {
        assert Filter(tasks, IsPending) == pending;
        assert Filter(tasks, IsDone) == [x] + done;
      } else {
        assert Filter(tasks, IsPending) == [x] + pending;
        assert Filter(tasks, IsDone) == done;
      }
    }
  }

  /** The display order holds every task exactly as often as the list does,
      puts no completed task before a pending one, and keeps the pending tasks
      and the completed tasks each in list order. */
  lemma DisplayOrderIsStablePartition(tasks: seq<Task>)
    ensures multiset(DisplayOrder(tasks)) == multiset(tasks)
    ensures forall i, j :: 0 <= i < j < |DisplayOrder(tasks)| && DisplayOrder(tasks)[i].completed
              ==> DisplayOrder(tasks)[j].completed
    ensures Filter(DisplayOrder(tasks), IsPending) == Filter(tasks, IsPending)
    ensures Filter(DisplayOrder(tasks), IsDone) == Filter(tasks, IsDone)
  {
    var r := DisplayOrder(tasks);
    assert forall i, j :: 0 <= i < j < |r| ==> CompletedKey(r[i]) <= CompletedKey(r[j]);
    DisplayOrderSplit(tasks);
    FilterConcat(Filter(tasks, IsPending), Filter(tasks, IsDone), IsPending);
    FilterConcat(Filter(tasks, IsPending), Filter(tasks, IsDone), IsDone);
    FilterKeepsAll(Filter(tasks, IsPending), IsPending);
    FilterKeepsAll(Filter(tasks, IsDone), IsDone);
    NoneKept(Filter(tasks, IsPending), IsDone);
    NoneKept(Filter(tasks, IsDone), IsPending);
  }
}
