/** The planner page's task list (script.js): one mutable list of tasks, changed
    by the add, delete and toggle handlers and read by the plan generator. */
module Planner {
  import opened Seqs
  import opened Tasks
  import opened StableSort
  import opened StudyPlan
  import Text

  /** A task is kept only when its trimmed name and its due date are both given;
      the difficulty is not checked. */
  predicate AcceptsTask(rawName: string, dueDate: Option<int>) {
    Text.Trim(rawName) != [] && dueDate.Some?
  }

  class TaskStore {
    var tasks: seq<Task>

    /** Starts from the list loaded for the signed-in user. */
    constructor (saved: seq<Task>)
      ensures tasks == saved
    {
      tasks := saved;
    }

    /** `addTask`: appends a new, not yet completed task under the trimmed name,
        or leaves the list alone when the name or the due date is missing. */
    method AddTask(id: int, rawName: string, dueDate: Option<int>, difficulty: int, difficultyText: string)
      returns (added: bool)
      modifies this
      ensures added <==> AcceptsTask(rawName, dueDate)
      ensures tasks == if added
        then old(tasks) + [Task(id, Text.Trim(rawName), dueDate.value, difficulty, difficultyText, false)]
        else old(tasks)
      ensures AllNamed(old(tasks)) ==> AllNamed(tasks)
      ensures UniqueIds(old(tasks)) && (forall i :: 0 <= i < |old(tasks)| ==> old(tasks)[i].id != id)
              ==> UniqueIds(tasks)
    {
      var name := Text.Trim(rawName);
      if name == [] || dueDate.None? {
        return false;
      }
      Text.TrimIdempotent(rawName);
      tasks := tasks + [Task(id, name, dueDate.value, difficulty, difficultyText, false)];
      added := true;
    }

    /** `deleteTask`: drops every task with the given id. */
    method DeleteTask(id: int)
      modifies this
      ensures tasks == WithoutId(old(tasks), id)
      ensures AllNamed(old(tasks)) ==> AllNamed(tasks)
      ensures UniqueIds(old(tasks)) ==> UniqueIds(tasks)
    {
      FilterMembers(tasks, HasOtherId(id));
      if UniqueIds(tasks) {
        FilterKeepsUniqueIds(tasks, HasOtherId(id));
      }
      tasks := WithoutId(tasks, id);
    }

    /** `toggleComplete`: flips `completed` on the first task with the given id. */
    method ToggleComplete(id: int)
      modifies this
      ensures tasks == Toggled(old(tasks), id)
      ensures AllNamed(old(tasks)) ==> AllNamed(tasks)
      ensures UniqueIds(old(tasks)) ==> UniqueIds(tasks)
    {
      var found := FindFirst(tasks, HasId(id));
      if found.Some? {
        var i := found.value;
        tasks := tasks[i := tasks[i].(completed := !tasks[i].completed)];
      }
      assert forall j :: 0 <= j < |tasks| ==> tasks[j].id == old(tasks)[j].id && tasks[j].name == old(tasks)[j].name;
    }

    /** `generatePlan`: the plan for the list as it stands on day `today`, one
        entry per pending task, built in ranked order. */
    method GeneratePlan(today: int) returns (plan: seq<PlanItem>)
      ensures plan == Plan(tasks, today)
    {
      var toPlan := Incomplete(tasks);
      if |toPlan| == 0 {
        return [];
      }
      var ranked := SortBy(AnnotateAll(toPlan, today), ScoreOf);
      plan := [];
      var i := 0;
      while i < |ranked|
        invariant 0 <= i <= |ranked|
        invariant plan == Map(Advise, ranked[..i])
      {
        MapPrefixStep(Advise, ranked, i);
        plan := plan + [Advise(ranked[i])];
        i := i + 1;
      }
      assert ranked[..i] == ranked;
    }
  }
}
