/** The study-plan generator of the planner page (script.js, `generatePlan`):
    it keeps the tasks still to do, works out for each how many days are left
    and a priority score, sorts by that score, and gives each task a priority
    tier and a recommendation sentence by a first-match rules table. */
module StudyPlan {
  import opened Seqs
  import opened StableSort
  import opened Tasks
  import Text

  datatype Tier = Urgent | High | Medium | Low

  /** A pending task with the two values worked out for it. The priority score
      `daysRemaining - difficulty / 10` is kept exactly, scaled by ten, as
      `scoreTenths == 10 * daysRemaining - difficulty`. */
  datatype Planned = Planned(task: Task, daysRemaining: nat, scoreTenths: int)

  /** One entry of the plan as it is shown: the task, its tier and its advice. */
  datatype PlanItem = PlanItem(entry: Planned, tier: Tier, recommendation: string)

  /** Whole days from `today` to `dueDate`, both day numbers; an overdue task
      and a task due today both have none left. */
  function DaysRemaining(dueDate: int, today: int): (d: nat)
    ensures today <= dueDate ==> d == dueDate - today
    ensures dueDate <= today ==> d == 0
  {
    var diff := dueDate - today;
    if diff < 0 then 0 else diff
  }

  const MsPerDay: int := 86400000
  const MsPerHour: int := 3600000

  /** The local calendar day of an instant (milliseconds since 1970-01-01 UTC)
      in a time zone `offsetMs` ahead of UTC, without daylight saving; moving
      the instant to local midnight with `setHours(0, 0, 0, 0)` keeps this day. */
  function LocalDay(instantMs: int, offsetMs: int): int {
    (instantMs + offsetMs) / MsPerDay
  }

  /** The days left as script.js works them out from the clock: the date
      field's text is read as midnight UTC of day `dueDate`, then that instant
      and the clock reading `nowMs` are both moved to local midnight. The two
      midnights are whole days apart, so rounding their difference up changes
      nothing. */
  function DaysRemainingAsWritten(dueDate: int, nowMs: int, offsetMs: int): nat {
    DaysRemaining(LocalDay(dueDate * MsPerDay, offsetMs), LocalDay(nowMs, offsetMs))
  }

  /** At UTC and east of it, the computation counts calendar days from the
      local day of the clock reading. */
  lemma AsWrittenCountsCalendarDaysEastOfUtc(dueDate: int, nowMs: int, offsetMs: int)
    requires 0 <= offsetMs < MsPerDay
    ensures DaysRemainingAsWritten(dueDate, nowMs, offsetMs) == DaysRemaining(dueDate, LocalDay(nowMs, offsetMs))
  {
    assert dueDate * MsPerDay <= dueDate * MsPerDay + offsetMs < (dueDate + 1) * MsPerDay;
    assert LocalDay(dueDate * MsPerDay, offsetMs) == dueDate;
  }

  /** West of UTC every due date is read as the day before, so each task is
      counted one day closer than the calendar says. */
  lemma AsWrittenCountsOneDayEarlyWestOfUtc(dueDate: int, nowMs: int, offsetMs: int)
    requires -MsPerDay < offsetMs < 0
    ensures DaysRemainingAsWritten(dueDate, nowMs, offsetMs) == DaysRemaining(dueDate - 1, LocalDay(nowMs, offsetMs))
  {
    assert (dueDate - 1) * MsPerDay <= dueDate * MsPerDay + offsetMs < dueDate * MsPerDay;
    assert LocalDay(dueDate * MsPerDay, offsetMs) == dueDate - 1;
  }

  /** Worked example in New York (UTC-5) at noon on 10 January 2024: a task due
      12 January has two calendar days left and is High, but the computation
      from the clock finds one day left, which makes it Urgent. */
  lemma ExampleWestOfUtcCountsOneDayEarly()
    ensures var nowMs, offsetMs := 19732 * MsPerDay + 17 * MsPerHour, -5 * MsPerHour;
      var t := Task(2, "B", 19734, 5, "Hard", false);
      var d := DaysRemainingAsWritten(t.dueDate, nowMs, offsetMs);
      && LocalDay(nowMs, offsetMs) == 19732
      && d == 1
      && TierOf(Planned(t, d, 10 * d - t.difficulty)) == Urgent
      && TierOf(Annotate(t, 19732)) == High
  {
    var nowMs, offsetMs := 19732 * MsPerDay + 17 * MsPerHour, -5 * MsPerHour;
    assert LocalDay(nowMs, offsetMs) == 19732;
    AsWrittenCountsOneDayEarlyWestOfUtc(19734, nowMs, offsetMs);
  }

  function Annotate(t: Task, today: int): Planned {
    var d := DaysRemaining(t.dueDate, today);
    Planned(t, d, 10 * d - t.difficulty)
  }

  /** For equal difficulty, a task with fewer days left has a strictly smaller score. */
  lemma FewerDaysSmallerScore(t1: Task, t2: Task, today: int)
    requires t1.difficulty == t2.difficulty
    requires DaysRemaining(t1.dueDate, today) < DaysRemaining(t2.dueDate, today)
    ensures Annotate(t1, today).scoreTenths < Annotate(t2, today).scoreTenths
  {
  }

  /** With ratings from 1 to 5, difficulty moves the score by less than half a
      day, so it never outweighs a whole day of difference. */
  lemma DifficultyWeighsLessThanADay(t1: Task, t2: Task, today: int)
    requires 1 <= t1.difficulty <= 5 && 1 <= t2.difficulty <= 5
    requires t1.dueDate == t2.dueDate
    ensures -5 < Annotate(t1, today).scoreTenths - Annotate(t2, today).scoreTenths < 5
  {
  }

  /** With ratings from 1 to 5, two tasks have equal scores only when they have
      the same days left and the same difficulty, so a comparator on the
      floating-point score and one on `scoreTenths` agree, ties included. */
  lemma EqualScoresMeanEqualDaysAndDifficulty(t1: Task, t2: Task, today: int)
    requires 1 <= t1.difficulty <= 5 && 1 <= t2.difficulty <= 5
    requires Annotate(t1, today).scoreTenths == Annotate(t2, today).scoreTenths
    ensures Annotate(t1, today).daysRemaining == Annotate(t2, today).daysRemaining
    ensures t1.difficulty == t2.difficulty
  {
  }

  /** The rules table, first match wins. */
  function TierOf(p: Planned): Tier {
    if p.daysRemaining <= 1 then Urgent
    else if p.scoreTenths <= 30 then High
    else if p.scoreTenths <= 70 then Medium
    else Low
  }

  /** The heading each tier is shown under. */
  function TierLabel(tier: Tier): string {
    match tier
    case Urgent => "URGENT"
    case High => "High Priority"
    case Medium => "Medium Priority"
    case Low => "Low Priority"
  }

  /** Different tiers are shown under different headings, so the tier a plan
      entry keeps determines its heading and the heading determines the tier. */
  lemma TierLabelsDistinct(a: Tier, b: Tier)
    ensures TierLabel(a) == TierLabel(b) <==> a == b
  {
    if a != b {
      assert TierLabel(a)[0] != TierLabel(b)[0];
    }
  }

  /** The sentence each tier starts its recommendation with; the High one
      quotes the number of days left. */
  function BaseRecommendation(p: Planned): string {
    match TierOf(p)
    case Urgent => UrgentAdvice
    case High => HighAdviceOpening + Text.NatToDecimal(p.daysRemaining) + HighAdviceClosing
    case Medium => MediumAdvice
    case Low => LowAdvice
  }

  const UrgentAdvice: string :=
    "Due tomorrow! You must focus on this **immediately** before starting anything else."
  const HighAdviceOpening: string := "This task is high priority ("
  const HighAdviceClosing: string := " days left). Dedicate a substantial study block to this today."
  const MediumAdvice: string :=
    "You have time. Break this task into 2-3 manageable chunks and start the first one today."
  const LowAdvice: string :=
    "You have plenty of time. Schedule a short, initial review session this week to gather materials."

  const HardTaskAdvice: string :=
    " Since this is a **Hard** task, the AI advises you to budget for extra time and break it into 3-4 smaller parts."

  /** The specialised advice rule, applied after the tier is chosen. */
  predicate NeedsHardTaskAdvice(p: Planned) {
    p.task.difficulty == 5 && p.daysRemaining > 3
  }

  /** The rules engine for one task. */
  function Advise(p: Planned): PlanItem {
    var extra := if NeedsHardTaskAdvice(p) then HardTaskAdvice else "";
    PlanItem(p, TierOf(p), BaseRecommendation(p) + extra)
  }

  /** The tier depends on the days left alone when the difficulty is a rating
      from 1 to 5: at most one day is Urgent, two or three High, four to seven
      Medium, and eight or more Low. */
  lemma TierByDaysLeft(t: Task, today: int)
    requires 1 <= t.difficulty <= 5
    ensures var p := Annotate(t, today);
      && (TierOf(p) == Urgent <==> p.daysRemaining <= 1)
      && (TierOf(p) == High <==> 2 <= p.daysRemaining <= 3)
      && (TierOf(p) == Medium <==> 4 <= p.daysRemaining <= 7)
      && (TierOf(p) == Low <==> 8 <= p.daysRemaining)
  {
  }

  /** The recommendation is the tier's sentence, followed by the hard-task
      sentence exactly when the task has difficulty 5 and more than three days
      left. */
  lemma RecommendationShape(p: Planned)
    ensures BaseRecommendation(p) <= Advise(p).recommendation
    ensures Advise(p).recommendation == BaseRecommendation(p) + HardTaskAdvice
        <==> p.task.difficulty == 5 && p.daysRemaining > 3
    ensures !NeedsHardTaskAdvice(p) ==> Advise(p).recommendation == BaseRecommendation(p)
  {
    if !NeedsHardTaskAdvice(p) {
      assert |BaseRecommendation(p) + HardTaskAdvice| > |Advise(p).recommendation|;
    }
  }

  /** The hard-task sentence never accompanies an Urgent or High task: a
      difficulty-5 task with more than three days left scores at least 3.5. */
  lemma HardTaskAdviceOnlyMediumOrLow(t: Task, today: int)
    requires NeedsHardTaskAdvice(Annotate(t, today))
    ensures TierOf(Annotate(t, today)) == Medium || TierOf(Annotate(t, today)) == Low
  {
  }

  function ScoreOf(p: Planned): int {
    p.scoreTenths
  }

  function ItemEntry(item: PlanItem): Planned {
    item.entry
  }

  function ItemTask(item: PlanItem): Task {
    item.entry.task
  }

  function PlannedTask(p: Planned): Task {
    p.task
  }

  function AnnotateAll(pending: seq<Task>, today: int): seq<Planned> {
    Map((t: Task) => Annotate(t, today), pending)
  }

  /** The pending tasks, annotated and sorted by ascending score. */
  function Ranked(pending: seq<Task>, today: int): seq<Planned> {
    SortBy(AnnotateAll(pending, today), ScoreOf)
  }

  /** The study plan for `tasks` on day `today`. */
  function Plan(tasks: seq<Task>, today: int): seq<PlanItem> {
    Map(Advise, Ranked(Incomplete(tasks), today))
  }

  /** The tasks of the plan, in plan order, are a permutation of the pending tasks. */
  lemma PlanPermutesPendingTasks(tasks: seq<Task>, today: int)
    ensures multiset(Map(ItemTask, Plan(tasks, today))) == multiset(Incomplete(tasks))
  {
    var pending := Incomplete(tasks);
    var annotated := AnnotateAll(pending, today);
    var ranked := Ranked(pending, today);
    assert Map(ItemTask, Plan(tasks, today)) == Map(PlannedTask, ranked);
    assert Map(PlannedTask, annotated) == pending;
    MapPermutation(PlannedTask, ranked, annotated);
  }

  /** No task is pending exactly when every task is completed. */
  lemma NothingPendingIffAllDone(tasks: seq<Task>)
    ensures Incomplete(tasks) == [] <==> forall i :: 0 <= i < |tasks| ==> tasks[i].completed
  {
    var pending := Incomplete(tasks);
    FilterMembers(tasks, IsPending);
    if pending != [] {
      var k :| 0 <= k < |tasks| && tasks[k] == pending[0];
      assert !tasks[k].completed;
    }
  }

  /** The plan holds exactly the pending tasks, each as often as it is in the
      list, so it is empty exactly when every task is completed. */
  lemma PlanCoversPendingTasks(tasks: seq<Task>, today: int)
    ensures |Plan(tasks, today)| == |Incomplete(tasks)|
    ensures multiset(Map(ItemTask, Plan(tasks, today))) == multiset(Incomplete(tasks))
    ensures Plan(tasks, today) == [] <==> forall i :: 0 <= i < |tasks| ==> tasks[i].completed
  {
    var ranked := Ranked(Incomplete(tasks), today);
    assert |Plan(tasks, today)| == |ranked| == |AnnotateAll(Incomplete(tasks), today)|;
    PlanPermutesPendingTasks(tasks, today);
    NothingPendingIffAllDone(tasks);
  }

  /** Each entry of the plan carries the days and score worked out from its own
      task, which is pending, and the tier and advice the rules give it. */
  lemma PlanItemsFollowRules(tasks: seq<Task>, today: int)
    ensures forall i :: 0 <= i < |Plan(tasks, today)| ==>
      var item := Plan(tasks, today)[i];
      && !item.entry.task.completed
      && item.entry == Annotate(item.entry.task, today)
      && item == Advise(item.entry)
  {
    var pending := Incomplete(tasks);
    var annotated := AnnotateAll(pending, today);
    var ranked := Ranked(pending, today);
    forall i | 0 <= i < |ranked|
      ensures !ranked[i].task.completed && ranked[i] == Annotate(ranked[i].task, today)
    {
      assert ranked[i] in multiset(annotated);
      var j :| 0 <= j < |annotated| && annotated[j] == ranked[i];
      assert IsPending(pending[j]);
    }
  }

  /** The plan is ordered by ascending priority score. */
  lemma PlanSortedByScore(tasks: seq<Task>, today: int)
    ensures forall i, j :: 0 <= i < j < |Plan(tasks, today)| ==>
      Plan(tasks, today)[i].entry.scoreTenths <= Plan(tasks, today)[j].entry.scoreTenths
  {
    var ranked := Ranked(Incomplete(tasks), today);
    assert forall i, j :: 0 <= i < j < |ranked| ==> ScoreOf(ranked[i]) <= ScoreOf(ranked[j]);
  }

  /** Tasks with equal scores stay in list order: the entries with score `k`
      appear in the plan in the order their tasks have among the pending ones. */
  lemma PlanKeepsTiesInListOrder(tasks: seq<Task>, today: int, k: int)
    ensures Filter(Map(ItemEntry, Plan(tasks, today)), KeyIs(ScoreOf, k))
         == Filter(AnnotateAll(Incomplete(tasks), today), KeyIs(ScoreOf, k))
  {
    var annotated := AnnotateAll(Incomplete(tasks), today);
    assert Map(ItemEntry, Plan(tasks, today)) == SortBy(annotated, ScoreOf);
    SortByStable(annotated, ScoreOf, k);
  }

  /** With ratings from 1 to 5, a task with fewer days left comes earlier in the
      plan than one with more. */
  lemma PlanFewerDaysFirst(tasks: seq<Task>, today: int)
    ensures forall i, j ::
      (0 <= i < |Plan(tasks, today)| && 0 <= j < |Plan(tasks, today)|
       && 1 <= Plan(tasks, today)[i].entry.task.difficulty <= 5
       && 1 <= Plan(tasks, today)[j].entry.task.difficulty <= 5
       && Plan(tasks, today)[i].entry.daysRemaining < Plan(tasks, today)[j].entry.daysRemaining)
      ==> i < j
  {
    var plan := Plan(tasks, today);
    PlanItemsFollowRules(tasks, today);
    PlanSortedByScore(tasks, today);
    forall i, j | 0 <= i < |plan| && 0 <= j < |plan|
      && 1 <= plan[i].entry.task.difficulty <= 5 && 1 <= plan[j].entry.task.difficulty <= 5
      && plan[i].entry.daysRemaining < plan[j].entry.daysRemaining
      ensures i < j
    {
      assert plan[i].entry.scoreTenths < plan[j].entry.scoreTenths;
    }
  }

  /** Worked example on 10 January 2024 (day 19732 counted from 1 January 1970):
      a task due the next day is Urgent whatever its difficulty, and so whatever
      its score. */
  lemma ExampleDueTomorrow(difficulty: int)
    ensures TierOf(Annotate(Task(1, "A", 19733, difficulty, "Medium", false), 19732)) == Urgent
  {
  }

  /** Worked example: a difficulty-5 task due in two days scores 1.5, is High, and
      gets no hard-task sentence since it has only two days left. */
  lemma ExampleHardTaskDueSoon()
    ensures var p := Annotate(Task(2, "B", 19734, 5, "Hard", false), 19732);
      && p.daysRemaining == 2 && p.scoreTenths == 15
      && Advise(p).tier == High
      && Advise(p).recommendation == BaseRecommendation(p)
      && BaseRecommendation(p) == "This task is high priority (" + "2" + " days left). Dedicate a substantial study block to this today."
  {
    assert Text.DigitChar(2) == '2';
  }

  /** Worked example: a difficulty-5 task due in ten days scores 9.5, is Low, and
      does get the hard-task sentence. */
  lemma ExampleHardTaskDueLater()
    ensures var p := Annotate(Task(3, "C", 19742, 5, "Hard", false), 19732);
      && p.daysRemaining == 10 && p.scoreTenths == 95
      && Advise(p).tier == Low
      && Advise(p).recommendation == BaseRecommendation(p) + HardTaskAdvice
  {
  }
}
