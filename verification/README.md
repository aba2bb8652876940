# AI Planner — task store, study-plan generator and user registry in Dafny

This project models the decision logic of a small browser study planner. The logic has two parts.

- **Planner page (`script.js`).** A signed-in user keeps a list of tasks. Each task has an id, a name, a due date, a difficulty rating with its label, and a completion flag. Three handlers change the list: add, delete and toggle completion. The list is shown with the tasks still to do first. The "generate plan" button works on the tasks still to do:
  - it counts the days left for each one;
  - it gives each a priority score, days left minus a tenth of the difficulty;
  - it sorts by score, ascending;
  - it gives each task a tier (Urgent, High, Medium, Low) and a recommendation sentence through a first-match rules table;
  - it may add a sentence for hard tasks.
- **Login page (`login.js`).** A list of accounts. Sign-up appends a trimmed username and password when both are given and the name is free. Login records the signed-in user when an account matches both fields.

Modules:

- `Seqs` (`seqs.dfy`): `Option`, plus `Filter`, `FindFirst` and `Map`, the models of `Array.prototype.filter`, `find` and `map`.
- `Text` (`text.dfy`): `String.prototype.trim` over the ECMAScript white-space and line-terminator characters, and the decimal text a template literal gives a non-negative integer.
- `StableSort` (`stable_sort.dfy`): `Array.prototype.sort` with a numeric comparator. The language requires this sort to be stable, so it is modelled as insertion sort by an integer key. A lemma proves that every stable sort gives this same result.
- `Tasks` (`tasks.dfy`): the task record and the pure list operations behind the handlers (delete, toggle, display order).
- `StudyPlan` (`study_plan.dfy`): the plan generator as functions and lemmas.
- `Planner` (`planner.dfy`): class `TaskStore`. It holds the mutable task list, and its methods are the handlers.
- `Accounts` (`accounts.dfy`): the sign-up and login decisions, and class `AccountStore` holding the registry and the signed-in user.

Modelling choices:

- **Dates** are whole day numbers, counted from 1 January 1970; day 19732 is 10 January 2024. `today` is a parameter.
- **The score** `daysRemaining - difficulty / 10` is kept exactly, scaled by ten: `scoreTenths = 10 * daysRemaining - difficulty`. The tests `score <= 3` and `score <= 7` become `scoreTenths <= 30` and `scoreTenths <= 70`.
- **An empty date field** is `None` in `AddTask`'s `Option<int>` parameter.
- **Task ids** come from the clock in the source, so here they are parameters.

The hard-task sentence is added only in two tiers. A task gets it when its difficulty is 5 and it has more than three days left. Such a task scores at least 3.5, so its tier is always Medium or Low, never Urgent or High (`StudyPlan.HardTaskAdviceOnlyMediumOrLow`). So although the hard-task rule is applied after the tier, it never combines with Urgent or High.

The difficulty is not validated: `addTask` stores whatever the select box parsed to, and so does `AddTask`. Lemmas that need a rating from 1 to 5 say so in their requires.

## Model

| member | source | states |
|---|---|---|
| Seqs.Filter | script.js:131 | every kept element passes the test, and the result is no longer than the input |
| Seqs.FilterMembers | script.js:131 | the result holds only elements of the input, and every element of the input that passes the test |
| Seqs.FindFirst | script.js:140 | `find`: the index of the first element that passes the test, or None exactly when none passes |
| Seqs.Map | script.js:169-179 | the result has one image per element, in the same order |
| Text.Trim | script.js:57 | `trim`: the result is the slice after the leading spaces and does not start or end with a space; everything cut off after it is space; it is empty exactly when the input is all spaces |
| Text.TrimIdempotent | login.js:39-40 | trimming an already trimmed field changes nothing, so stored names and passwords are fixed points of trim |
| Text.NatToDecimal | script.js:199 | the days count in the High sentence is a non-empty digit string with no leading zero that reads back as the number |
| StableSort.SortBy | script.js:182 | the sorted sequence is a permutation of the input, ordered by ascending key |
| StableSort.SortByStable | script.js:182 | elements with equal keys leave the sort in the order they came in |
| StableSort.StableSortIsUnique | script.js:89 | any sorted permutation that keeps every class of equal keys in input order equals SortBy's result, so the model fits every conforming engine |
| Tasks.WithoutId | script.js:131 | no contract of its own; `DeleteRemovesExactlyThatId`, `DeleteKeepsOrder` and `DeleteAbsentIsNoOp` characterise it |
| Tasks.DeleteRemovesExactlyThatId | script.js:129-131 | deleting removes every occurrence of a task with that id and keeps every other task as often as it was there |
| Tasks.DeleteKeepsOrder | script.js:131 | deleting acts on each part of the list separately, so the remaining tasks keep their order |
| Tasks.DeleteAbsentIsNoOp | script.js:131 | deleting an id no task has leaves the list unchanged |
| Tasks.DeleteUndoesAdd | script.js:67-76 | deleting a task just appended under a fresh id gives back the list before the add |
| Tasks.Toggled | script.js:138-144 | toggling keeps the length and every field except `completed`, and flips `completed` exactly on the first task with the id |
| Tasks.ToggleAbsentIsNoOp | script.js:140-144 | toggling an id no task has leaves the list unchanged |
| Tasks.ToggleTwiceRestores | script.js:138-144 | toggling the same id twice restores the list |
| Tasks.DisplayOrder | script.js:89 | no contract of its own; `DisplayOrderSplit` and `DisplayOrderIsStablePartition` characterise it |
| Tasks.DisplayOrderSplit | script.js:88-89 | the display order is the pending tasks in list order followed by the completed tasks in list order |
| Tasks.DisplayOrderIsStablePartition | script.js:88-89 | the display order is a permutation of the list, with no completed task before a pending one and both groups in list order |
| StudyPlan.DaysRemaining | script.js:166-173 | the days left never go below zero: the day difference when the due day is not past, and zero for a task due today or overdue |
| StudyPlan.DaysRemainingAsWritten | script.js:166-173 | no contract of its own; the computation from the clock at a fixed offset, characterised by `AsWrittenCountsCalendarDaysEastOfUtc` and `AsWrittenCountsOneDayEarlyWestOfUtc` |
| StudyPlan.AsWrittenCountsCalendarDaysEastOfUtc | script.js:166-173 | at a fixed offset at UTC or east of it, the computation from the clock equals the calendar count from the local day |
| StudyPlan.AsWrittenCountsOneDayEarlyWestOfUtc | script.js:170-173 | at a fixed offset west of UTC, the computation from the clock counts every due date one day early |
| StudyPlan.ExampleWestOfUtcCountsOneDayEarly | script.js:166-173 | at noon in UTC-5, a task due in two calendar days is counted as one day away and made Urgent instead of High |
| StudyPlan.Annotate | script.js:169-179 | no contract of its own; `PlanItemsFollowRules` shows every plan entry is its task annotated this way, and `FewerDaysSmallerScore` and `DifficultyWeighsLessThanADay` characterise the score |
| StudyPlan.FewerDaysSmallerScore | script.js:176 | for equal difficulty, fewer days left gives a strictly smaller score |
| StudyPlan.DifficultyWeighsLessThanADay | script.js:176 | with ratings 1 to 5 and the same due date, two scores differ by less than half a day |
| StudyPlan.EqualScoresMeanEqualDaysAndDifficulty | script.js:176-182 | with ratings 1 to 5, equal scores force equal days left and equal difficulty, so sorting by the float score and by `scoreTenths` agree, ties included |
| StudyPlan.TierOf | script.js:192-208 | no contract of its own; `TierByDaysLeft` gives the tier from the days left, and `HardTaskAdviceOnlyMediumOrLow` bounds it for hard tasks |
| StudyPlan.TierLabel | script.js:193-205 | no contract of its own; the heading text shown for each tier, `URGENT`, `High Priority`, `Medium Priority` or `Low Priority` |
| StudyPlan.TierLabelsDistinct | script.js:193-205 | the four headings are pairwise different, so the tier a plan entry keeps determines its heading and the heading determines the tier |
| StudyPlan.TierByDaysLeft | script.js:192-208 | with ratings 1 to 5 the tier depends on the days left alone: at most 1 Urgent, 2-3 High, 4-7 Medium, 8 or more Low, each an if-and-only-if |
| StudyPlan.BaseRecommendation | script.js:192-208 | no contract of its own; the fixed sentence of each tier, the High one quoting the days left through `Text.NatToDecimal`; `RecommendationShape` and the worked examples characterise it |
| StudyPlan.Advise | script.js:185-213 | no contract of its own; `RecommendationShape` and `HardTaskAdviceOnlyMediumOrLow` characterise it |
| StudyPlan.RecommendationShape | script.js:192-213 | the tier's sentence is a prefix of the recommendation; the hard-task sentence follows it exactly when difficulty is 5 and more than 3 days are left |
| StudyPlan.HardTaskAdviceOnlyMediumOrLow | script.js:196-213 | a task that gets the hard-task sentence is always Medium or Low |
| StudyPlan.Plan | script.js:157-213 | no contract of its own; `PlanCoversPendingTasks`, `PlanItemsFollowRules`, `PlanSortedByScore`, `PlanKeepsTiesInListOrder` and `PlanFewerDaysFirst` characterise it, and `StableSort.StableSortIsUnique` makes it the only order those allow |
| StudyPlan.PlanCoversPendingTasks | script.js:158-163 | the plan holds exactly the incomplete tasks, each as often as in the list, and is empty exactly when every task is completed |
| StudyPlan.PlanItemsFollowRules | script.js:169-213 | every plan entry is an incomplete task with the days and score computed from it, and the tier and text the rules give it |
| StudyPlan.PlanSortedByScore | script.js:182 | the plan is in ascending score order |
| StudyPlan.PlanKeepsTiesInListOrder | script.js:182 | entries with equal scores keep the order their tasks have in the list |
| StudyPlan.PlanFewerDaysFirst | script.js:176-182 | with ratings 1 to 5, a task with fewer days left comes before one with more |
| StudyPlan.ExampleDueTomorrow | script.js:192-195 | on 10 January 2024, a task due on the 11th is Urgent whatever its difficulty, and so whatever its score |
| StudyPlan.ExampleHardTaskDueSoon | script.js:196-199 | a difficulty-5 task due in two days scores 1.5, is High with "2 days left", and gets no hard-task sentence |
| StudyPlan.ExampleHardTaskDueLater | script.js:204-213 | a difficulty-5 task due in ten days scores 9.5, is Low, and gets the hard-task sentence |
| Planner.TaskStore.constructor | script.js:40-47 | the store starts from the saved list |
| Planner.TaskStore.AddTask | script.js:56-83 | it adds exactly when the trimmed name and the date are both present; then it appends one task with the trimmed name, the date, the difficulty and its label, not completed, and otherwise leaves the list unchanged; it keeps names trimmed and keeps ids unique when the new id is fresh |
| Planner.TaskStore.DeleteTask | script.js:129-136 | the new list is the old one filtered by id; trimmed names and unique ids are kept |
| Planner.TaskStore.ToggleComplete | script.js:138-149 | the new list is Toggled of the old one; trimmed names and unique ids are kept |
| Planner.TaskStore.GeneratePlan | script.js:157-224 | the entries built one by one in ranked order are exactly the plan function's, which the StudyPlan lemmas characterise |
| Accounts.SignUpOutcomeFor | login.js:38-57 | sign-up refuses when a trimmed field is empty, refuses a name that is already registered, and creates otherwise, each an if-and-only-if |
| Accounts.LoginOutcomeFor | login.js:68-94 | login refuses when a trimmed field is empty, and succeeds exactly when an account has both trimmed fields |
| Accounts.SignedUp | login.js:51-57 | no contract of its own; `SignUpKeepsUsersUnique`, `SignUpOnlyAppends` and `LoginAfterSignUp` characterise it |
| Accounts.SignUpKeepsUsersUnique | login.js:51-57 | if usernames are unique before a sign-up, they are unique after it |
| Accounts.SignUpOnlyAppends | login.js:57 | existing entries are unchanged, and exactly one entry is added when sign-up succeeds |
| Accounts.LoginAfterSignUp | login.js:57-86 | after a successful sign-up, logging in with the same fields succeeds |
| Accounts.LoggedInNameIsTaken | login.js:51-81 | a name that can log in cannot be signed up again, whatever the password |
| Accounts.LoginChecksStoredPassword | login.js:81-83 | with unique names, login succeeds exactly when the password equals the one stored under that name |
| Accounts.AccountStore.constructor | login.js:48 | the store starts from the saved registry and signed-in user |
| Accounts.AccountStore.SignUp | login.js:38-65 | the outcome is the sign-up decision; the new registry is `SignedUp` of the old one, which gains the trimmed pair exactly when an account is created and is otherwise unchanged; unique names stay unique |
| Accounts.AccountStore.Login | login.js:68-95 | the outcome is the login decision; the signed-in user becomes the trimmed name exactly on success and is otherwise unchanged |

## Findings

| source | as written | input that shows it | evidently intended | confidence | as-written member | corrected member |
|---|---|---|---|---|---|---|
| script.js:170-173 | `new Date('YYYY-MM-DD')` reads the due date as midnight UTC. `setHours(0, 0, 0, 0)` then moves it to local midnight. At a fixed offset west of UTC that is the previous local day. | A fixed time zone of UTC-5 at noon on 10 January 2024, with a task due 12 January and difficulty 5. It is counted as 1 day left and shown as Urgent ("Due tomorrow!"), where 2 days and High are meant. | Days left is the calendar difference between the due day and the local day of today. | high, by reading the code (not executed) | StudyPlan.AsWrittenCountsOneDayEarlyWestOfUtc | StudyPlan.DaysRemaining |

The rest of the model takes `today` as the local calendar day. It counts days with `StudyPlan.DaysRemaining`, the corrected calendar difference.

## Left out

- Page rendering is not modelled: element lookups, `innerHTML` markup, event wiring, alerts, redirects, the sign-up/login form toggles, the plan placeholder texts, `priorityClass` CSS classes and the difficulty tag markup. A plan entry keeps its tier; `StudyPlan.TierLabel` gives the heading text.
- `localStorage` and JSON are not modelled. Saving, loading and parsing of the task list, the user list and the signed-in user are replaced by the stores' fields.
- The logout handler and the redirect check at the top of script.js are not modelled. Both only read or remove the stored user name.
- `Date` parsing, time zones and daylight saving are outside the main model, which takes day numbers. `StudyPlan.DaysRemainingAsWritten` models only a fixed offset without daylight saving, to state the finding above.
- StudyPlan.DaysRemainingAsWritten: does not model daylight saving. Across an autumn clock change the two local midnights are a whole number of days plus one hour apart, and the `Math.ceil` at script.js:173 adds a day. For example, in Berlin with today 25 October 2024 and a task due 28 October, the count would be 4 (Medium) instead of 3 (High). This is by reading the code only.
- Floating point is not modelled. The score is the exact integer `scoreTenths`, and the exactness holds for ratings from 1 to 5 only.
  - For those ratings the rounding of `daysRemaining - difficulty / 10` cannot change a comparison against 3 or 7.
  - The plan order also rests on the comparator `a.priorityScore - b.priorityScore` (script.js:182) agreeing with `scoreTenths`, ties included. It does for those ratings: distinct scores are at least 0.1 apart, and equal scores mean equal days and equal difficulty (`StudyPlan.EqualScoresMeanEqualDaysAndDifficulty`), hence equal doubles.
  - For other ratings it can fail: 3 - 2.7 and 1 - 0.7 are equal as reals but differ as doubles.
- `Date.now()` as the id source is a clock call. The id is a parameter, and unique ids are kept only under the stated fresh-id hypothesis.
- Reading the id back with `Number(getAttribute('data-id'))` is assumed to give the id, which holds for the integer ids the clock produces.
- `parseInt` of the select box value is not modelled. The difficulty arrives as an integer and its label as an opaque string.
- Object identity is not modelled. `toggleComplete` flips the flag on the found object in place; the model replaces that element of the sequence, which is the same change since no other reference to the task is used afterwards.
- The login and sign-up user lists are re-read from storage on every click. The model keeps one registry that the sign-up method updates, assuming nothing else writes the storage between clicks.
