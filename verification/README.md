# Workflow steps: a verified model

This project models the workflow-step logic of a browser-based task and business-process tracker. A
task or a process owns an ordered list of workflow steps. The model covers these parts:

- the page's step toggle, which flips one step of one task and keeps the task's completion timestamp in
  line with its steps (`Home`);
- adding a task and splitting the list into active and completed tasks (`Home`);
- the three step editors: the flowchart builder, the task form and the process form with its step
  builder. They add, remove and move steps and keep `order` dense, or in the task form's case do not
  (`FlowchartBuilder`, `TaskForm`, `ProcessBuilder`);
- the submit handlers, which turn the edited steps into workflow steps (`TaskForm.Submit`,
  `ProcessBuilder.Submit`);
- the derived figures the views show: completed counts, progress ratios, rounded percentages, the
  "complete" banners, the display order, the flowchart's connectors and the process status buttons
  (`FlowchartWorkflow`, `TaskCard`, `ProcessCard`, `Percent`).

Each source file has its own module. `Types` holds the entities of `types/index.ts`. `Steps` holds the
step-list operations that several components share: renumbering, removal by index, the submit mapping,
counts and the sort by `order`. `Text` models `String.prototype.trim`. `Percent` holds the progress
arithmetic. A step is its builder data (`StepData`: title, order, priority, estimate) plus id,
`completed` flag and optional status. This mirrors the source's `{ id, ...step, order, completed }`
spreads. Fresh ids and the current time are parameters.

Some behaviours of the code are easy to miss:

- For a task whose timestamp matches its steps (every task the page itself creates), toggling a step twice
  restores the steps. The completion timestamp comes back too, except when the task was fully complete and
  the step exists. Then the first toggle clears `completedAt` and the second sets a fresh "now"
  (`Home.ToggleTwice`). Tasks loaded from storage are not checked against this.
- The flowchart builder and the process step builder renumber after every removal. The task form's removal
  does not. The gaps it leaves (`TaskForm.RemoveLeavesGap`) are repaired only at submit.
- The task card's progress has no zero guard: its ratio is NaN for an empty workflow (`TaskCard.Progress`,
  see Findings).
- The flowchart builder's move handler does not parse as intended (see Findings). `FlowchartBuilder.MoveStep`
  is the swap it is evidently meant to perform; `FlowchartBuilder.MoveStepAsWritten` is the handler as written.
- `Math.round` rounds halves up. So the workflow view's label reads 100% with 199 of 200 steps done. The
  label is 100 exactly when every step is done only for workflows of fewer than 200 steps
  (`FlowchartWorkflow.ShownPercent`, `Percent.HundredWithOneStepLeft`).
- The process card counts steps whose `status` is 'completed', not steps whose `completed` flag is set.
  Toggling flags therefore never moves a process card's progress (`ProcessCard.ToggleLeavesProgress`),
  and a freshly submitted process shows 0% whatever its flags (`ProcessCard.NotStartedShowsZero`).

## Model

| member | source | states |
|---|---|---|
| Text.Trim | components/FlowchartBuilder.tsx:19-21 | the trimmed text is the input's slice that starts at the first non-whitespace character and is followed only by whitespace; it has no whitespace at either end and is empty exactly when the input is blank |
| Text.SkipSpaces | components/FlowchartBuilder.tsx:19 | the scan stops at the first non-whitespace character at or after the start, every character skipped being whitespace |
| Text.TrimIdempotent | components/FlowchartBuilder.tsx:19-21 | trimming twice gives the same text as trimming once |
| Home.ToggleWorkflow | app/page.tsx:40-42 | exactly the steps whose id matches have `completed` negated; ids, data, status and positions of all steps are unchanged |
| Home.ToggleTask | app/page.tsx:39-51 | after a toggle `completedAt` is present iff every step is completed; an existing timestamp is kept when all steps stay complete, `now` is set when it was absent; title, id, description and creation time unchanged |
| Home.ToggleStep | app/page.tsx:37-55 | only tasks whose id matches are updated (each then satisfies the completion invariant); every other task and the list order are unchanged |
| Home.ToggleUnknownStep | app/page.tsx:40-50 | a step id that names no step leaves the steps unchanged, and a consistent task comes back identical, old timestamp included |
| Home.ToggleEmptyWorkflow | app/page.tsx:44-50 | an empty workflow counts as complete, so a toggle leaves a timestamp: the old one or `now` |
| Home.CompletionInvariant | app/page.tsx:44-50 | a task is consistent when it has a completion timestamp exactly when its completed count equals its step count |
| Home.ToggleMovesCountByOne | app/page.tsx:40-42 | toggling a step whose id is unique lowers the completed count by one if it was completed and raises it by one if not |
| Home.ToggleWorkflowTwice | app/page.tsx:40-42 | flipping the same step id twice restores every step |
| Home.ToggleTwice | app/page.tsx:40-50 | for a task whose timestamp matches its steps (every task the page itself creates), toggling twice restores the steps; the timestamp is restored too unless the task was fully complete and the step exists, when it becomes the second toggle's `now` |
| Home.AddTask | app/page.tsx:28-35 | the new task gets the given id and creation time, no completion timestamp, and goes in front of the unchanged list |
| Home.ActiveTasks | app/page.tsx:57 | a task is listed iff it is in the list and has no completion timestamp |
| Home.CompletedTasks | app/page.tsx:58 | a task is listed iff it is in the list and has a completion timestamp |
| Home.PartitionTasks | app/page.tsx:57-58 | the active and completed lists together hold every task exactly as often as the list does; their lengths sum to the list's |
| Home.PartitionKeepsOrder | app/page.tsx:57-58 | both filters distribute over concatenation, so each keeps the list's order |
| Home.AddedTaskIsActive | app/page.tsx:34 | a newly added task heads the active list and leaves the completed list unchanged |
| Steps.Renumber | components/FlowchartBuilder.tsx:34 | the renumbered list is dense (order = index) and differs from the input only in the orders |
| Steps.RenumberDense | components/FlowchartBuilder.tsx:50 | renumbering an already dense list changes nothing |
| Steps.DenseShapeUnique | components/FlowchartBuilder.tsx:50 | two dense lists that agree on everything but the orders are equal |
| Steps.Append | components/ProcessBuilder.tsx:40-42 | one step appended with order equal to the old length; the old steps unchanged; density preserved |
| Steps.RemoveAt | components/FlowchartBuilder.tsx:33 | filtering out one index drops exactly that element (prefix then suffix); an index outside the list changes nothing |
| Steps.RemoveAtMultiset | components/ProcessBuilder.tsx:199 | removing an index takes exactly that element out of the multiset |
| Steps.RemoveAndRenumber | components/ProcessBuilder.tsx:44-46 | removal then renumbering: orders dense, one step fewer, the remaining steps in their old relative order |
| Steps.ToWorkflow | components/ProcessBuilder.tsx:63-69 | each workflow step i gets id `ids[i]`, order i and `completed = false` and keeps its builder data; the given status on every step |
| Steps.CountCompleted | components/TaskCard.tsx:12-13 | the completed count is at most the step count, equals it iff all steps are completed, is 0 iff none is, and is 1 for a single completed step |
| Steps.CountCompletedAppend | components/TaskCard.tsx:12 | the completed count of a concatenation is the sum of the counts |
| Steps.CountCompletedAround | components/TaskCard.tsx:12 | the completed count is the count before a position, plus one if the step there is completed, plus the count after it |
| Steps.CountStatus | components/ProcessCard.tsx:18 | the status count is at most the step count, equals it iff every step has the status, is 0 iff none has, and is 1 for a single step with the status |
| Steps.CountStatusAppend | components/ProcessCard.tsx:18 | the status count of a concatenation is the sum of the counts |
| Steps.CountStatusAround | components/ProcessCard.tsx:18 | the status count is the count before a position, plus one if the step there has the status, plus the count after it |
| Steps.SortByOrder | components/FlowchartWorkflow.tsx:12 | the sorted steps are ascending by order and a permutation of the input |
| Steps.SortSortedIdentity | components/FlowchartWorkflow.tsx:12 | sorting a list already in ascending order returns it unchanged |
| Steps.DenseDisplaysAsStored | components/TaskCard.tsx:46-48 | a densely ordered workflow is displayed in its stored order |
| Percent.RoundHalfUp | components/ProcessCard.tsx:74 | `Math.round(x)` is the integer r with r <= x + 1/2 < r + 1 |
| Percent.Ratio | components/ProcessCard.tsx:20 | the guarded ratio lies in [0, 100], is 100 iff the list is non-empty and fully counted, is 0 iff nothing is counted, and times the total equals 100 times the count |
| Percent.RoundedPercent | components/FlowchartWorkflow.tsx:161 | the integer percentage lies in [0, 100], is 0 for an empty list or no completed steps and 100 when all are completed |
| Percent.RoundedPercentIsRounding | components/FlowchartWorkflow.tsx:161 | `Math.round` of the exact ratio equals the integer reference floor((200c + t) / 2t) |
| Percent.HundredMeansAllDone | components/FlowchartWorkflow.tsx:161 | below 200 steps a rounded 100 means every step is completed |
| Percent.HundredWithOneStepLeft | components/FlowchartWorkflow.tsx:161 | from 200 steps on, one open step still rounds to 100 |
| FlowchartBuilder.AddStep | components/FlowchartBuilder.tsx:18-30 | a blank title is a no-op; otherwise exactly one step is appended with the trimmed title, chosen priority and estimate, and order = old length; density preserved |
| FlowchartBuilder.RemoveStep | components/FlowchartBuilder.tsx:32-36 | one step fewer, exactly the step at the index dropped, the rest in order, orders dense 0..n-2 |
| FlowchartBuilder.MoveStep | components/FlowchartBuilder.tsx:38-52 | the intended move: 'up' at the first and 'down' at the last index change nothing; otherwise the step and its neighbour change places, all else stays, and orders become 0..n-1 |
| FlowchartBuilder.MoveStepAsWritten | components/FlowchartBuilder.tsx:38-52 | the handler as written fails exactly on a non-ignored downward move, and whenever it commits, no step has changed place |
| FlowchartBuilder.MoveAsWrittenMissesSwap | components/FlowchartBuilder.tsx:44-47 | whenever the two steps a move should exchange differ, the handler as written does not produce the intended move |
| FlowchartBuilder.MoveAsWrittenExample | components/FlowchartBuilder.tsx:44-47 | on steps "a", "b" the intended upward move puts "b" first, the handler as written leaves the list as it was, and moving "a" down fails |
| FlowchartBuilder.Swap | components/FlowchartBuilder.tsx:47 | the two elements change places, every other element stays, the multiset is unchanged |
| FlowchartBuilder.MovePermutes | components/FlowchartBuilder.tsx:44-51 | the intended move is a permutation of the steps, orders aside |
| FlowchartBuilder.MoveUpThenDown | components/FlowchartBuilder.tsx:44-51 | with the intended move, moving a step up and back down gives the renumbered input, and a dense input exactly |
| FlowchartBuilder.TotalEstimatedTime | components/FlowchartBuilder.tsx:181 | the total is 0 when no step has an estimate and non-negative when no estimate is negative |
| FlowchartBuilder.TotalAppend | components/FlowchartBuilder.tsx:181 | the total of a concatenation is the sum of the totals |
| FlowchartBuilder.TotalIgnoresOrder | components/FlowchartBuilder.tsx:181 | the total depends only on the steps, not on their orders |
| FlowchartBuilder.TotalAfterAdd | components/FlowchartBuilder.tsx:18-26 | adding a step adds its estimate, absent counted as 0, to the total |
| FlowchartBuilder.TotalAfterRemove | components/FlowchartBuilder.tsx:32-36 | removing a step subtracts exactly its estimate from the total |
| FlowchartBuilder.TotalAfterMove | components/FlowchartBuilder.tsx:38-52 | the intended move leaves the total unchanged |
| TaskForm.AddStep | components/TaskForm.tsx:17-22 | a blank title is a no-op; otherwise exactly `{ trimmed title, order = old length }` is appended |
| TaskForm.RemoveStep | components/TaskForm.tsx:24-26 | exactly the step at the index is dropped and the others keep their old orders |
| TaskForm.RemoveLeavesGap | components/TaskForm.tsx:25 | removing any but the last step of a dense list leaves the orders not dense |
| Text.OptionalText | components/TaskForm.tsx:33 | a blank description becomes absent, any other the trimmed text |
| TaskForm.Submit | components/TaskForm.tsx:28-40 | submits iff the trimmed title is non-empty and there is a step; the workflow then has orders 0..n-1, the fresh ids and no step completed, whatever gaps removal left |
| TaskForm.SubmittedTaskStartsActive | components/TaskForm.tsx:34-39 | a task created from the form satisfies the completion invariant, has no completed step and heads the active list |
| ProcessBuilder.AddStakeholder | components/ProcessBuilder.tsx:26-31 | appends the trimmed name only if it is non-blank and not yet listed; a duplicate-free list stays duplicate-free |
| ProcessBuilder.AddObjective | components/ProcessBuilder.tsx:33-38 | appends any non-blank trimmed objective |
| ProcessBuilder.ObjectiveTwice | components/ProcessBuilder.tsx:33-38 | the same objective can be added twice |
| ProcessBuilder.RemoveStakeholder | components/ProcessBuilder.tsx:171 | every occurrence of the name is removed, and every other entry keeps its number of occurrences |
| ProcessBuilder.RemoveStakeholderAppend | components/ProcessBuilder.tsx:171 | the removal distributes over concatenation, so the remaining entries keep their order |
| ProcessBuilder.RemoveStakeholderExact | components/ProcessBuilder.tsx:171 | on a duplicate-free list the removal drops exactly one entry when the name is listed, and keeps the list duplicate-free |
| ProcessBuilder.RemoveObjective | components/ProcessBuilder.tsx:199 | only the entry at the index is removed and the others keep their order; an equal objective at another index stays |
| ProcessBuilder.AddBuiltStep | components/ProcessBuilder.tsx:241-261 | a blank title is a no-op; otherwise one step with the trimmed title, the estimate, priority 'medium' and order = old length is appended |
| ProcessBuilder.EditsKeepDense | components/ProcessBuilder.tsx:352 | any sequence of step-builder additions and removals keeps orders dense, and one removal makes them dense |
| ProcessBuilder.Submit | components/ProcessBuilder.tsx:48-70 | submits iff the trimmed name, the department, the owner and a step are present; the result is a 'draft' at version "1.0" with no tags, and each step gets order i, its id, `completed = false` and 'not-started' |
| ProcessBuilder.SubmitAcceptsSpaceOwner | components/ProcessBuilder.tsx:50 | department and owner are not trimmed: an owner of one space passes the guard |
| FlowchartWorkflow.DisplayOrder | components/FlowchartWorkflow.tsx:12 | the steps shown are ascending by order and a permutation of the workflow, and a dense workflow is shown as stored |
| FlowchartWorkflow.Layout | components/FlowchartWorkflow.tsx:26-125 | n steps draw as 2n-1 nodes: step k at position 2k, and after every step but the last a connector, green iff that step is completed |
| FlowchartWorkflow.ConnectorCount | components/FlowchartWorkflow.tsx:111 | a workflow of n steps has n-1 connectors |
| FlowchartWorkflow.Flowchart | components/FlowchartWorkflow.tsx:26 | the flowchart of n steps has 2n-1 nodes and every box shows a step of the workflow |
| FlowchartWorkflow.WorkflowComplete | components/FlowchartWorkflow.tsx:130-137 | the END node pulses and the completion message shows iff the completed count equals the step count, that is iff the list is empty or its ratio is 100 |
| FlowchartWorkflow.BarWidth | components/FlowchartWorkflow.tsx:156 | the bar width lies in [0, 100], is 100 iff the workflow is non-empty and complete, and 0 iff no step is completed; for a non-empty workflow it is completed / total · 100 |
| FlowchartWorkflow.ShownPercent | components/FlowchartWorkflow.tsx:161 | the label lies in [0, 100], is 0 for no steps, 100 when all are completed, and below 200 steps 100 only then |
| FlowchartWorkflow.ShownHundredWhileIncomplete | components/FlowchartWorkflow.tsx:161 | with 200 or more steps and one open, the label reads 100 while the workflow is not complete |
| TaskCard.Progress | components/TaskCard.tsx:12-14 | the unguarded ratio is NaN (absent) iff the workflow is empty; otherwise it lies in [0, 100], is 100 iff all steps are completed, and equals completed / total · 100 |
| TaskCard.GuardedProgress | components/TaskCard.tsx:14 | with a zero guard the ratio lies in [0, 100], is 0 for an empty workflow and otherwise agrees with the card's ratio, completed / total · 100 |
| TaskCard.EmptyCard | components/TaskCard.tsx:12-14 | a card without steps shows the "Task Completed!" banner while its progress is NaN |
| TaskCard.ShowsCompletedBanner | components/TaskCard.tsx:71 | the banner shows iff every step is completed; when the ratio is defined, iff it is 100 |
| TaskCard.BannerMatchesSection | components/TaskCard.tsx:71 | after any toggle on consistent tasks, a card shows the banner iff its task is among the completed tasks, and lacks it iff it is among the active ones |
| TaskCard.ListedSteps | components/TaskCard.tsx:46-48 | the steps are listed ascending by order, as a permutation of the workflow, and in stored order when dense |
| ProcessCard.CompletedSteps | components/ProcessCard.tsx:18 | the count is at most the step count, equals it iff every step has status 'completed', and is 0 iff none has |
| ProcessCard.StatusChangeMovesCount | components/ProcessCard.tsx:18 | setting one step's status moves the count by one: down if the step was 'completed', up if it becomes so, unchanged otherwise |
| ProcessCard.Progress | components/ProcessCard.tsx:20 | progress lies in [0, 100], is 100 iff the workflow is non-empty and every status is 'completed', 0 iff none is, and for a non-empty workflow equals completed / total · 100 with 'completed' statuses counted |
| ProcessCard.BarIsGreen | components/ProcessCard.tsx:84 | the bar is green iff the workflow is non-empty and every status is 'completed', and then the label reads 100 |
| ProcessCard.ShownPercent | components/ProcessCard.tsx:74 | the percentage lies in [0, 100] and equals the integer round-half-up of 100 times completed over total |
| ProcessCard.ProgressRoundsToReference | components/ProcessCard.tsx:74 | `Math.round` of the card's ratio equals the integer reference, 0 for an empty workflow |
| ProcessCard.CountStatusOnlyStatuses | components/ProcessCard.tsx:18 | the count depends only on the steps' statuses |
| ProcessCard.ToggleLeavesProgress | components/ProcessCard.tsx:18-20 | flipping `completed` flags never changes the process card's progress |
| ProcessCard.NotStartedShowsZero | components/ProcessCard.tsx:18-20 | a process whose steps are all 'not-started' shows 0% and no green bar, whatever its flags |
| ProcessCard.OfferedTransition | components/ProcessCard.tsx:136-160 | a button is offered iff the process is not archived, and it leads one step forward in draft → active → archived |
| ProcessCard.PressesMoveForward | components/ProcessCard.tsx:136-160 | n presses raise the lifecycle rank by n, capped at archived, which is never left |

`FlowchartBuilder.RemoveStep`, `Steps.RemoveAndRenumber` and the step builder's inline removal
(components/ProcessBuilder.tsx:352) are the same operation and share one definition.

## Findings

| source | as written | input that shows it | evidently intended | confidence | as-written member | corrected member |
|---|---|---|---|---|---|---|
| components/FlowchartBuilder.tsx:45-47 | the line computing the target index has no semicolon and the swap line starts with `[`, so the swap becomes part of the target index's initializer | steps "a", "b": moving "b" up leaves the list unchanged, and moving "a" down reads the target index before it is initialised and throws | a separate statement swapping the step with its neighbour | high, not executed | FlowchartBuilder.MoveAsWrittenExample | FlowchartBuilder.MoveStep |
| components/TaskCard.tsx:14 | `progress = (completedSteps / totalSteps) * 100` with no zero guard | a task with an empty workflow (loaded from storage): 0 / 0 is NaN and the bar width becomes `NaN%` | the zero guard the process card (ProcessCard.tsx:20) and the workflow view (FlowchartWorkflow.tsx:156) apply, giving 0 | medium, not executed | TaskCard.EmptyCard | TaskCard.GuardedProgress |

## Left out

- Loading and saving tasks in the browser's storage and rebuilding `Date`s (app/page.tsx:12-26): browser I/O and JSON parsing.
- components/DataManager.tsx, components/PWAInstaller.tsx, components/SearchAndFilter.tsx, components/ProcessDashboard.tsx, components/TaskStats.tsx, app/layout.tsx and next.config.js: I/O, install prompt, UI-only state, and views over figures computed elsewhere. This leaves out the overdue classification and the dashboards' statistics. The process card's `onStatusChange` and `onStepToggle` handlers belong to a page that is not part of this model.
- Id generation (`crypto.randomUUID`, `Math.random`) and `new Date()`: fresh ids and the current time are parameters.
- `parseInt` of the estimate inputs: an estimate is an `Option<int>`. The NaN an unparsable input gives is not modelled.
- Floating point: ratios are exact rationals (`real`) and `Math.round` is applied to the exact value, so binary rounding of `c / t * 100` is not modelled.
- In-place mutation and aliasing are modelled as pure functions. This covers the `sort` on the props array and `moveStep`'s `step.order = i` on step objects shared with the previous list.
- Resetting form fields after an add or a submit, the Enter-key handlers and the `disabled` state of buttons are left out. The buttons use the same guards as the handlers.
- Fields no modelled operation reads are left out. For steps: description, tags, assignee, department, role, dependencies, deliverables, approval fields and dates. For tasks: due date, priority, category, tags and time totals. For processes: id, creation and modification times, estimated duration and KPIs. The step builder's assignee, department, role and approval inputs are left out too.
- FlowchartBuilder.MoveStep: models the swap the handler is evidently meant to perform, not the handler as written (that is `FlowchartBuilder.MoveStepAsWritten`, see Findings). It requires an index inside the list, because the component offers the buttons only for rendered steps.
- FlowchartBuilder.MoveStepAsWritten: assumes a lenient reading of text that a strict JavaScript parser rejects (the assignment's left side is not assignable). Under a strict parser the component does not load at all, which no model of the handler can express.
- ProcessCard.PressesMoveForward: assumes that the `onStatusChange` handler stores exactly the status the card passes ('active' or 'archived'). That handler belongs to a page that is not part of this model.
- Steps.SortByOrder: the sort is implemented stably (insertion that keeps equal orders in input order), but stability is not stated as a property.
- FlowchartWorkflow.Flowchart: states only that the boxes show steps of the workflow; their order is stated by `FlowchartWorkflow.DisplayOrder` and `FlowchartWorkflow.Layout`.
