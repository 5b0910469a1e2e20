/** The task card of components/TaskCard.tsx: completed count, the unguarded progress
    ratio, the "Task Completed!" banner and the step listing by `order`. */
module TaskCard {
  import opened Types
  import opened Steps
  import opened Percent
  import Home

  /** `(completedSteps / totalSteps) * 100` with no zero guard: `None` stands for the
      NaN an empty workflow produces (0 / 0). */
  function Progress(t: Task): (r: Option<real>)
    ensures r.None? <==> t.workflow == []
    ensures r.Some? ==> 0.0 <= r.value <= 100.0
    ensures r.Some? ==> (r.value == 100.0 <==> AllCompleted(t.workflow))
    ensures r.Some? ==> r.value == CountCompleted(t.workflow) as real / |t.workflow| as real * 100.0
  {
    if t.workflow == [] then None
    else Some(Ratio(CountCompleted(t.workflow), |t.workflow|))
  }

  /** The progress with the zero guard the process card and the workflow view apply:
      0 for an empty workflow, otherwise the same ratio as `Progress`. */
  function GuardedProgress(t: Task): (r: real)
    ensures 0.0 <= r <= 100.0
    ensures t.workflow == [] ==> r == 0.0
    ensures Progress(t).Some? ==> r == Progress(t).value
    ensures t.workflow != [] ==> r == CountCompleted(t.workflow) as real / |t.workflow| as real * 100.0
  {
    Ratio(CountCompleted(t.workflow), |t.workflow|)
  }

  /** `completedSteps === totalSteps`: the banner condition, which holds for an empty workflow. */
  predicate ShowsCompletedBanner(t: Task): (r: bool)
    ensures r <==> AllCompleted(t.workflow)
    ensures Progress(t).Some? ==> (r <==> Progress(t).value == 100.0)
  {
    CountCompleted(t.workflow) == |t.workflow|
  }

  /** A card with no steps shows the banner while its progress is NaN. */
  lemma EmptyCard(t: Task)
    requires t.workflow == []
    ensures ShowsCompletedBanner(t) && Progress(t).None?
  {
  }

  /** After any toggle on a list of consistent tasks, every task stays consistent and a
      card shows the banner exactly when its task is listed under "Completed Tasks". */
  lemma BannerMatchesSection(tasks: seq<Task>, taskId: string, stepId: string, now: Time)
    requires forall j :: 0 <= j < |tasks| ==> Home.CompletionInvariant(tasks[j])
    ensures var r := Home.ToggleStep(tasks, taskId, stepId, now);
      forall j :: 0 <= j < |r| ==>
        && Home.CompletionInvariant(r[j])
        && (ShowsCompletedBanner(r[j]) <==> r[j] in Home.CompletedTasks(r))
        && (!ShowsCompletedBanner(r[j]) <==> r[j] in Home.ActiveTasks(r))
  {
  }

  /** `task.workflow.sort((a, b) => a.order - b.order)`: the steps in ascending order,
      the same steps, and for a densely ordered workflow the stored order. */
  function ListedSteps(t: Task): (r: seq<Step>)
    ensures SortedByOrder(r) && multiset(r) == multiset(t.workflow)
    ensures Dense(Data(t.workflow)) ==> r == t.workflow
  {
    DenseDisplaysAsStored(t.workflow);
    SortByOrder(t.workflow)
  }
}
