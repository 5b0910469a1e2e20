/** The process card of components/ProcessCard.tsx: progress counted by step status,
    the rounded percentage, the green bar, and the status buttons. */
module ProcessCard {
  import opened Types
  import opened Steps
  import opened Percent
  import Home

  /** `workflow.filter(step => step.status === 'completed').length`: counts the status
      field, not the `completed` flag. */
  function CompletedSteps(p: Process): (r: nat)
    ensures r <= |p.workflow|
    ensures r == |p.workflow| <==> forall i :: 0 <= i < |p.workflow| ==> p.workflow[i].status == Some(Completed)
    ensures r == 0 <==> forall i :: 0 <= i < |p.workflow| ==> p.workflow[i].status != Some(Completed)
  {
    CountStatus(p.workflow, Completed)
  }

  /** Marking one step 'completed' that was not raises the count by exactly one;
      marking a 'completed' step otherwise lowers it by one. */
  lemma StatusChangeMovesCount(p: Process, j: nat, st: StepStatus)
    requires j < |p.workflow|
    ensures var q := p.(workflow := p.workflow[j := p.workflow[j].(status := Some(st))]);
      var before, after := p.workflow[j].status == Some(Completed), st == Completed;
      CompletedSteps(q) == CompletedSteps(p) - (if before then 1 else 0) + (if after then 1 else 0)
  {
    var ws := p.workflow;
    var w := ws[j := ws[j].(status := Some(st))];
    assert w[..j] == ws[..j];
    assert w[j + 1..] == ws[j + 1..];
    CountStatusAround(ws, j, Completed);
    CountStatusAround(w, j, Completed);
  }

  /** `totalSteps > 0 ? (completedSteps / totalSteps) * 100 : 0`. */
  function Progress(p: Process): (r: real)
    ensures 0.0 <= r <= 100.0
    ensures r == 100.0 <==> p.workflow != [] && forall i :: 0 <= i < |p.workflow| ==> p.workflow[i].status == Some(Completed)
    ensures r == 0.0 <==> forall i :: 0 <= i < |p.workflow| ==> p.workflow[i].status != Some(Completed)
    ensures p.workflow != [] ==> r == CompletedSteps(p) as real / |p.workflow| as real * 100.0
  {
    Ratio(CompletedSteps(p), |p.workflow|)
  }

  /** `Math.round(progress)`: an integer percentage in 0..100, equal to the integer
      round-half-up of 100·completed/total. */
  function ShownPercent(p: Process): (r: int)
    ensures 0 <= r <= 100
    ensures r == RoundedPercent(CompletedSteps(p), |p.workflow|)
  {
    ProgressRoundsToReference(p);
    RoundHalfUp(Progress(p))
  }

  /** `Math.round` of the card's ratio is the integer reference, 0 for an empty workflow. */
  lemma ProgressRoundsToReference(p: Process)
    ensures RoundHalfUp(Progress(p)) == RoundedPercent(CompletedSteps(p), |p.workflow|)
  {
    if |p.workflow| > 0 {
      RoundedPercentIsRounding(CompletedSteps(p), |p.workflow|);
    } else {
      assert Progress(p) == 0.0;
    }
  }

  /** `progress === 100`: the bar turns green. */
  predicate BarIsGreen(p: Process): (r: bool)
    ensures r <==> p.workflow != [] && forall i :: 0 <= i < |p.workflow| ==> p.workflow[i].status == Some(Completed)
    ensures r ==> ShownPercent(p) == 100
  {
    Progress(p) == 100.0
  }

  /** The status count depends on nothing but the statuses. */
  lemma {:induction false} CountStatusOnlyStatuses(a: seq<Step>, b: seq<Step>, st: StepStatus)
    requires |a| == |b|
    requires forall i :: 0 <= i < |a| ==> a[i].status == b[i].status
    ensures CountStatus(a, st) == CountStatus(b, st)
    decreases |a|
  {
    if a != [] {
      CountStatusOnlyStatuses(a[1..], b[1..], st);
    }
  }

  /** Flipping `completed` flags (what a step toggle does) never moves the card's progress. */
  lemma ToggleLeavesProgress(p: Process, stepId: string)
    ensures Progress(p.(workflow := Home.ToggleWorkflow(p.workflow, stepId))) == Progress(p)
  {
    CountStatusOnlyStatuses(Home.ToggleWorkflow(p.workflow, stepId), p.workflow, Completed);
  }

  /** A process whose steps are all 'not-started' (as submitted) shows 0%, whatever its
      `completed` flags say: the two notions of completion disagree. */
  lemma NotStartedShowsZero(p: Process)
    requires forall i :: 0 <= i < |p.workflow| ==> p.workflow[i].status == Some(NotStarted)
    ensures Progress(p) == 0.0 && ShownPercent(p) == 0 && !BarIsGreen(p)
  {
  }

  /** The status button the expanded card offers: 'Activate' on a draft, 'Archive' on an
      active process, none on an archived one. */
  function OfferedTransition(s: ProcessStatus): (r: Option<ProcessStatus>)
    ensures r.None? <==> s == Archived
    ensures r.Some? ==> Rank(r.value) == Rank(s) + 1
  {
    match s
    case Draft => Some(Active)
    case Active => Some(Archived)
    case Archived => None
  }

  /** Position in the lifecycle draft, active, archived. */
  function Rank(s: ProcessStatus): nat {
    match s
    case Draft => 0
    case Active => 1
    case Archived => 2
  }

  /** The status after pressing the offered button `n` times (a press with no button does nothing).
      The card only calls `onStatusChange` with the offered status; this assumes the handler,
      which is not part of this model, stores exactly that status. */
  function Press(s: ProcessStatus, n: nat): ProcessStatus
    decreases n
  {
    if n == 0 then s
    else match OfferedTransition(s)
      case None => s
      case Some(next) => Press(next, n - 1)
  }

  /** The buttons only move forward: `n` presses raise the rank by `n`, up to archived,
      which is reached after at most two presses and never left. */
  lemma {:induction false} PressesMoveForward(s: ProcessStatus, n: nat)
    ensures Rank(Press(s, n)) == if Rank(s) + n >= 2 then 2 else Rank(s) + n
    decreases n
  {
    if n > 0 {
      match OfferedTransition(s)
      case None =>
      case Some(next) => PressesMoveForward(next, n - 1);
    }
  }
}
