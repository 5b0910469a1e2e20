/** The task list of app/page.tsx: adding a task, toggling one step of one task with
    the completion-timestamp rule, and splitting the list into active and completed tasks. */
module Home {
  import opened Types
  import opened Steps

  /** The invariant the toggle maintains: a task carries a completion timestamp exactly
      when every one of its steps is completed. */
  predicate CompletionInvariant(t: Task): (r: bool)
    ensures r <==> (t.completedAt.Some? <==> CountCompleted(t.workflow) == |t.workflow|)
  {
    t.completedAt.Some? <==> AllCompleted(t.workflow)
  }

  /** Some step of the workflow has this id. */
  predicate HasStep(ws: seq<Step>, stepId: string) {
    exists i :: 0 <= i < |ws| && ws[i].id == stepId
  }

  /** Negates `completed` on every step whose id matches and leaves everything else,
      including the step's data, status and position, as it was. */
  function ToggleWorkflow(ws: seq<Step>, stepId: string): (r: seq<Step>)
    ensures |r| == |ws|
    ensures forall i :: 0 <= i < |ws| ==>
      && r[i].id == ws[i].id && r[i].data == ws[i].data && r[i].status == ws[i].status
      && (r[i].completed <==> (ws[i].completed != (ws[i].id == stepId)))
  {
    seq(|ws|, i requires 0 <= i < |ws| =>
      if ws[i].id == stepId then ws[i].(completed := !ws[i].completed) else ws[i])
  }

  /** The per-task update inside `toggleStep`: flip the step, then set `completedAt` to
      `now` if all steps are now complete and it was unset, clear it if not all steps
      are complete, and keep it otherwise. */
  function ToggleTask(t: Task, stepId: string, now: Time): (r: Task)
    ensures r.id == t.id && r.title == t.title && r.description == t.description
    ensures r.createdAt == t.createdAt
    ensures r.workflow == ToggleWorkflow(t.workflow, stepId)
    ensures CompletionInvariant(r)
    ensures AllCompleted(r.workflow) && t.completedAt.Some? ==> r.completedAt == t.completedAt
    ensures AllCompleted(r.workflow) && t.completedAt.None? ==> r.completedAt == Some(now)
  {
    var updated := ToggleWorkflow(t.workflow, stepId);
    var allCompleted := AllCompleted(updated);
    t.(workflow := updated,
       completedAt :=
         if allCompleted && t.completedAt.None? then Some(now)
         else if !allCompleted then None
         else t.completedAt)
  }

  /** `toggleStep(taskId, stepId)`: every task whose id matches is updated by
      `ToggleTask`; every other task, and the order of the list, is left unchanged. */
  function ToggleStep(tasks: seq<Task>, taskId: string, stepId: string, now: Time): (r: seq<Task>)
    ensures |r| == |tasks|
    ensures forall i :: 0 <= i < |tasks| && tasks[i].id != taskId ==> r[i] == tasks[i]
    ensures forall i :: 0 <= i < |tasks| && tasks[i].id == taskId ==>
      r[i] == ToggleTask(tasks[i], stepId, now) && CompletionInvariant(r[i])
  {
    seq(|tasks|, i requires 0 <= i < |tasks| =>
      if tasks[i].id == taskId then ToggleTask(tasks[i], stepId, now) else tasks[i])
  }

  /** Toggling an id that names no step leaves the steps as they are; a task that
      satisfied the invariant is then returned unchanged, old timestamp included. */
  lemma ToggleUnknownStep(t: Task, stepId: string, now: Time)
    requires !HasStep(t.workflow, stepId)
    ensures ToggleTask(t, stepId, now).workflow == t.workflow
    ensures CompletionInvariant(t) ==> ToggleTask(t, stepId, now) == t
  {
    var ws := t.workflow;
    var r := ToggleWorkflow(ws, stepId);
    forall i | 0 <= i < |ws|
      ensures r[i] == ws[i]
    {
      assert ws[i].id != stepId;
    }
  }

  /** An empty workflow counts as complete, so any toggle on it leaves a timestamp:
      `now` if there was none, the old one otherwise. */
  lemma ToggleEmptyWorkflow(t: Task, stepId: string, now: Time)
    requires t.workflow == []
    ensures ToggleTask(t, stepId, now).completedAt ==
      if t.completedAt.Some? then t.completedAt else Some(now)
  {
  }

  /** Flipping twice restores every step. */
  lemma ToggleWorkflowTwice(ws: seq<Step>, stepId: string)
    ensures ToggleWorkflow(ToggleWorkflow(ws, stepId), stepId) == ws
  {
    var r := ToggleWorkflow(ToggleWorkflow(ws, stepId), stepId);
    forall i | 0 <= i < |ws|
      ensures r[i] == ws[i]
    {
    }
  }

  /** Toggling a step whose id no other step shares moves the completed count by
      exactly one: down if the step was completed, up if it was not. */
  lemma ToggleMovesCountByOne(ws: seq<Step>, stepId: string, j: nat)
    requires j < |ws| && ws[j].id == stepId
    requires forall k :: 0 <= k < |ws| && k != j ==> ws[k].id != stepId
    ensures ws[j].completed ==> CountCompleted(ToggleWorkflow(ws, stepId)) == CountCompleted(ws) - 1
    ensures !ws[j].completed ==> CountCompleted(ToggleWorkflow(ws, stepId)) == CountCompleted(ws) + 1
  {
    var r := ToggleWorkflow(ws, stepId);
    assert r[..j] == ws[..j] by {
      forall k | 0 <= k < j ensures r[k] == ws[k] {
        assert r[k].id == ws[k].id && r[k].data == ws[k].data && r[k].status == ws[k].status;
      }
    }
    assert r[j + 1..] == ws[j + 1..] by {
      forall k | j < k < |ws| ensures r[k] == ws[k] {
        assert r[k].id == ws[k].id && r[k].data == ws[k].data && r[k].status == ws[k].status;
      }
    }
    CountCompletedAround(ws, j);
    CountCompletedAround(r, j);
  }

  /** Toggling the same step twice restores the steps. The timestamp comes back too,
      unless the task was fully complete and the step exists: the first toggle clears
      the timestamp and the second sets a fresh one. */
  lemma ToggleTwice(t: Task, stepId: string, now1: Time, now2: Time)
    requires CompletionInvariant(t)
    ensures var t2 := ToggleTask(ToggleTask(t, stepId, now1), stepId, now2);
      && t2.workflow == t.workflow
      && t2.completedAt == (if AllCompleted(t.workflow) && HasStep(t.workflow, stepId) then Some(now2) else t.completedAt)
  {
    var t1 := ToggleTask(t, stepId, now1);
    var t2 := ToggleTask(t1, stepId, now2);
    ToggleWorkflowTwice(t.workflow, stepId);
    if HasStep(t.workflow, stepId) {
      var i :| 0 <= i < |t.workflow| && t.workflow[i].id == stepId;
      if AllCompleted(t.workflow) {
        assert !t1.workflow[i].completed;
      }
    } else {
      ToggleUnknownStep(t, stepId, now1);
    }
  }

  /** `addTask`: a new task with the given id and creation time, no completion
      timestamp, placed in front of the existing tasks, which keep their order. */
  function AddTask(tasks: seq<Task>, draft: TaskDraft, id: string, now: Time): (r: seq<Task>)
    ensures |r| == |tasks| + 1 && r[1..] == tasks
    ensures r[0].id == id && r[0].createdAt == now && r[0].completedAt.None?
    ensures r[0].title == draft.title && r[0].description == draft.description
    ensures r[0].workflow == draft.workflow
  {
    [Task(id, draft.title, draft.description, draft.workflow, now, None)] + tasks
  }

  /** `tasks.filter(task => !task.completedAt)`. */
  function ActiveTasks(tasks: seq<Task>): (r: seq<Task>)
    ensures |r| <= |tasks|
    ensures forall t :: t in r <==> t in tasks && t.completedAt.None?
    decreases |tasks|
  {
    if tasks == [] then []
    else if tasks[0].completedAt.None? then [tasks[0]] + ActiveTasks(tasks[1..])
    else ActiveTasks(tasks[1..])
  }

  /** `tasks.filter(task => task.completedAt)`. */
  function CompletedTasks(tasks: seq<Task>): (r: seq<Task>)
    ensures |r| <= |tasks|
    ensures forall t :: t in r <==> t in tasks && t.completedAt.Some?
    decreases |tasks|
  {
    if tasks == [] then []
    else if tasks[0].completedAt.Some? then [tasks[0]] + CompletedTasks(tasks[1..])
    else CompletedTasks(tasks[1..])
  }

  /** The two lists split the task list: together they hold every task exactly as
      often as the list does, so their lengths add up to its length. */
  lemma {:induction false} PartitionTasks(tasks: seq<Task>)
    ensures multiset(ActiveTasks(tasks)) + multiset(CompletedTasks(tasks)) == multiset(tasks)
    ensures |ActiveTasks(tasks)| + |CompletedTasks(tasks)| == |tasks|
    decreases |tasks|
  {
    if tasks != [] {
      PartitionTasks(tasks[1..]);
      assert tasks == [tasks[0]] + tasks[1..];
    }
    assert |multiset(ActiveTasks(tasks))| == |ActiveTasks(tasks)|;
    assert |multiset(CompletedTasks(tasks))| == |CompletedTasks(tasks)|;
  }

  /** Both filters keep the list's order: filtering a concatenation is concatenating the filtered parts. */
  lemma PartitionKeepsOrder(a: seq<Task>, b: seq<Task>)
    ensures ActiveTasks(a + b) == ActiveTasks(a) + ActiveTasks(b)
    ensures CompletedTasks(a + b) == CompletedTasks(a) + CompletedTasks(b)
  {
    ActiveKeepsOrder(a, b);
    CompletedKeepsOrder(a, b);
  }

  lemma {:induction false} ActiveKeepsOrder(a: seq<Task>, b: seq<Task>)
    ensures ActiveTasks(a + b) == ActiveTasks(a) + ActiveTasks(b)
    decreases |a|
  {
    if a == [] {
      assert a + b == b;
    } else {
      assert (a + b)[0] == a[0] && (a + b)[1..] == a[1..] + b;
      ActiveKeepsOrder(a[1..], b);
    }
  }

  lemma {:induction false} CompletedKeepsOrder(a: seq<Task>, b: seq<Task>)
    ensures CompletedTasks(a + b) == CompletedTasks(a) + CompletedTasks(b)
    decreases |a|
  {
    if a == [] {
      assert a + b == b;
    } else {
      assert (a + b)[0] == a[0] && (a + b)[1..] == a[1..] + b;
      CompletedKeepsOrder(a[1..], b);
    }
  }

  /** A newly added task heads the active list, ahead of the tasks that were active before. */
  lemma AddedTaskIsActive(tasks: seq<Task>, draft: TaskDraft, id: string, now: Time)
    ensures var r := AddTask(tasks, draft, id, now);
      ActiveTasks(r) == [r[0]] + ActiveTasks(tasks) && CompletedTasks(r) == CompletedTasks(tasks)
  {
    var r := AddTask(tasks, draft, id, now);
    assert r[1..] == tasks;
  }
}
