/** The task form of components/TaskForm.tsx: its step list editor, which removes
    without renumbering, and the submit that repairs the orders. */
module TaskForm {
  import opened Types
  import opened Text
  import opened Steps
  import Home

  /** `addStep`: a blank (after trimming) title changes nothing; otherwise one step
      `{ title: trimmed, order: old length }` is appended. */
  function AddStep(steps: seq<StepData>, input: string): (r: seq<StepData>)
    ensures Blank(input) ==> r == steps
    ensures !Blank(input) ==>
      && |r| == |steps| + 1 && r[..|steps|] == steps
      && r[|steps|] == StepData(Trim(input), |steps|, None, None)
    ensures Dense(steps) ==> Dense(r)
  {
    if Trim(input) == [] then steps
    else Append(steps, StepData(Trim(input), 0, None, None))
  }

  /** `removeStep(index)`: drops the step at `index`; the remaining steps keep their
      old `order` values, gaps included. */
  function RemoveStep(steps: seq<StepData>, index: int): (r: seq<StepData>)
    ensures 0 <= index < |steps| ==> |r| == |steps| - 1
    ensures 0 <= index < |steps| ==> forall k :: 0 <= k < index ==> r[k] == steps[k]
    ensures 0 <= index < |steps| ==> forall k :: index <= k < |r| ==> r[k] == steps[k + 1]
    ensures !(0 <= index < |steps|) ==> r == steps
  {
    RemoveAt(steps, index)
  }

  /** Removing any step but the last from a densely ordered list leaves a gap:
      the step that moves into the freed position still carries its old order. */
  lemma RemoveLeavesGap(steps: seq<StepData>, index: int)
    requires Dense(steps) && 0 <= index < |steps| - 1
    ensures !Dense(RemoveStep(steps, index))
  {
    assert RemoveStep(steps, index)[index].order == index + 1;
  }

  /** `handleSubmit`: nothing is submitted unless the trimmed title is non-empty and
      there is at least one step; the submitted workflow gets the fresh `ids`, orders
      0..n-1 whatever gaps removals left, and every step not completed. */
  function Submit(title: string, description: string, steps: seq<StepData>, ids: seq<string>): (r: Option<TaskDraft>)
    requires |ids| == |steps|
    ensures r.Some? <==> !Blank(title) && |steps| > 0
    ensures r.Some? ==>
      && r.value.title == Trim(title)
      && r.value.description == OptionalText(description)
      && |r.value.workflow| == |steps|
      && Dense(Data(r.value.workflow))
      && Shape(Data(r.value.workflow)) == Shape(steps)
      && forall i :: 0 <= i < |steps| ==>
           r.value.workflow[i].id == ids[i] && !r.value.workflow[i].completed && r.value.workflow[i].status.None?
  {
    if Trim(title) != [] && |steps| > 0 then
      Some(TaskDraft(Trim(title), OptionalText(description), ToWorkflow(steps, ids, None)))
    else None
  }

  /** A task created from the form starts out consistent: it is not complete and has
      no completion timestamp, and it is listed among the active tasks. */
  lemma SubmittedTaskStartsActive(tasks: seq<Task>, title: string, description: string,
                                  steps: seq<StepData>, ids: seq<string>, id: string, now: Time)
    requires |ids| == |steps|
    requires Submit(title, description, steps, ids).Some?
    ensures var r := Home.AddTask(tasks, Submit(title, description, steps, ids).value, id, now);
      && Home.CompletionInvariant(r[0])
      && !AllCompleted(r[0].workflow)
      && CountCompleted(r[0].workflow) == 0
      && Home.ActiveTasks(r) == [r[0]] + Home.ActiveTasks(tasks)
  {
    var draft := Submit(title, description, steps, ids).value;
    var r := Home.AddTask(tasks, draft, id, now);
    assert !r[0].workflow[0].completed;
    Home.AddedTaskIsActive(tasks, draft, id, now);
  }
}
