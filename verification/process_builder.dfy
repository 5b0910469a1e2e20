/** The process form of components/ProcessBuilder.tsx: stakeholder and objective
    lists, the step builder, and the submit that produces a draft process. */
module ProcessBuilder {
  import opened Types
  import opened Text
  import opened Steps

  /** No entry occurs twice. */
  predicate NoDuplicates(xs: seq<string>) {
    forall i, j :: 0 <= i < j < |xs| ==> xs[i] != xs[j]
  }

  /** `addStakeholder`: appends the trimmed name when it is non-blank and not already
      listed; otherwise the list is unchanged. The list never gains a duplicate. */
  function AddStakeholder(stakeholders: seq<string>, input: string): (r: seq<string>)
    ensures Blank(input) ==> r == stakeholders
    ensures !Blank(input) ==> Trim(input) in r
    ensures !Blank(input) && Trim(input) !in stakeholders ==> r == stakeholders + [Trim(input)]
    ensures Trim(input) in stakeholders ==> r == stakeholders
    ensures NoDuplicates(stakeholders) ==> NoDuplicates(r)
  {
    var name := Trim(input);
    if name != [] && name !in stakeholders then stakeholders + [name] else stakeholders
  }

  /** `addObjective`: appends any non-blank trimmed objective, even one already listed. */
  function AddObjective(objectives: seq<string>, input: string): (r: seq<string>)
    ensures Blank(input) ==> r == objectives
    ensures !Blank(input) ==> |r| == |objectives| + 1 && r[..|objectives|] == objectives && r[|objectives|] == Trim(input)
  {
    if Trim(input) != [] then objectives + [Trim(input)] else objectives
  }

  /** Unlike stakeholders, the same objective can be added twice. */
  lemma ObjectiveTwice(objectives: seq<string>, input: string)
    requires !Blank(input)
    ensures var r := AddObjective(AddObjective(objectives, input), input);
      |r| == |objectives| + 2 && r[|objectives|] == r[|objectives| + 1] == Trim(input)
  {
  }

  /** The stakeholder's remove button, `stakeholders.filter(s => s !== stakeholder)`:
      every occurrence of the name goes, everything else stays in order. */
  function RemoveStakeholder(stakeholders: seq<string>, name: string): (r: seq<string>)
    ensures multiset(r) == multiset(stakeholders)[name := 0]
    ensures forall x :: x in r <==> x in stakeholders && x != name
    ensures |r| <= |stakeholders|
    ensures name in stakeholders ==> |r| < |stakeholders|
    decreases |stakeholders|
  {
    if stakeholders == [] then []
    else
      assert stakeholders == [stakeholders[0]] + stakeholders[1..];
      if stakeholders[0] == name then RemoveStakeholder(stakeholders[1..], name)
      else [stakeholders[0]] + RemoveStakeholder(stakeholders[1..], name)
  }

  /** The removal works entry by entry: it distributes over concatenation, so the
      entries that stay keep their order. */
  lemma {:induction false} RemoveStakeholderAppend(a: seq<string>, b: seq<string>, name: string)
    ensures RemoveStakeholder(a + b, name) == RemoveStakeholder(a, name) + RemoveStakeholder(b, name)
    decreases |a|
  {
    if a == [] {
      assert a + b == b;
    } else {
      assert (a + b)[0] == a[0] && (a + b)[1..] == a[1..] + b;
      RemoveStakeholderAppend(a[1..], b, name);
    }
  }

  /** Removing a stakeholder from a duplicate-free list removes exactly one entry and
      keeps the list duplicate-free. */
  lemma {:induction false} RemoveStakeholderExact(stakeholders: seq<string>, name: string)
    requires NoDuplicates(stakeholders)
    ensures NoDuplicates(RemoveStakeholder(stakeholders, name))
    ensures |RemoveStakeholder(stakeholders, name)| == |stakeholders| - (if name in stakeholders then 1 else 0)
    decreases |stakeholders|
  {
    if stakeholders != [] {
      var rest := stakeholders[1..];
      assert stakeholders == [stakeholders[0]] + rest;
      UnconsNoDuplicates(stakeholders[0], rest);
      RemoveStakeholderExact(rest, name);
      if stakeholders[0] != name {
        ConsNoDuplicates(stakeholders[0], RemoveStakeholder(rest, name));
      }
    }
  }

  /** Splitting the head off a list without repeats leaves a list without repeats
      that does not contain the head. */
  lemma UnconsNoDuplicates(x: string, rest: seq<string>)
    requires NoDuplicates([x] + rest)
    ensures NoDuplicates(rest) && x !in rest
  {
    var l := [x] + rest;
    forall i, j | 0 <= i < j < |rest| ensures rest[i] != rest[j] {
      assert rest[i] == l[i + 1] && rest[j] == l[j + 1];
    }
    forall j | 0 <= j < |rest| ensures rest[j] != x {
      assert rest[j] == l[j + 1] && l[0] == x;
    }
  }

  /** A fresh entry in front of a list without repeats keeps it without repeats. */
  lemma ConsNoDuplicates(x: string, rest: seq<string>)
    requires NoDuplicates(rest) && x !in rest
    ensures NoDuplicates([x] + rest)
  {
    var l := [x] + rest;
    forall i, j | 0 <= i < j < |l| ensures l[i] != l[j] {
      assert l[j] == rest[j - 1];
      if i > 0 {
        assert l[i] == rest[i - 1];
      }
    }
  }

  /** The objective's remove button, `objectives.filter((_, i) => i !== index)`: only the
      entry at that index goes; an equal objective elsewhere stays. */
  function RemoveObjective(objectives: seq<string>, index: int): (r: seq<string>)
    ensures 0 <= index < |objectives| ==>
      |r| == |objectives| - 1 && multiset(r) + multiset{objectives[index]} == multiset(objectives)
    ensures 0 <= index < |objectives| ==>
      forall j :: 0 <= j < |objectives| && j != index ==> objectives[j] in r
    ensures 0 <= index < |objectives| ==> r == objectives[..index] + objectives[index + 1..]
    ensures !(0 <= index < |objectives|) ==> r == objectives
  {
    var r := RemoveAt(objectives, index);
    if 0 <= index < |objectives| then
      RemoveAtMultiset(objectives, index);
      assert forall j :: 0 <= j < index ==> objectives[j] == r[j];
      assert forall j :: index < j < |objectives| ==> objectives[j] == r[j - 1];
      r
    else r
  }

  /** The step builder's `addStep`: a blank title changes nothing; otherwise one step
      with the trimmed title, the given estimate, priority 'medium' and `order` equal
      to the old length is appended. */
  function AddBuiltStep(steps: seq<StepData>, input: string, estimate: Option<int>): (r: seq<StepData>)
    ensures Blank(input) ==> r == steps
    ensures !Blank(input) ==>
      && |r| == |steps| + 1 && r[..|steps|] == steps
      && r[|steps|] == StepData(Trim(input), |steps|, Some(Medium), estimate)
    ensures Dense(steps) ==> Dense(r)
  {
    if Trim(input) == [] then steps
    else Append(steps, StepData(Trim(input), 0, Some(Medium), estimate))
  }

  /** One edit the step builder offers: add from its inputs, or remove a listed step. */
  datatype StepEdit = Add(input: string, estimate: Option<int>) | Remove(index: int)

  function ApplyEdit(steps: seq<StepData>, e: StepEdit): seq<StepData> {
    match e
    case Add(input, estimate) => AddBuiltStep(steps, input, estimate)
    case Remove(index) => RemoveAndRenumber(steps, index)
  }

  function ApplyEdits(steps: seq<StepData>, edits: seq<StepEdit>): seq<StepData>
    decreases |edits|
  {
    if edits == [] then steps else ApplyEdits(ApplyEdit(steps, edits[0]), edits[1..])
  }

  /** Any sequence of additions and removals in the step builder keeps the orders
      dense, and any removal makes them dense even if they were not. */
  lemma {:induction false} EditsKeepDense(steps: seq<StepData>, edits: seq<StepEdit>)
    requires Dense(steps) || (exists k :: 0 <= k < |edits| && edits[k].Remove?)
    ensures Dense(ApplyEdits(steps, edits))
    decreases |edits|
  {
    if edits != [] {
      var next := ApplyEdit(steps, edits[0]);
      if !edits[0].Remove? && !Dense(steps) {
        var k :| 0 <= k < |edits| && edits[k].Remove?;
        assert edits[1..][k - 1].Remove?;
      }
      EditsKeepDense(next, edits[1..]);
    }
  }

  /** The form's fields at the moment of submission. */
  datatype ProcessForm = ProcessForm(
    name: string,
    description: string,
    department: string,
    owner: string,
    category: string,
    priority: Priority,
    stakeholders: seq<string>,
    objectives: seq<string>)

  /** `handleSubmit`: nothing is submitted unless the trimmed name is non-empty, a
      department and an owner are given (not trimmed) and there is at least one step.
      The process starts as a draft at version "1.0" with no tags; its steps get the
      fresh `ids`, orders 0..n-1, `completed = false` and status 'not-started'. */
  function Submit(form: ProcessForm, steps: seq<StepData>, ids: seq<string>): (r: Option<Process>)
    requires |ids| == |steps|
    ensures r.Some? <==> !Blank(form.name) && form.department != [] && form.owner != [] && |steps| > 0
    ensures r.Some? ==>
      var p := r.value;
      && p.name == Trim(form.name) && p.description == OptionalText(form.description)
      && p.department == form.department && p.owner == form.owner && p.category == form.category
      && p.priority == form.priority
      && p.stakeholders == form.stakeholders && p.objectives == form.objectives
      && p.status == Draft && p.version == "1.0" && p.tags == []
      && |p.workflow| == |steps| && Dense(Data(p.workflow)) && Shape(Data(p.workflow)) == Shape(steps)
      && forall i :: 0 <= i < |steps| ==>
           p.workflow[i].id == ids[i] && !p.workflow[i].completed && p.workflow[i].status == Some(NotStarted)
  {
    if Trim(form.name) != [] && form.department != [] && form.owner != [] && |steps| > 0 then
      Some(Process(Trim(form.name), OptionalText(form.description), form.department, form.owner,
                   form.category, form.priority, Draft, "1.0", form.stakeholders, form.objectives, [],
                   ToWorkflow(steps, ids, Some(NotStarted))))
    else None
  }

  /** The owner is checked for emptiness only, not trimmed: an owner of one space passes. */
  lemma SubmitAcceptsSpaceOwner(form: ProcessForm, steps: seq<StepData>, ids: seq<string>)
    requires |ids| == |steps| && |steps| > 0 && !Blank(form.name) && form.department != []
    ensures Submit(form.(owner := " "), steps, ids).Some?
    ensures Submit(form.(owner := " "), steps, ids).value.owner == " "
  {
  }
}
