/** The step editor of components/FlowchartBuilder.tsx: add, remove and move steps
    while keeping their orders dense, and the total estimated time it displays. */
module FlowchartBuilder {
  import opened Types
  import opened Text
  import opened Steps

  datatype Direction = Up | Down

  /** `addStep`: a blank (after trimming) step title changes nothing; otherwise one step
      is appended with the trimmed title, the chosen priority and estimate, and
      `order` equal to the old length. */
  function AddStep(steps: seq<StepData>, input: string, priority: Priority, estimate: Option<int>): (r: seq<StepData>)
    ensures Blank(input) ==> r == steps
    ensures !Blank(input) ==>
      && |r| == |steps| + 1 && r[..|steps|] == steps
      && r[|steps|] == StepData(Trim(input), |steps|, Some(priority), estimate)
      && r[|steps|].title != [] && Tight(r[|steps|].title)
    ensures Dense(steps) ==> Dense(r)
  {
    if Trim(input) == [] then steps
    else Append(steps, StepData(Trim(input), 0, Some(priority), estimate))
  }

  /** `removeStep(index)`: drops the step at `index` and renumbers the rest. */
  function RemoveStep(steps: seq<StepData>, index: int): (r: seq<StepData>)
    ensures Dense(r)
    ensures 0 <= index < |steps| ==> |r| == |steps| - 1
    ensures 0 <= index < |steps| ==> forall k :: 0 <= k < index ==> Erase(r[k]) == Erase(steps[k])
    ensures 0 <= index < |steps| ==> forall k :: index <= k < |r| ==> Erase(r[k]) == Erase(steps[k + 1])
  {
    var r := RemoveAndRenumber(steps, index);
    assert 0 <= index < |steps| ==>
      forall k :: 0 <= k < |r| ==> Shape(r)[k] == Shape(steps[..index] + steps[index + 1..])[k];
    r
  }

  /** The guard of `moveStep`: up from the first step or down from the last is ignored. */
  predicate IsIgnoredMove(n: nat, index: int, dir: Direction) {
    (dir == Up && index == 0) || (dir == Down && index == n - 1)
  }

  /** The neighbour a move exchanges with. */
  function Target(index: int, dir: Direction): int {
    if dir == Up then index - 1 else index + 1
  }

  /** Exchanges the elements at `i` and `j`. */
  function Swap<T>(s: seq<T>, i: nat, j: nat): (r: seq<T>)
    requires i < |s| && j < |s|
    ensures |r| == |s| && r[i] == s[j] && r[j] == s[i]
    ensures forall k :: 0 <= k < |s| && k != i && k != j ==> r[k] == s[k]
    ensures multiset(r) == multiset(s)
  {
    s[i := s[j]][j := s[i]]
  }

  /** The move `moveStep(index, direction)` is meant to perform: an ignored move leaves
      the list untouched (it is not even renumbered); otherwise the step and its neighbour
      change places and every order is reset to the position. The handler as written does
      not do this (see `MoveStepAsWritten`). The buttons are only offered for existing indices. */
  function MoveStep(steps: seq<StepData>, index: int, dir: Direction): (r: seq<StepData>)
    requires 0 <= index < |steps|
    ensures IsIgnoredMove(|steps|, index, dir) ==> r == steps
    ensures !IsIgnoredMove(|steps|, index, dir) ==>
      var t := Target(index, dir);
      && 0 <= t < |steps| && |r| == |steps| && Dense(r)
      && Erase(r[index]) == Erase(steps[t]) && Erase(r[t]) == Erase(steps[index])
      && forall k :: 0 <= k < |steps| && k != index && k != t ==> Erase(r[k]) == Erase(steps[k])
  {
    if IsIgnoredMove(|steps|, index, dir) then steps
    else
      var r := Renumber(Swap(steps, index, Target(index, dir)));
      assert forall k :: 0 <= k < |r| ==> Shape(r)[k] == Shape(Swap(steps, index, Target(index, dir)))[k];
      r
  }

  /** `moveStep` as written. The swap line starts with `[` and the line before it has no
      semicolon, so the target index's initializer runs on into the swap:
      `up ? index - 1 : index + 1[...] = [...]`. Read leniently, an upward move evaluates
      only `index - 1` and swaps nothing, then renumbers and commits; a downward move
      evaluates the swap's right side, which reads the target index before it is
      initialised, and throws before committing (`None`). */
  function MoveStepAsWritten(steps: seq<StepData>, index: int, dir: Direction): (r: Option<seq<StepData>>)
    requires 0 <= index < |steps|
    ensures r.None? <==> !IsIgnoredMove(|steps|, index, dir) && dir == Down
    ensures r.Some? ==> Shape(r.value) == Shape(steps)
  {
    if IsIgnoredMove(|steps|, index, dir) then Some(steps)
    else if dir == Up then Some(Renumber(steps))
    else None
  }

  /** Whenever the two steps a move should exchange differ in more than their orders,
      the handler as written misses the intended result: nothing changes places upward,
      and a downward move fails. */
  lemma MoveAsWrittenMissesSwap(steps: seq<StepData>, index: int, dir: Direction)
    requires 0 <= index < |steps| && !IsIgnoredMove(|steps|, index, dir)
    requires 0 <= Target(index, dir) < |steps| && Erase(steps[index]) != Erase(steps[Target(index, dir)])
    ensures MoveStepAsWritten(steps, index, dir) != Some(MoveStep(steps, index, dir))
  {
    if dir == Up {
      var w := MoveStepAsWritten(steps, index, dir).value;
      assert Shape(w)[index] == Erase(steps[index]);
      assert Shape(MoveStep(steps, index, dir))[index] == Erase(steps[index - 1]);
    }
  }

  /** A two-step list, "a" then "b": moving "b" up should put it first, but the handler
      as written leaves the list as it was; moving "a" down fails. */
  lemma MoveAsWrittenExample()
    ensures var steps := [StepData("a", 0, None, None), StepData("b", 1, None, None)];
      && MoveStep(steps, 1, Up)[0].title == "b"
      && MoveStepAsWritten(steps, 1, Up) == Some(steps)
      && MoveStepAsWritten(steps, 0, Down).None?
  {
    var steps := [StepData("a", 0, None, None), StepData("b", 1, None, None)];
    assert Erase(MoveStep(steps, 1, Up)[0]) == Erase(steps[1]);
    RenumberDense(steps);
  }

  lemma ShapeSwap(s: seq<StepData>, i: nat, j: nat)
    requires i < |s| && j < |s|
    ensures Shape(Swap(s, i, j)) == Swap(Shape(s), i, j)
  {
  }

  /** A move rearranges the steps and nothing more: the same steps, up to their orders,
      with the same multiplicities. */
  lemma MovePermutes(steps: seq<StepData>, index: int, dir: Direction)
    requires 0 <= index < |steps|
    ensures multiset(Shape(MoveStep(steps, index, dir))) == multiset(Shape(steps))
  {
    if !IsIgnoredMove(|steps|, index, dir) {
      var t := Target(index, dir);
      ShapeSwap(steps, index, t);
    }
  }

  /** Moving a step up and then moving it back down restores the list, renumbered;
      a densely ordered list comes back exactly. */
  lemma MoveUpThenDown(steps: seq<StepData>, index: int)
    requires 0 < index < |steps|
    ensures MoveStep(MoveStep(steps, index, Up), index - 1, Down) == Renumber(steps)
    ensures Dense(steps) ==> MoveStep(MoveStep(steps, index, Up), index - 1, Down) == steps
  {
    var s1 := Swap(steps, index, index - 1);
    var r1 := MoveStep(steps, index, Up);
    assert r1 == Renumber(s1);
    var r2 := MoveStep(r1, index - 1, Down);
    assert r2 == Renumber(Swap(r1, index - 1, index));
    ShapeSwap(steps, index, index - 1);
    ShapeSwap(r1, index - 1, index);
    assert Shape(r2) == Swap(Shape(r1), index - 1, index);
    assert Swap(Swap(Shape(steps), index, index - 1), index - 1, index) == Shape(steps);
    DenseShapeUnique(r2, Renumber(steps));
    if Dense(steps) {
      RenumberDense(steps);
    }
  }

  /** `step.estimatedTime || 0`. */
  function Estimate(d: StepData): int {
    match d.estimatedTime
    case Some(m) => m
    case None => 0
  }

  /** `steps.reduce((sum, step) => sum + (step.estimatedTime || 0), 0)`. */
  function TotalEstimatedTime(steps: seq<StepData>): (r: int)
    ensures (forall i :: 0 <= i < |steps| ==> steps[i].estimatedTime.None?) ==> r == 0
    ensures (forall i :: 0 <= i < |steps| ==> Estimate(steps[i]) >= 0) ==> r >= 0
    decreases |steps|
  {
    if steps == [] then 0
    else
      assert forall i :: 1 <= i < |steps| ==> steps[1..][i - 1] == steps[i];
      Estimate(steps[0]) + TotalEstimatedTime(steps[1..])
  }

  /** The total of a concatenation is the sum of the totals. */
  lemma {:induction false} TotalAppend(a: seq<StepData>, b: seq<StepData>)
    ensures TotalEstimatedTime(a + b) == TotalEstimatedTime(a) + TotalEstimatedTime(b)
    decreases |a|
  {
    if a != [] {
      TotalAppend(a[1..], b);
      assert (a + b)[1..] == a[1..] + b;
    } else {
      assert a + b == b;
    }
  }

  /** The total does not depend on the orders, only on what the steps are. */
  lemma {:induction false} TotalIgnoresOrder(a: seq<StepData>, b: seq<StepData>)
    requires Shape(a) == Shape(b)
    ensures TotalEstimatedTime(a) == TotalEstimatedTime(b)
    decreases |a|
  {
    if a != [] {
      assert Shape(a)[0] == Shape(b)[0];
      assert Shape(a[1..]) == Shape(a)[1..] && Shape(b[1..]) == Shape(b)[1..];
      TotalIgnoresOrder(a[1..], b[1..]);
    }
  }

  /** Adding a non-blank step adds its estimate (0 when absent) to the total. */
  lemma TotalAfterAdd(steps: seq<StepData>, input: string, priority: Priority, estimate: Option<int>)
    requires !Blank(input)
    ensures TotalEstimatedTime(AddStep(steps, input, priority, estimate)) ==
      TotalEstimatedTime(steps) + (if estimate.Some? then estimate.value else 0)
  {
    var r := AddStep(steps, input, priority, estimate);
    assert r == steps + [r[|steps|]];
    TotalAppend(steps, [r[|steps|]]);
  }

  /** Removing a step takes exactly its estimate off the total. */
  lemma TotalAfterRemove(steps: seq<StepData>, index: int)
    requires 0 <= index < |steps|
    ensures TotalEstimatedTime(RemoveStep(steps, index)) + Estimate(steps[index]) == TotalEstimatedTime(steps)
  {
    var a, x, b := steps[..index], steps[index], steps[index + 1..];
    assert Shape(RemoveStep(steps, index)) == Shape(a + b) by {
      assert RemoveStep(steps, index) == RemoveAndRenumber(steps, index);
    }
    TotalIgnoresOrder(RemoveStep(steps, index), a + b);
    TotalAppend(a, b);
    SplitAt(steps, index);
    TotalAppend(a, [x] + b);
    TotalAppend([x], b);
  }

  /** Exchanging two neighbours does not change the total. */
  lemma TotalSwapNeighbours(s: seq<StepData>, lo: nat)
    requires lo + 1 < |s|
    ensures TotalEstimatedTime(Swap(s, lo, lo + 1)) == TotalEstimatedTime(s)
  {
    var a, x, y, b := s[..lo], s[lo], s[lo + 1], s[lo + 2..];
    SplitAt(s, lo);
    assert s[lo..] == [x] + s[lo + 1..];
    SplitAt(s[lo..], 1);
    assert s == a + ([x, y] + b);
    var r, q := Swap(s, lo, lo + 1), a + ([y, x] + b);
    forall k | 0 <= k < |r|
      ensures r[k] == q[k]
    {
      if k < lo {
        assert q[k] == a[k];
      } else if k > lo + 1 {
        assert q[k] == b[k - lo - 2];
      }
    }
    assert r == q;
    TotalAppend(a, [x, y] + b);
    TotalAppend(a, [y, x] + b);
    TotalAppend([x, y], b);
    TotalAppend([y, x], b);
  }

  lemma SwapSymmetric<T>(s: seq<T>, i: nat, j: nat)
    requires i < |s| && j < |s|
    ensures Swap(s, i, j) == Swap(s, j, i)
  {
  }

  /** Moving a step never changes the total. */
  lemma TotalAfterMove(steps: seq<StepData>, index: int, dir: Direction)
    requires 0 <= index < |steps|
    ensures TotalEstimatedTime(MoveStep(steps, index, dir)) == TotalEstimatedTime(steps)
  {
    if !IsIgnoredMove(|steps|, index, dir) {
      var t := Target(index, dir);
      var lo := if index < t then index else t;
      var s := Swap(steps, lo, lo + 1);
      assert MoveStep(steps, index, dir) == Renumber(s) by {
        SwapSymmetric(steps, index, t);
      }
      TotalIgnoresOrder(Renumber(s), s);
      TotalSwapNeighbours(steps, lo);
    }
  }
}
