/** Operations on ordered step lists that several components share: dense ordering,
    removal by index, the submit-time mapping into workflow steps, completion counts
    and the display sort by `order`. */
module Steps {
  import opened Types

  // ----- Dense ordering -----

  /** Every step's `order` is its index: the orders are exactly 0..n-1. */
  predicate Dense(s: seq<StepData>) {
    forall i :: 0 <= i < |s| ==> s[i].order == i
  }

  /** A step with its position forgotten: what stays the same when steps are renumbered. */
  function Erase(d: StepData): StepData {
    d.(order := 0)
  }

  /** The list with every position forgotten. */
  function Shape(s: seq<StepData>): (r: seq<StepData>)
    ensures |r| == |s|
  {
    seq(|s|, i requires 0 <= i < |s| => Erase(s[i]))
  }

  /** Two lists with the same shape that are both dense are equal. */
  lemma DenseShapeUnique(a: seq<StepData>, b: seq<StepData>)
    requires Dense(a) && Dense(b) && Shape(a) == Shape(b)
    ensures a == b
  {
    forall i | 0 <= i < |a|
      ensures a[i] == b[i]
    {
      assert Shape(a)[i] == Shape(b)[i];
    }
  }

  /** `steps.map((step, i) => ({ ...step, order: i }))`: the same steps, orders made dense. */
  function Renumber(s: seq<StepData>): (r: seq<StepData>)
    ensures Dense(r)
    ensures Shape(r) == Shape(s)
  {
    var r := seq(|s|, i requires 0 <= i < |s| => s[i].(order := i));
    assert forall i :: 0 <= i < |s| ==> Shape(r)[i] == Shape(s)[i];
    r
  }

  /** Renumbering a list that is already dense changes nothing. */
  lemma RenumberDense(s: seq<StepData>)
    requires Dense(s)
    ensures Renumber(s) == s
  {
    DenseShapeUnique(Renumber(s), s);
  }

  /** Appending a step whose order is the old length: `[...steps, { ...step, order: steps.length }]`. */
  function Append(s: seq<StepData>, d: StepData): (r: seq<StepData>)
    ensures |r| == |s| + 1 && r[..|s|] == s
    ensures r[|s|].order == |s| && Erase(r[|s|]) == Erase(d)
    ensures Dense(s) ==> Dense(r)
  {
    s + [d.(order := |s|)]
  }

  // ----- Removal by index -----

  /** `xs.filter((_, i) => i !== index)`: keeps every element whose index differs from `index`. */
  function RemoveAt<T>(s: seq<T>, index: int): (r: seq<T>)
    ensures 0 <= index < |s| ==> r == s[..index] + s[index + 1..]
    ensures !(0 <= index < |s|) ==> r == s
    decreases |s|
  {
    if s == [] then []
    else if index == 0 then s[1..]
    else
      var rest := RemoveAt(s[1..], index - 1);
      if 0 < index < |s| then
        assert s[1..][..index - 1] == s[1..index] && s[1..][index..] == s[index + 1..];
        assert s[..index] == [s[0]] + s[1..index];
        [s[0]] + rest
      else
        assert s == [s[0]] + s[1..];
        [s[0]] + rest
  }

  /** A list is its prefix, the element at `i`, and its suffix. */
  lemma SplitAt<T>(s: seq<T>, i: nat)
    requires i < |s|
    ensures s == s[..i] + ([s[i]] + s[i + 1..])
  {
  }

  /** Removing one element takes exactly that element out of the multiset. */
  lemma {:induction false} RemoveAtMultiset<T>(s: seq<T>, index: int)
    requires 0 <= index < |s|
    ensures multiset(RemoveAt(s, index)) + multiset{s[index]} == multiset(s)
    decreases |s|
  {
    assert s == [s[0]] + s[1..];
    if index > 0 {
      RemoveAtMultiset(s[1..], index - 1);
      assert s[1..][index - 1] == s[index];
    }
  }

  /** The builders' removal: drop the step at `index`, then renumber. */
  function RemoveAndRenumber(s: seq<StepData>, index: int): (r: seq<StepData>)
    ensures Dense(r)
    ensures 0 <= index < |s| ==> |r| == |s| - 1 && Shape(r) == Shape(s[..index] + s[index + 1..])
    ensures !(0 <= index < |s|) ==> Shape(r) == Shape(s)
  {
    Renumber(RemoveAt(s, index))
  }

  // ----- Workflow steps -----

  /** The builder data of each workflow step. */
  function Data(ws: seq<Step>): (r: seq<StepData>)
    ensures |r| == |ws|
  {
    seq(|ws|, i requires 0 <= i < |ws| => ws[i].data)
  }

  /** The submit-time mapping `steps.map((step, index) => ({ ...step, id, order: index,
      completed: false }))`, with the fresh ids passed in and the given status field. */
  function ToWorkflow(steps: seq<StepData>, ids: seq<string>, status: Option<StepStatus>): (r: seq<Step>)
    requires |ids| == |steps|
    ensures |r| == |steps|
    ensures Dense(Data(r)) && Shape(Data(r)) == Shape(steps)
    ensures forall i :: 0 <= i < |r| ==> r[i].id == ids[i] && !r[i].completed && r[i].status == status
  {
    var renumbered := Renumber(steps);
    var r := seq(|steps|, i requires 0 <= i < |steps| => Step(ids[i], renumbered[i], false, status));
    assert Data(r) == renumbered;
    r
  }

  /** `steps.every(step => step.completed)`; vacuously true of an empty list. */
  predicate AllCompleted(ws: seq<Step>) {
    forall i :: 0 <= i < |ws| ==> ws[i].completed
  }

  /** `steps.filter(step => step.completed).length`. */
  function CountCompleted(ws: seq<Step>): (r: nat)
    ensures r <= |ws|
    ensures |ws| == 1 ==> (r == 1 <==> ws[0].completed)
    ensures r == |ws| <==> AllCompleted(ws)
    ensures r == 0 <==> forall i :: 0 <= i < |ws| ==> !ws[i].completed
    decreases |ws|
  {
    if ws == [] then 0
    else
      var rest := CountCompleted(ws[1..]);
      assert forall i :: 1 <= i < |ws| ==> ws[i] == ws[1..][i - 1];
      (if ws[0].completed then 1 else 0) + rest
  }

  /** `steps.filter(step => step.status === st).length`. */
  function CountStatus(ws: seq<Step>, st: StepStatus): (r: nat)
    ensures r <= |ws|
    ensures |ws| == 1 ==> (r == 1 <==> ws[0].status == Some(st))
    ensures r == |ws| <==> forall i :: 0 <= i < |ws| ==> ws[i].status == Some(st)
    ensures r == 0 <==> forall i :: 0 <= i < |ws| ==> ws[i].status != Some(st)
    decreases |ws|
  {
    if ws == [] then 0
    else
      var rest := CountStatus(ws[1..], st);
      assert forall i :: 1 <= i < |ws| ==> ws[i] == ws[1..][i - 1];
      (if ws[0].status == Some(st) then 1 else 0) + rest
  }

  /** The completed count is additive over concatenation; with the one-step case this
      fixes the count of every list. */
  lemma {:induction false} CountCompletedAppend(a: seq<Step>, b: seq<Step>)
    ensures CountCompleted(a + b) == CountCompleted(a) + CountCompleted(b)
    decreases |a|
  {
    if a == [] {
      assert a + b == b;
    } else {
      assert (a + b)[0] == a[0] && (a + b)[1..] == a[1..] + b;
      CountCompletedAppend(a[1..], b);
    }
  }

  /** The completed count split around one position. */
  lemma CountCompletedAround(ws: seq<Step>, j: nat)
    requires j < |ws|
    ensures CountCompleted(ws) == CountCompleted(ws[..j]) + (if ws[j].completed then 1 else 0) + CountCompleted(ws[j + 1..])
  {
    var pre, mid, post := ws[..j], [ws[j]], ws[j + 1..];
    assert ws == pre + (mid + post);
    CountCompletedAppend(pre, mid + post);
    CountCompletedAppend(mid, post);
    assert CountCompleted(mid) == if ws[j].completed then 1 else 0;
  }

  /** The status count is additive over concatenation. */
  lemma {:induction false} CountStatusAppend(a: seq<Step>, b: seq<Step>, st: StepStatus)
    ensures CountStatus(a + b, st) == CountStatus(a, st) + CountStatus(b, st)
    decreases |a|
  {
    if a == [] {
      assert a + b == b;
    } else {
      assert (a + b)[0] == a[0] && (a + b)[1..] == a[1..] + b;
      CountStatusAppend(a[1..], b, st);
    }
  }

  /** The status count split around one position. */
  lemma CountStatusAround(ws: seq<Step>, j: nat, st: StepStatus)
    requires j < |ws|
    ensures CountStatus(ws, st) ==
      CountStatus(ws[..j], st) + (if ws[j].status == Some(st) then 1 else 0) + CountStatus(ws[j + 1..], st)
  {
    var pre, mid, post := ws[..j], [ws[j]], ws[j + 1..];
    assert ws == pre + (mid + post);
    CountStatusAppend(pre, mid + post, st);
    CountStatusAppend(mid, post, st);
    assert CountStatus(mid, st) == if ws[j].status == Some(st) then 1 else 0;
  }

  // ----- Display order -----

  /** Ascending by `order`. */
  predicate SortedByOrder(ws: seq<Step>) {
    forall i, j :: 0 <= i < j < |ws| ==> ws[i].data.order <= ws[j].data.order
  }

  /** Inserts `x` before the first element whose order is not smaller, so that among
      equal orders the earlier element stays first. */
  function Insert(x: Step, ws: seq<Step>): (r: seq<Step>)
    requires SortedByOrder(ws)
    ensures SortedByOrder(r)
    ensures multiset(r) == multiset(ws) + multiset{x}
    ensures |r| == |ws| + 1
    ensures r[0] == x || (ws != [] && r[0] == ws[0])
    decreases |ws|
  {
    if ws == [] then [x]
    else if x.data.order <= ws[0].data.order then
      ConsSorted(x, ws);
      [x] + ws
    else
      SortedTail(ws);
      var rest := Insert(x, ws[1..]);
      InsertBehindHead(x, ws, rest);
      [ws[0]] + rest
  }

  /** The recursive case of `Insert`: the head stays in front of the insertion into the tail. */
  lemma InsertBehindHead(x: Step, ws: seq<Step>, rest: seq<Step>)
    requires ws != [] && SortedByOrder(ws) && ws[0].data.order < x.data.order
    requires SortedByOrder(rest) && multiset(rest) == multiset(ws[1..]) + multiset{x}
    requires rest != [] && (rest[0] == x || (|ws| > 1 && rest[0] == ws[1]))
    ensures SortedByOrder([ws[0]] + rest)
    ensures multiset([ws[0]] + rest) == multiset(ws) + multiset{x}
  {
    ConsSorted(ws[0], rest);
    assert ws == [ws[0]] + ws[1..];
  }

  /** The tail of an ascending list is ascending. */
  lemma SortedTail(ws: seq<Step>)
    requires ws != [] && SortedByOrder(ws)
    ensures SortedByOrder(ws[1..])
  {
    forall i, j | 0 <= i < j < |ws| - 1 ensures ws[1..][i].data.order <= ws[1..][j].data.order {
      assert ws[1..][i] == ws[i + 1] && ws[1..][j] == ws[j + 1];
    }
  }

  /** An element no later than the head of an ascending list can go in front of it. */
  lemma ConsSorted(a: Step, ws: seq<Step>)
    requires SortedByOrder(ws)
    requires ws != [] ==> a.data.order <= ws[0].data.order
    ensures SortedByOrder([a] + ws)
  {
    var r := [a] + ws;
    forall i, j | 0 <= i < j < |r| ensures r[i].data.order <= r[j].data.order {
      assert r[j] == ws[j - 1];
      if i > 0 {
        assert r[i] == ws[i - 1];
      }
    }
  }

  /** `steps.sort((a, b) => a.order - b.order)` (a stable sort): an ascending
      rearrangement of the same steps. */
  function SortByOrder(ws: seq<Step>): (r: seq<Step>)
    ensures SortedByOrder(r)
    ensures multiset(r) == multiset(ws)
    ensures |r| == |ws|
    decreases |ws|
  {
    if ws == [] then []
    else
      assert ws == [ws[0]] + ws[1..];
      Insert(ws[0], SortByOrder(ws[1..]))
  }

  /** Sorting a list that is already in ascending order leaves it as it is. */
  lemma {:induction false} SortSortedIdentity(ws: seq<Step>)
    requires SortedByOrder(ws)
    ensures SortByOrder(ws) == ws
    decreases |ws|
  {
    if ws != [] {
      SortSortedIdentity(ws[1..]);
    }
  }

  /** A densely ordered workflow is already sorted, so its display order is its stored order. */
  lemma DenseDisplaysAsStored(ws: seq<Step>)
    ensures Dense(Data(ws)) ==> SortByOrder(ws) == ws
  {
    if Dense(Data(ws)) {
      assert forall i :: 0 <= i < |ws| ==> ws[i].data.order == Data(ws)[i].order;
      SortSortedIdentity(ws);
    }
  }
}
