/** The workflow view of components/FlowchartWorkflow.tsx: steps shown in `order`,
    a connector after every step but the last, the completion test and the progress figures. */
module FlowchartWorkflow {
  import opened Types
  import opened Steps
  import opened Percent

  /** `steps.sort((a, b) => a.order - b.order)`: the steps in ascending order; a densely
      ordered workflow is shown exactly as stored. */
  function DisplayOrder(ws: seq<Step>): (r: seq<Step>)
    ensures SortedByOrder(r) && multiset(r) == multiset(ws) && |r| == |ws|
    ensures Dense(Data(ws)) ==> r == ws
  {
    DenseDisplaysAsStored(ws);
    SortByOrder(ws)
  }

  /** What the flowchart draws between START and END. */
  datatype Node = Box(step: Step) | Connector(green: bool)

  /** One box per step; after each step but the last a connector, green when that step is completed. */
  function Layout(ws: seq<Step>): (r: seq<Node>)
    ensures |r| == if ws == [] then 0 else 2 * |ws| - 1
    ensures forall k :: 0 <= k < |ws| ==> r[2 * k] == Box(ws[k])
    ensures forall k :: 0 <= k < |ws| - 1 ==> r[2 * k + 1] == Connector(ws[k].completed)
    decreases |ws|
  {
    if ws == [] then []
    else if |ws| == 1 then [Box(ws[0])]
    else
      var rest := Layout(ws[1..]);
      assert forall k :: 1 <= k < |ws| ==> rest[2 * (k - 1)] == Box(ws[k]);
      assert forall k :: 1 <= k < |ws| - 1 ==> rest[2 * (k - 1) + 1] == Connector(ws[k].completed);
      [Box(ws[0]), Connector(ws[0].completed)] + rest
  }

  /** The number of connectors drawn. */
  function Connectors(nodes: seq<Node>): nat
    decreases |nodes|
  {
    if nodes == [] then 0 else (if nodes[0].Connector? then 1 else 0) + Connectors(nodes[1..])
  }

  /** A workflow of n steps is drawn with n - 1 connectors. */
  lemma {:induction false} ConnectorCount(ws: seq<Step>)
    requires ws != []
    ensures Connectors(Layout(ws)) == |ws| - 1
    decreases |ws|
  {
    if |ws| > 1 {
      ConnectorCount(ws[1..]);
      var l := Layout(ws);
      assert l == [Box(ws[0]), Connector(ws[0].completed)] + Layout(ws[1..]);
      assert l[1..] == [Connector(ws[0].completed)] + Layout(ws[1..]);
      assert l[1..][1..] == Layout(ws[1..]);
    }
  }

  /** The rendered flowchart: the layout of the steps in display order. */
  function Flowchart(ws: seq<Step>): (r: seq<Node>)
    ensures |r| == if ws == [] then 0 else 2 * |ws| - 1
    ensures forall k :: 0 <= k < |ws| ==> r[2 * k].Box? && r[2 * k].step in ws
  {
    var shown := DisplayOrder(ws);
    assert forall k :: 0 <= k < |ws| ==> shown[k] in multiset(ws);
    Layout(shown)
  }

  /** `steps.every(step => step.completed)`: the END node pulses and "Workflow Complete!"
      shows; an empty workflow qualifies. */
  predicate WorkflowComplete(ws: seq<Step>): (r: bool)
    ensures r <==> CountCompleted(ws) == |ws|
    ensures r <==> ws == [] || Ratio(CountCompleted(ws), |ws|) == 100.0
  {
    AllCompleted(ws)
  }

  /** The progress bar's width in percent, 0 for an empty workflow. */
  function BarWidth(ws: seq<Step>): (r: real)
    ensures 0.0 <= r <= 100.0
    ensures r == 100.0 <==> ws != [] && WorkflowComplete(ws)
    ensures r == 0.0 <==> forall i :: 0 <= i < |ws| ==> !ws[i].completed
    ensures ws != [] ==> r == CountCompleted(ws) as real / |ws| as real * 100.0
  {
    Ratio(CountCompleted(ws), |ws|)
  }

  /** The percentage label: `Math.round` of the ratio, with 0 for an empty workflow.
      It equals the integer round-half-up of 100·completed/total. */
  function ShownPercent(ws: seq<Step>): (r: int)
    ensures r == RoundedPercent(CountCompleted(ws), |ws|)
    ensures 0 <= r <= 100
    ensures ws != [] && WorkflowComplete(ws) ==> r == 100
    ensures |ws| < 200 && r == 100 ==> WorkflowComplete(ws)
  {
    if |ws| > 0 then
      var c := CountCompleted(ws);
      RoundedPercentIsRounding(c, |ws|);
      HundredMeansAllDone(c, |ws|);
      RoundHalfUp(Ratio(c, |ws|))
    else 0
  }

  /** From 200 steps on, the label reads 100% while one step is still open. */
  lemma ShownHundredWhileIncomplete(ws: seq<Step>)
    requires |ws| >= 200 && CountCompleted(ws) == |ws| - 1
    ensures ShownPercent(ws) == 100 && !WorkflowComplete(ws)
  {
    HundredWithOneStepLeft(CountCompleted(ws), |ws|);
  }
}
