/**
 Query graphs of the TreeWalker VM and their reference meaning: every node is
 evaluated once, in the order of the topologically sorted node list.
 */
module Dataflow {
  import opened Wrappers

  const MAX_RECURSION_DEPTH: nat := 128

  /** `Data` stands for every value the scheduler does not look into. */
  datatype Value = Null | Bool(b: bool) | List(items: seq<Value>) | Data(id: int)

  /** `Prim` stands for the remaining operators; `chained` is `is_optional_chained`. */
  datatype Op =
    | LoadParam(index: nat)
    | And
    | Or
    | Not
    | IsNull
    | Nop
    | Select
    | Throw
    | Call(graph: nat)
    | Reduce(graph: nat)
    | Prim(code: int, chained: bool)

  /** `typed` tells whether the type checker assigned the node a value type (effect nodes have none). */
  datatype GraphNode = GraphNode(op: Op, inEdges: seq<nat>, pre: Option<nat>, typed: bool)

  datatype Graph = Graph(nodes: seq<GraphNode>, output: Option<nat>)

  /** Errors and panics alike end a run, so they are one outcome. */
  datatype Outcome = Fail | Ok(value: Option<Value>)

  type PrimFn = (int, seq<Value>) -> Outcome

  /** What a node evaluation depends on besides its parameters. */
  datatype Frame = Frame(script: seq<Graph>, prim: PrimFn, params: seq<Value>, depth: nat)

  datatype Status = Idle | Done(value: Option<Value>) | Failed

  function DepthLeft(depth: nat): nat {
    if depth >= MAX_RECURSION_DEPTH then 0 else MAX_RECURSION_DEPTH - depth
  }

  predicate OptionalChained(op: Op) {
    match op
    case IsNull => false
    case Nop => false
    case Reduce(_) => false
    case Throw => false
    case Prim(_, chained) => chained
    case _ => true
  }

  function NullResult(n: GraphNode): Outcome {
    Ok(if n.typed then Some(Null) else None)
  }

  /** `run_node`: the evaluation of one node on its parameters. */
  function RunNode(f: Frame, n: GraphNode, ps: seq<Value>): Outcome
    decreases DepthLeft(f.depth), 2, 0
  {
    if OptionalChained(n.op) && Null in ps then
      NullResult(n)
    else
      match n.op
      case LoadParam(i) => if i < |f.params| then Ok(Some(f.params[i])) else Fail
      case And => if |ps| == 2 && ps[0].Bool? && ps[1].Bool? then Ok(Some(Bool(ps[0].b && ps[1].b))) else Fail
      case Or => if |ps| == 2 && ps[0].Bool? && ps[1].Bool? then Ok(Some(Bool(ps[0].b || ps[1].b))) else Fail
      case Not => if |ps| == 1 && ps[0].Bool? then Ok(Some(Bool(!ps[0].b))) else Fail
      case IsNull => if |ps| == 1 then Ok(Some(Bool(ps[0].Null?))) else Fail
      case Nop => if |ps| == 1 then Ok(Some(ps[0])) else Fail
      case Select => Fail
      case Throw => Fail
      case Call(g) => Execute(f.script, f.prim, g, ps, f.depth)
      case Reduce(g) =>
        if |ps| != 3 then Fail
        else if ps[2].Null? then NullResult(n)
        else if ps[2].List? then ReduceList(f, g, ps[0], ps[1], ps[2].items)
        else Fail
      case Prim(code, _) => f.prim(code, ps)
  }

  /** The `Reduce` loop over a list: stop at the first null, keep the last accumulator. */
  function ReduceList(f: Frame, g: nat, param: Value, acc: Value, items: seq<Value>): Outcome
    decreases DepthLeft(f.depth), 1, |items|
  {
    if items == [] then Ok(Some(acc)) else
    match Execute(f.script, f.prim, g, [param, acc, items[0]], f.depth)
    case Fail => Fail
    case Ok(None) => Fail
    case Ok(Some(v)) => if v.Null? then Ok(Some(acc)) else ReduceList(f, g, param, v, items[1..])
  }

  /** The status of a source node; a source that is not there never fires. */
  function At(s: seq<Status>, i: nat): Status {
    if i < |s| then s[i] else Idle
  }

  /** What a completed precondition node means for its targets. */
  predicate Enables(v: Option<Value>) {
    v.None? || v.value == Bool(true)
  }

  predicate PreHolds(s: seq<Status>, pre: Option<nat>) {
    pre.None? || (At(s, pre.value).Done? && Enables(At(s, pre.value).value))
  }

  predicate Fired(s: seq<Status>, i: nat) {
    At(s, i).Done? && At(s, i).value.Some?
  }

  predicate AllFired(s: seq<Status>, edges: seq<nat>) {
    forall p :: 0 <= p < |edges| ==> Fired(s, edges[p])
  }

  function Params(s: seq<Status>, edges: seq<nat>): (r: seq<Value>)
    requires AllFired(s, edges)
    ensures |r| == |edges|
    ensures forall p :: 0 <= p < |edges| ==> r[p] == At(s, edges[p]).value.value
  {
    if edges == [] then [] else [At(s, edges[0]).value.value] + Params(s, edges[1..])
  }

  /** The first candidate of a `select` that fired. */
  function FirstFired(s: seq<Status>, edges: seq<nat>): Option<Value> {
    if edges == [] then None
    else if Fired(s, edges[0]) then At(s, edges[0]).value
    else FirstFired(s, edges[1..])
  }

  function NodeStatus(f: Frame, s: seq<Status>, n: GraphNode): Status
    decreases DepthLeft(f.depth), 3, 0
  {
    if !PreHolds(s, n.pre) then Idle
    else if n.op.Select? then
      var v := FirstFired(s, n.inEdges);
      if v.Some? then Done(v) else Idle
    else if AllFired(s, n.inEdges) then
      match RunNode(f, n, Params(s, n.inEdges))
      case Fail => Failed
      case Ok(v) => Done(v)
    else Idle
  }

  /** In-order evaluation of a node list. */
  function Statuses(f: Frame, nodes: seq<GraphNode>): (s: seq<Status>)
    ensures |s| == |nodes|
    decreases DepthLeft(f.depth), 4, |nodes|
  {
    if nodes == [] then []
    else
      var s := Statuses(f, nodes[..|nodes| - 1]);
      s + [NodeStatus(f, s, nodes[|nodes| - 1])]
  }

  /** A completed node whose value one of its users cannot take; the executor panics on these. */
  predicate Fault(nodes: seq<GraphNode>, s: seq<Status>, i: nat)
    requires i < |s|
  {
    s[i].Done? &&
    ((s[i].value.None? && exists n <- nodes :: i in n.inEdges) ||
     (s[i].value.Some? && !s[i].value.value.Null? && !s[i].value.value.Bool? &&
      exists n <- nodes :: n.pre == Some(i)))
  }

  predicate GraphFails(nodes: seq<GraphNode>, s: seq<Status>) {
    exists i :: 0 <= i < |s| && (s[i].Failed? || Fault(nodes, s, i))
  }

  function OutputOf(s: seq<Status>, output: Option<nat>): Option<Value> {
    if output.Some? && At(s, output.value).Done? then At(s, output.value).value else None
  }

  function GraphOutcome(f: Frame, g: Graph): Outcome
    decreases DepthLeft(f.depth), 5
  {
    var s := Statuses(f, g.nodes);
    if GraphFails(g.nodes, s) then Fail else Ok(OutputOf(s, g.output))
  }

  /** A (sub)graph call: `depth` counts the calls above it. */
  function Execute(script: seq<Graph>, prim: PrimFn, g: nat, params: seq<Value>, depth: nat): Outcome
    decreases DepthLeft(depth), 0, 0
  {
    if depth >= MAX_RECURSION_DEPTH || g >= |script| then Fail
    else GraphOutcome(Frame(script, prim, params, depth + 1), script[g])
  }

  /** In-edges and preconditions point backwards (checked by the type checker). */
  predicate Topological(nodes: seq<GraphNode>) {
    forall i :: 0 <= i < |nodes| ==>
      (forall e <- nodes[i].inEdges :: e < i) && (nodes[i].pre.Some? ==> nodes[i].pre.value < i)
  }

  // ---------------------------------------------------------------------------
  // In-order evaluation as a fixed point

  lemma {:induction false} StatusesSnoc(f: Frame, nodes: seq<GraphNode>, n: GraphNode)
    ensures Statuses(f, nodes + [n]) == Statuses(f, nodes) + [NodeStatus(f, Statuses(f, nodes), n)]
  {
    assert (nodes + [n])[..|nodes|] == nodes;
  }

  lemma {:induction false} StatusesPrefix(f: Frame, nodes: seq<GraphNode>, k: nat)
    requires k <= |nodes|
    ensures Statuses(f, nodes)[..k] == Statuses(f, nodes[..k])
    decreases |nodes|
  {
    if k < |nodes| {
      var init := nodes[..|nodes| - 1];
      StatusesPrefix(f, init, k);
      assert init[..k] == nodes[..k];
      assert Statuses(f, nodes)[..k] == Statuses(f, init)[..k];
    } else {
      assert nodes[..k] == nodes;
    }
  }

  lemma {:induction false} FirstFiredAgree(s: seq<Status>, t: seq<Status>, edges: seq<nat>)
    requires forall e <- edges :: At(s, e) == At(t, e)
    ensures FirstFired(s, edges) == FirstFired(t, edges)
  {
    if edges != [] { FirstFiredAgree(s, t, edges[1..]); }
  }

  lemma {:induction false} NodeStatusAgree(f: Frame, s: seq<Status>, t: seq<Status>, n: GraphNode)
    requires forall e <- n.inEdges :: At(s, e) == At(t, e)
    requires n.pre.Some? ==> At(s, n.pre.value) == At(t, n.pre.value)
    ensures NodeStatus(f, s, n) == NodeStatus(f, t, n)
  {
    FirstFiredAgree(s, t, n.inEdges);
    if AllFired(s, n.inEdges) {
      assert Params(s, n.inEdges) == Params(t, n.inEdges);
    }
  }

  /** On a topological graph the statuses solve one equation per node. */
  lemma {:induction false} StatusEquation(f: Frame, nodes: seq<GraphNode>, i: nat)
    requires Topological(nodes) && i < |nodes|
    ensures Statuses(f, nodes)[i] == NodeStatus(f, Statuses(f, nodes), nodes[i])
  {
    var s := Statuses(f, nodes);
    StatusesPrefix(f, nodes, i);
    StatusesPrefix(f, nodes, i + 1);
    assert nodes[..i + 1] == nodes[..i] + [nodes[i]];
    StatusesSnoc(f, nodes[..i], nodes[i]);
    assert s[i] == s[..i + 1][i];
    NodeStatusAgree(f, s[..i], s, nodes[i]);
  }

  lemma {:induction false} FirstFiredSome(s: seq<Status>, edges: seq<nat>)
    ensures FirstFired(s, edges).Some? <==> exists e <- edges :: Fired(s, e)
  {
    if edges != [] {
      FirstFiredSome(s, edges[1..]);
      assert edges == [edges[0]] + edges[1..];
    }
  }

}
