/**
 The executor's scheduler (`recursively_run_graph`): any pending node may complete
 next, its result is delivered to its users, and users that became ready are started.
 Whatever the completion order, the run refines in-order evaluation.
 */
module Scheduler {
  import opened Wrappers
  import opened Dataflow

  // ---------------------------------------------------------------------------
  // Fire rules

  datatype FireKind = ParamDep(pos: nat) | Precondition

  datatype FireItem = FireItem(target: nat, kind: FireKind)

  function ParamItems(edges: seq<nat>, target: nat, src: nat, k: nat): seq<FireItem>
    requires k <= |edges|
  {
    if k == 0 then []
    else ParamItems(edges, target, src, k - 1) +
         (if edges[k - 1] == src then [FireItem(target, ParamDep(k - 1))] else [])
  }

  function NodeItems(n: GraphNode, target: nat, src: nat): seq<FireItem> {
    ParamItems(n.inEdges, target, src, |n.inEdges|) +
    (if n.pre == Some(src) then [FireItem(target, Precondition)] else [])
  }

  /** What the completion of `src` triggers among the first `k` nodes. */
  function Row(nodes: seq<GraphNode>, src: nat, k: nat): seq<FireItem>
    requires k <= |nodes|
  {
    if k == 0 then [] else Row(nodes, src, k - 1) + NodeItems(nodes[k - 1], k - 1, src)
  }

  // ---------------------------------------------------------------------------
  // The scheduler as a step function

  /** `deps_satisfied` and `precondition_satisfied`. */
  datatype Board = Board(deps: seq<seq<Option<Value>>>, pre: seq<bool>)

  datatype Future = Future(node: nat, outcome: Outcome)

  /** `done` logs the completed nodes. */
  datatype Sched = Sched(board: Board, futures: seq<Future>, ret: Option<Value>, done: seq<nat>, failed: bool)

  /** First pass over one fire item; `None` is a panic. */
  function DeliverOne(b: Board, item: FireItem, v: Option<Value>): Option<Board> {
    var t := item.target;
    if t >= |b.deps| || t >= |b.pre| then None else
    match item.kind
    case ParamDep(p) =>
      if v.None? || p >= |b.deps[t]| then None
      else Some(b.(deps := b.deps[t := b.deps[t][p := v]]))
    case Precondition =>
      match v
      case None => Some(b.(pre := b.pre[t := true]))
      case Some(Bool(x)) => Some(b.(pre := b.pre[t := x]))
      case Some(Null) => Some(b.(pre := b.pre[t := false]))
      case Some(_) => None
  }

  function Deliver(b: Board, items: seq<FireItem>, v: Option<Value>): Option<Board>
    decreases items
  {
    if items == [] then Some(b) else
    match DeliverOne(b, items[0], v)
    case None => None
    case Some(b') => Deliver(b', items[1..], v)
  }

  function FirstSome(xs: seq<Option<Value>>): Option<Value> {
    if xs == [] then None else if xs[0].Some? then xs[0] else FirstSome(xs[1..])
  }

  function Unwrap(xs: seq<Option<Value>>): (r: seq<Value>)
    requires forall i :: 0 <= i < |xs| ==> xs[i].Some?
    ensures |r| == |xs| && forall i :: 0 <= i < |xs| ==> r[i] == xs[i].value
  {
    if xs == [] then [] else [xs[0].value] + Unwrap(xs[1..])
  }

  /** Second pass over one fire item: start its target if that is ready now. `None` is an error. */
  function FireOne(f: Frame, nodes: seq<GraphNode>, b: Board, fs: seq<Future>, item: FireItem)
    : Option<(Board, seq<Future>)>
  {
    var t := item.target;
    if t >= |b.deps| || t >= |b.pre| || t >= |nodes| then None
    else if !b.pre[t] then Some((b, fs))
    else if nodes[t].op.Select? then
      if b.deps[t] == [] then None
      else
        var v := FirstSome(b.deps[t]);
        if v.None? then Some((b, fs))
        else Some((b.(deps := b.deps[t := []]), fs + [Future(t, Ok(v))]))
    else if forall p :: 0 <= p < |b.deps[t]| ==> b.deps[t][p].Some? then
      Some((b.(deps := b.deps[t := []]), fs + [Future(t, RunNode(f, nodes[t], Unwrap(b.deps[t])))]))
    else Some((b, fs))
  }

  function FireAll(f: Frame, nodes: seq<GraphNode>, b: Board, fs: seq<Future>, items: seq<FireItem>)
    : Option<(Board, seq<Future>)>
    decreases items
  {
    if items == [] then Some((b, fs)) else
    match FireOne(f, nodes, b, fs, items[0])
    case None => None
    case Some((b', fs')) => FireAll(f, nodes, b', fs', items[1..])
  }

  /** The body of the completion loop, once `select_all` has handed over future `i`. */
  function Complete(f: Frame, g: Graph, st: Sched, i: nat): Sched
    requires i < |st.futures|
  {
    var fu := st.futures[i];
    var rest := st.futures[..i] + st.futures[i + 1..];
    var items := Row(g.nodes, fu.node, |g.nodes|);
    if fu.outcome.Fail? then st.(failed := true) else
    match Deliver(st.board, items, fu.outcome.value)
    case None => st.(failed := true)
    case Some(b) =>
      match FireAll(f, g.nodes, b, rest, items)
      case None => st.(failed := true)
      case Some((b', fs)) =>
        var ret := if g.output == Some(fu.node) then fu.outcome.value else st.ret;
        Sched(b', fs, ret, st.done + [fu.node], false)
  }

  function Blank(n: nat): (r: seq<Option<Value>>)
    ensures |r| == n && forall p :: 0 <= p < n ==> r[p] == None
  {
    if n == 0 then [] else Blank(n - 1) + [None]
  }

  function InitialBoard(nodes: seq<GraphNode>): (b: Board)
    ensures |b.deps| == |b.pre| == |nodes|
    ensures forall t :: 0 <= t < |nodes| ==> b.deps[t] == Blank(|nodes[t].inEdges|) && b.pre[t] == nodes[t].pre.None?
  {
    if nodes == [] then Board([], []) else
    var n := nodes[|nodes| - 1];
    var b := InitialBoard(nodes[..|nodes| - 1]);
    Board(b.deps + [Blank(|n.inEdges|)], b.pre + [n.pre.None?])
  }

  predicate StartsAtOnce(n: GraphNode) {
    n.inEdges == [] && n.pre.None?
  }

  function InitialFutures(f: Frame, nodes: seq<GraphNode>, k: nat): seq<Future>
    requires k <= |nodes|
  {
    if k == 0 then []
    else InitialFutures(f, nodes, k - 1) +
         (if StartsAtOnce(nodes[k - 1]) then [Future(k - 1, RunNode(f, nodes[k - 1], []))] else [])
  }

  function Init(f: Frame, g: Graph): Sched {
    Sched(InitialBoard(g.nodes), InitialFutures(f, g.nodes, |g.nodes|), None, [], false)
  }

  /**
   The state after a schedule, which lists, completion by completion, which pending future
   comes next; `None` if it names a future that is not there or goes on after a failure.
   */
  function Run(f: Frame, g: Graph, schedule: seq<nat>): Option<Sched> {
    if schedule == [] then Some(Init(f, g)) else
    var (prefix, i) := (schedule[..|schedule| - 1], schedule[|schedule| - 1]);
    match Run(f, g, prefix)
    case None => None
    case Some(st) => if st.failed || i >= |st.futures| then None else Some(Complete(f, g, st, i))
  }

  // ---------------------------------------------------------------------------
  // Hypotheses

  /** No node names the same source twice among its in-edges and its precondition. */
  predicate DistinctSources(n: GraphNode) {
    (forall p, q :: 0 <= p < q < |n.inEdges| ==> n.inEdges[p] != n.inEdges[q]) &&
    (n.pre.Some? ==> n.pre.value !in n.inEdges)
  }

  /** What the type checker and the distinctness requirement give. */
  predicate WellFormed(nodes: seq<GraphNode>) {
    Topological(nodes) &&
    forall i :: 0 <= i < |nodes| ==>
      DistinctSources(nodes[i]) && (nodes[i].op.Select? ==> nodes[i].inEdges != [])
  }

  predicate AtMostOneDone(s: seq<Status>, edges: seq<nat>) {
    forall p, q :: 0 <= p < q < |edges| ==> !(At(s, edges[p]).Done? && At(s, edges[q]).Done?)
  }

  /** At most one candidate of an enabled `select` completes in order. */
  predicate SelectsExclusive(nodes: seq<GraphNode>, s: seq<Status>) {
    forall t :: 0 <= t < |nodes| && nodes[t].op.Select? && PreHolds(s, nodes[t].pre) ==>
      AtMostOneDone(s, nodes[t].inEdges)
  }

  /** `s` is the in-order evaluation, known only through its equations. */
  predicate Solves(f: Frame, nodes: seq<GraphNode>, s: seq<Status>) {
    |s| == |nodes| && forall i :: 0 <= i < |nodes| ==> s[i] == NodeStatus(f, s, nodes[i])
  }

  // ---------------------------------------------------------------------------
  // Facts about fire rules

  predicate Fits(n: GraphNode, src: nat, kind: FireKind) {
    match kind
    case ParamDep(p) => p < |n.inEdges| && n.inEdges[p] == src
    case Precondition => n.pre == Some(src)
  }

  predicate IsSource(n: GraphNode, src: nat) {
    src in n.inEdges || n.pre == Some(src)
  }

  predicate DistinctTargets(items: seq<FireItem>) {
    forall i, j :: 0 <= i < j < |items| ==> items[i].target != items[j].target
  }

  predicate Targets(items: seq<FireItem>, t: nat) {
    exists i :: 0 <= i < |items| && items[i].target == t
  }

  lemma {:induction false} ParamItemsFacts(edges: seq<nat>, target: nat, src: nat, k: nat)
    requires k <= |edges|
    ensures forall i <- ParamItems(edges, target, src, k) ::
      i.target == target && i.kind.ParamDep? && i.kind.pos < k && edges[i.kind.pos] == src
    ensures forall p :: 0 <= p < k && edges[p] == src ==>
      FireItem(target, ParamDep(p)) in ParamItems(edges, target, src, k)
    ensures (forall p, q :: 0 <= p < q < |edges| ==> edges[p] != edges[q]) ==>
      |ParamItems(edges, target, src, k)| == if src in edges[..k] then 1 else 0
  {
    if k > 0 {
      ParamItemsFacts(edges, target, src, k - 1);
      assert edges[..k] == edges[..k - 1] + [edges[k - 1]];
    }
  }

  lemma {:induction false} NodeItemsFacts(n: GraphNode, target: nat, src: nat)
    ensures forall i <- NodeItems(n, target, src) :: i.target == target && Fits(n, src, i.kind)
    ensures forall p :: 0 <= p < |n.inEdges| && n.inEdges[p] == src ==>
      FireItem(target, ParamDep(p)) in NodeItems(n, target, src)
    ensures n.pre == Some(src) ==> FireItem(target, Precondition) in NodeItems(n, target, src)
    ensures DistinctSources(n) ==> |NodeItems(n, target, src)| == if IsSource(n, src) then 1 else 0
  {
    ParamItemsFacts(n.inEdges, target, src, |n.inEdges|);
    assert n.inEdges[..|n.inEdges|] == n.inEdges;
  }

  lemma {:induction false} RowFits(nodes: seq<GraphNode>, src: nat, k: nat)
    requires k <= |nodes|
    ensures forall i <- Row(nodes, src, k) :: i.target < k && Fits(nodes[i.target], src, i.kind)
  {
    if k > 0 {
      RowFits(nodes, src, k - 1);
      NodeItemsFacts(nodes[k - 1], k - 1, src);
    }
  }

  lemma {:induction false} RowComplete(nodes: seq<GraphNode>, src: nat, k: nat, t: nat, kind: FireKind)
    requires t < k <= |nodes| && Fits(nodes[t], src, kind)
    ensures FireItem(t, kind) in Row(nodes, src, k)
  {
    if t < k - 1 {
      RowComplete(nodes, src, k - 1, t, kind);
    } else {
      NodeItemsFacts(nodes[t], t, src);
    }
  }

  lemma {:induction false} DistinctAppend(a: seq<FireItem>, b: seq<FireItem>, k: nat)
    requires DistinctTargets(a) && |b| <= 1
    requires forall i <- a :: i.target < k
    requires forall i <- b :: i.target == k
    ensures DistinctTargets(a + b)
  {
    forall i, j | 0 <= i < j < |a + b| ensures (a + b)[i].target != (a + b)[j].target {
      assert (a + b)[i] == a[i] && a[i] in a;
      if j == |a| { assert (a + b)[j] == b[0] && b[0] in b; }
    }
  }

  lemma {:induction false} RowDistinct(nodes: seq<GraphNode>, src: nat, k: nat)
    requires k <= |nodes|
    requires forall i :: 0 <= i < |nodes| ==> DistinctSources(nodes[i])
    ensures DistinctTargets(Row(nodes, src, k))
  {
    if k > 0 {
      RowFits(nodes, src, k - 1);
      RowDistinct(nodes, src, k - 1);
      NodeItemsFacts(nodes[k - 1], k - 1, src);
      DistinctAppend(Row(nodes, src, k - 1), NodeItems(nodes[k - 1], k - 1, src), k - 1);
    }
  }

  /** Exactly the users of a node are targeted by its row. */
  lemma {:induction false} RowTargets(nodes: seq<GraphNode>, src: nat, t: nat)
    requires t < |nodes|
    ensures Targets(Row(nodes, src, |nodes|), t) <==> IsSource(nodes[t], src)
  {
    var items := Row(nodes, src, |nodes|);
    RowFits(nodes, src, |nodes|);
    if src in nodes[t].inEdges {
      var p :| 0 <= p < |nodes[t].inEdges| && nodes[t].inEdges[p] == src;
      RowComplete(nodes, src, |nodes|, t, ParamDep(p));
    } else if nodes[t].pre == Some(src) {
      RowComplete(nodes, src, |nodes|, t, Precondition);
    }
  }

  // ---------------------------------------------------------------------------
  // The invariant of every run

  /** Completed nodes are fired in order and none of them upsets a user. */
  ghost predicate Settled(nodes: seq<GraphNode>, s: seq<Status>, d: set<nat>) {
    forall i <- d :: i < |s| && s[i].Done? && !Fault(nodes, s, i)
  }

  predicate PreIn(nodes: seq<GraphNode>, s: seq<Status>, d: set<nat>, t: nat)
    requires t < |nodes|
  {
    nodes[t].pre.None? || (nodes[t].pre.value in d && PreHolds(s, nodes[t].pre))
  }

  /** The node can start once exactly the nodes in `d` are complete. */
  predicate Ready(nodes: seq<GraphNode>, s: seq<Status>, d: set<nat>, t: nat)
    requires t < |nodes|
  {
    PreIn(nodes, s, d, t) &&
    if nodes[t].op.Select? then exists p :: 0 <= p < |nodes[t].inEdges| && nodes[t].inEdges[p] in d
    else forall p :: 0 <= p < |nodes[t].inEdges| ==> nodes[t].inEdges[p] in d
  }

  function Slot(s: seq<Status>, d: set<nat>, e: nat): Option<Value> {
    if e in d && At(s, e).Done? then At(s, e).value else None
  }

  /** The board's record of node `t`, when `d` is complete. */
  predicate BoardAt(nodes: seq<GraphNode>, s: seq<Status>, b: Board, t: nat, d: set<nat>, started: bool)
    requires t < |nodes|
  {
    t < |b.deps| && t < |b.pre| && b.pre[t] == PreIn(nodes, s, d, t) &&
    if started then b.deps[t] == []
    else |b.deps[t]| == |nodes[t].inEdges| &&
         forall p :: 0 <= p < |nodes[t].inEdges| ==> b.deps[t][p] == Slot(s, d, nodes[t].inEdges[p])
  }

  function OutcomeOf(s: Status): Outcome {
    if s.Done? then Ok(s.value) else Fail
  }

  predicate FutureOk(nodes: seq<GraphNode>, s: seq<Status>, d: set<nat>, fu: Future) {
    fu.node < |nodes| && fu.node < |s| && fu.node !in d && !s[fu.node].Idle? &&
    Ready(nodes, s, d, fu.node) && fu.outcome == OutcomeOf(s[fu.node])
  }

  predicate Pending(fs: seq<Future>, t: nat) {
    exists j :: 0 <= j < |fs| && fs[j].node == t
  }

  predicate DistinctFutures(fs: seq<Future>) {
    forall i, j :: 0 <= i < j < |fs| ==> fs[i].node != fs[j].node
  }

  function Members(xs: seq<nat>): set<nat> {
    set x | x in xs
  }

  ghost predicate Inv(g: Graph, s: seq<Status>, st: Sched) {
    var (nodes, d) := (g.nodes, Members(st.done));
    !st.failed && |s| == |nodes| && Settled(nodes, s, d) &&
    (forall i, j :: 0 <= i < j < |st.done| ==> st.done[i] != st.done[j]) &&
    (forall t <- d :: Ready(nodes, s, d, t)) &&
    |st.board.deps| == |st.board.pre| == |nodes| &&
    (forall t :: 0 <= t < |nodes| ==> BoardAt(nodes, s, st.board, t, d, Ready(nodes, s, d, t))) &&
    (forall j :: 0 <= j < |st.futures| ==> FutureOk(nodes, s, d, st.futures[j])) &&
    DistinctFutures(st.futures) &&
    (forall t :: 0 <= t < |nodes| && Ready(nodes, s, d, t) ==> t in d || Pending(st.futures, t)) &&
    st.ret == if g.output.Some? && g.output.value in d then OutputOf(s, g.output) else None
  }
}
