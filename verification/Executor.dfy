/**
 The executor's graph runner as the imperative loop it is: local tables, a vector of
 pending futures of which any may complete next, and recursive subgraph calls.
 */
module Executor {
  import opened Wrappers
  import opened Dataflow
  import opened Scheduler
  import opened Confluence
  import opened RunBounds
  import opened SelectConflict

  /** Edges point backwards and sources are distinct in every graph of the script. */
  predicate ScriptWellFormed(script: seq<Graph>) {
    forall g :: 0 <= g < |script| ==> WellFormed(script[g].nodes)
  }

  /** Every graph of the script is order independent, whatever it is called with. */
  ghost predicate ScriptDeterministic(script: seq<Graph>, prim: PrimFn) {
    forall g, params, depth: nat :: 0 <= g < |script| ==>
      Deterministic(Frame(script, prim, params, depth), script[g])
  }

  /** The outcome expected, or a failure that another completion order might have avoided. */
  ghost predicate Near(f: Frame, r: Outcome, expected: Outcome) {
    r == expected || (r == Fail && !ScriptDeterministic(f.script, f.prim))
  }

  ghost predicate NearAll(f: Frame, fs: seq<Future>, expected: seq<Future>) {
    |fs| == |expected| &&
    forall j :: 0 <= j < |fs| ==> fs[j].node == expected[j].node && Near(f, fs[j].outcome, expected[j].outcome)
  }

  /** `generate_fire_rules`: one row of fire items per source node. */
  method GenerateFireRules(nodes: seq<GraphNode>) returns (table: seq<seq<FireItem>>)
    requires Topological(nodes)
    ensures |table| == |nodes|
    ensures forall src :: 0 <= src < |nodes| ==> table[src] == Row(nodes, src, |nodes|)
  {
    table := seq(|nodes|, _ => []);
    for t := 0 to |nodes|
      invariant |table| == |nodes|
      invariant forall src :: 0 <= src < |nodes| ==> table[src] == Row(nodes, src, t)
    {
      ghost var before := table;
      table := AddFireRules(table, nodes[t], t);
      forall src | 0 <= src < |nodes| ensures table[src] == Row(nodes, src, t + 1) {
        assert table[src] == before[src] + NodeItems(nodes[t], t, src);
        RowStep(nodes, src, t);
      }
    }
  }

  lemma {:induction false} RowStep(nodes: seq<GraphNode>, src: nat, t: nat)
    requires t < |nodes|
    ensures Row(nodes, src, t + 1) == Row(nodes, src, t) + NodeItems(nodes[t], t, src)
  {
  }

  /** The fire items that one target node adds to the rows of its sources. */
  method AddFireRules(rows: seq<seq<FireItem>>, n: GraphNode, t: nat) returns (table: seq<seq<FireItem>>)
    requires (forall e <- n.inEdges :: e < |rows|) && (n.pre.Some? ==> n.pre.value < |rows|)
    ensures |table| == |rows|
    ensures forall src :: 0 <= src < |rows| ==> table[src] == rows[src] + NodeItems(n, t, src)
  {
    table := rows;
    for p := 0 to |n.inEdges|
      invariant |table| == |rows|
      invariant forall src :: 0 <= src < |rows| ==> table[src] == rows[src] + ParamItems(n.inEdges, t, src, p)
    {
      var e := n.inEdges[p];
      assert e in n.inEdges;
      table := table[e := table[e] + [FireItem(t, ParamDep(p))]];
    }
    if n.pre.Some? {
      table := table[n.pre.value := table[n.pre.value] + [FireItem(t, Precondition)]];
    }
  }

  /** First pass over the fire items: record the result with every user. */
  method DeliverResult(board: Board, items: seq<FireItem>, v: Option<Value>) returns (r: Option<Board>)
    ensures r == Deliver(board, items, v)
  {
    var b := board;
    for k := 0 to |items|
      invariant Deliver(b, items[k..], v) == Deliver(board, items, v)
    {
      assert items[k..][1..] == items[k + 1..];
      var next := DeliverOne(b, items[k], v);
      if next.None? { return None; }
      b := next.value;
    }
    r := Some(b);
  }

  /** Second pass: start every target that has become ready. */
  method StartReady(f: Frame, nodes: seq<GraphNode>, board: Board, futures: seq<Future>, items: seq<FireItem>,
                    ghost expected: seq<Future>)
    returns (r: Option<(Board, seq<Future>)>)
    requires ScriptWellFormed(f.script) && NearAll(f, futures, expected)
    ensures match FireAll(f, nodes, board, expected, items)
      case None => r.None?
      case Some((b, fs)) => r.Some? && r.value.0 == b && NearAll(f, r.value.1, fs)
    decreases DepthLeft(f.depth), 3
  {
    var (b, fs) := (board, futures);
    ghost var model := expected;
    for k := 0 to |items|
      invariant FireAll(f, nodes, b, model, items[k..]) == FireAll(f, nodes, board, expected, items)
      invariant NearAll(f, fs, model)
    {
      assert items[k..][1..] == items[k + 1..];
      var t := items[k].target;
      if t >= |b.deps| || t >= |b.pre| || t >= |nodes| { return None; }
      if b.pre[t] {
        if nodes[t].op.Select? {
          if b.deps[t] == [] { return None; }
          var v := FirstSome(b.deps[t]);
          if v.Some? {
            b, fs, model := b.(deps := b.deps[t := []]), fs + [Future(t, Ok(v))], model + [Future(t, Ok(v))];
          }
        } else if forall p :: 0 <= p < |b.deps[t]| ==> b.deps[t][p].Some? {
          var outcome := RunNodeOnce(f, nodes[t], Unwrap(b.deps[t]));
          model := model + [Future(t, RunNode(f, nodes[t], Unwrap(b.deps[t])))];
          b, fs := b.(deps := b.deps[t := []]), fs + [Future(t, outcome)];
        }
      }
    }
    r := Some((b, fs));
  }

  /** `run_node`, with subgraph calls going through the scheduler. */
  method RunNodeOnce(f: Frame, n: GraphNode, ps: seq<Value>) returns (r: Outcome)
    requires ScriptWellFormed(f.script)
    ensures Near(f, r, RunNode(f, n, ps))
    decreases DepthLeft(f.depth), 2
  {
    if !(OptionalChained(n.op) && Null in ps) {
      if n.op.Call? {
        r := RecursivelyRunGraph(f.script, f.prim, n.op.graph, ps, f.depth);
        return;
      } else if n.op.Reduce? && |ps| == 3 && ps[2].List? {
        r := ReduceOver(f, n.op.graph, ps[0], ps[1], ps[2].items);
        return;
      }
    }
    r := RunNode(f, n, ps);
  }

  /** The reduce loop: one subgraph call per list element, stopping at the first null. */
  method ReduceOver(f: Frame, g: nat, param: Value, init: Value, items: seq<Value>) returns (r: Outcome)
    requires ScriptWellFormed(f.script)
    ensures Near(f, r, ReduceList(f, g, param, init, items))
    decreases DepthLeft(f.depth), 1
  {
    var acc := init;
    for k := 0 to |items|
      invariant ReduceList(f, g, param, acc, items[k..]) == ReduceList(f, g, param, init, items)
    {
      assert items[k..][1..] == items[k + 1..];
      var out := RecursivelyRunGraph(f.script, f.prim, g, [param, acc, items[k]], f.depth);
      if out.Fail? || out.value.None? { return Fail; }
      if out.value.value.Null? { break; }
      acc := out.value.value;
    }
    r := Ok(Some(acc));
  }

  /** The initial batch: nodes without in-edges and precondition. */
  method StartInitial(f: Frame, nodes: seq<GraphNode>) returns (fs: seq<Future>)
    requires ScriptWellFormed(f.script)
    ensures NearAll(f, fs, InitialFutures(f, nodes, |nodes|))
    decreases DepthLeft(f.depth), 3
  {
    fs := [];
    for i := 0 to |nodes|
      invariant NearAll(f, fs, InitialFutures(f, nodes, i))
    {
      if StartsAtOnce(nodes[i]) {
        var outcome := RunNodeOnce(f, nodes[i], []);
        fs := fs + [Future(i, outcome)];
      }
    }
  }

  lemma {:induction false} NearRest(f: Frame, fs: seq<Future>, expected: seq<Future>, i: nat)
    requires NearAll(f, fs, expected) && i < |fs|
    ensures NearAll(f, fs[..i] + fs[i + 1..], expected[..i] + expected[i + 1..])
  {
  }

  /** What `Complete` makes of a completion whose outcome is as expected. */
  lemma {:induction false} NextRun(f: Frame, g: Graph, schedule: seq<nat>, st: Sched, i: nat)
    requires Run(f, g, schedule) == Some(st) && !st.failed && i < |st.futures| && WellFormed(g.nodes)
    ensures Run(f, g, schedule + [i]) == Some(Complete(f, g, st, i)) && |schedule| < |g.nodes|
    ensures Deterministic(f, g) && Complete(f, g, st, i).failed ==> GraphOutcome(f, g) == Fail
  {
    var next := schedule + [i];
    assert next[..|next| - 1] == schedule;
    EveryRunIsBounded(f, g, next);
    if Deterministic(f, g) { AnyScheduleRefinesInOrder(f, g, next); }
  }

  /**
   `recursively_run_graph`. The assign-such-that is `select_all`: it hands over an arbitrary pending
   future. Every possible behaviour fails or returns what in-order evaluation returns, and it fails only if that
   does, if the graphs of the script are order independent.
   */
  method RecursivelyRunGraph(script: seq<Graph>, prim: PrimFn, gi: nat, params: seq<Value>, depth: nat)
    returns (r: Outcome)
    requires ScriptWellFormed(script)
    ensures r == Fail || r == Execute(script, prim, gi, params, depth)
    ensures ScriptDeterministic(script, prim) ==> r == Execute(script, prim, gi, params, depth)
    decreases DepthLeft(depth), 0
  {
    if depth >= MAX_RECURSION_DEPTH || gi >= |script| { return Fail; }
    var f := Frame(script, prim, params, depth + 1);
    var g := script[gi];
    assert ScriptDeterministic(script, prim) ==> Deterministic(f, g);
    var rules := GenerateFireRules(g.nodes);
    var board := InitialBoard(g.nodes);
    var futures := StartInitial(f, g.nodes);
    var ret: Option<Value> := None;
    ghost var expected := InitialFutures(f, g.nodes, |g.nodes|);
    ghost var done: seq<nat> := [];
    ghost var schedule: seq<nat> := [];
    while futures != []
      invariant Run(f, g, schedule) == Some(Sched(board, expected, ret, done, false)) && NearAll(f, futures, expected)
      decreases |g.nodes| - |schedule|
    {
      var i :| 0 <= i < |futures|;
      NextRun(f, g, schedule, Sched(board, expected, ret, done, false), i);
      NearRest(f, futures, expected, i);
      var fu := futures[i];
      var rest := futures[..i] + futures[i + 1..];
      if fu.outcome.Fail? { return Fail; }
      if g.output == Some(fu.node) { ret := fu.outcome.value; }
      assert fu.node < |g.nodes| by { PendingInRange(f, g, schedule, i); }
      var delivered := DeliverResult(board, rules[fu.node], fu.outcome.value);
      if delivered.None? { return Fail; }
      var started := StartReady(f, g.nodes, delivered.value, rest, rules[fu.node], expected[..i] + expected[i + 1..]);
      if started.None? { return Fail; }
      expected := FireAll(f, g.nodes, delivered.value, expected[..i] + expected[i + 1..], rules[fu.node]).value.1;
      board, futures := started.value.0, started.value.1;
      done, schedule := done + [fu.node], schedule + [i];
    }
    assert Succeeds(f, g, schedule);
    SuccessfulRunsAgree(f, g, schedule);
    r := Ok(ret);
  }

  lemma {:induction false} PendingInRange(f: Frame, g: Graph, schedule: seq<nat>, i: nat)
    requires WellFormed(g.nodes) && Run(f, g, schedule).Some? && !Run(f, g, schedule).value.failed
    requires i < |Run(f, g, schedule).value.futures|
    ensures Run(f, g, schedule).value.futures[i].node < |g.nodes|
  {
    EveryRunIsBounded(f, g, schedule);
    assert Run(f, g, schedule).value.futures[i] in Run(f, g, schedule).value.futures;
  }
}
