/**
 Every run of a graph with distinct sources ends: no node starts twice, whatever its
 `select`s choose from.
 */
module RunBounds {
  import opened Wrappers
  import opened Dataflow
  import opened Scheduler
  import opened Confluence
  import opened RunParts

  /** The second pass starts the node. */
  predicate Fires(nodes: seq<GraphNode>, b: Board, t: nat)
    requires t < |nodes| && t < |b.deps| && t < |b.pre|
  {
    b.pre[t] &&
    if nodes[t].op.Select? then FirstSome(b.deps[t]).Some? else forall p :: 0 <= p < |b.deps[t]| ==> b.deps[t][p].Some?
  }

  /** What the second pass over distinct targets does to node `t`. */
  predicate FiredAt(nodes: seq<GraphNode>, b: Board, fs: seq<Future>, b': Board, fs': seq<Future>, starts: bool, t: nat)
    requires t < |nodes| && t < |b.deps| && t < |b.pre| && t < |b'.deps| && t < |b'.pre|
  {
    b'.pre[t] == b.pre[t] && b'.deps[t] == (if starts then [] else b.deps[t]) &&
    (Pending(fs', t) <==> Pending(fs, t) || starts)
  }

  lemma {:induction false} FireOneEffect(f: Frame, nodes: seq<GraphNode>, b: Board, fs: seq<Future>, item: FireItem, t: nat)
    requires |b.deps| == |b.pre| == |nodes| && t < |nodes| && FireOne(f, nodes, b, fs, item).Some?
    ensures var (b', fs') := FireOne(f, nodes, b, fs, item).value;
      |b'.deps| == |b'.pre| == |nodes| && FiredAt(nodes, b, fs, b', fs', item.target == t && Fires(nodes, b, t), t) &&
      (fs' == fs || exists fu :: fs' == fs + [fu] && fu.node == item.target)
  {
    var (b', fs') := FireOne(f, nodes, b, fs, item).value;
    if fs' != fs {
      var fu := fs'[|fs|];
      assert fs' == fs + [fu];
      PendingSnoc(fs, fu, t);
    }
  }

  lemma {:induction false} FireAllEffect(f: Frame, nodes: seq<GraphNode>, b: Board, fs: seq<Future>, items: seq<FireItem>,
                                         t: nat)
    requires |b.deps| == |b.pre| == |nodes| && t < |nodes| && FireAll(f, nodes, b, fs, items).Some? && DistinctTargets(items)
    ensures var (b', fs') := FireAll(f, nodes, b, fs, items).value;
      |b'.deps| == |b'.pre| == |nodes| && FiredAt(nodes, b, fs, b', fs', Targets(items, t) && Fires(nodes, b, t), t)
    decreases items
  {
    if items != [] {
      var (b1, fs1) := FireOne(f, nodes, b, fs, items[0]).value;
      FireOneEffect(f, nodes, b, fs, items[0], t);
      TargetsTail(items, t);
      if items[0].target == t { assert Targets(items, t); }
      FireAllEffect(f, nodes, b1, fs1, items[1..], t);
    }
  }

  /** Only targets are started, and each once. */
  lemma {:induction false} FireAllDistinct(f: Frame, nodes: seq<GraphNode>, b: Board, fs: seq<Future>, items: seq<FireItem>)
    requires |b.deps| == |b.pre| == |nodes| && FireAll(f, nodes, b, fs, items).Some? && DistinctTargets(items)
    requires DistinctFutures(fs) && forall i <- items :: !Pending(fs, i.target)
    requires forall fu <- fs :: fu.node < |nodes|
    ensures var fs' := FireAll(f, nodes, b, fs, items).value.1;
      DistinctFutures(fs') && forall fu <- fs' :: fu.node < |nodes|
    decreases items
  {
    if items != [] {
      var (b1, fs1) := FireOne(f, nodes, b, fs, items[0]).value;
      FireOneEffect(f, nodes, b, fs, items[0], items[0].target);
      assert items[0] in items;
      forall i <- items[1..] ensures !Pending(fs1, i.target) {
        assert i in items && Targets(items[1..], i.target);
        TargetsTail(items, i.target);
        if fs1 != fs { PendingSnoc(fs, fs1[|fs|], i.target); }
      }
      FireAllDistinct(f, nodes, b1, fs1, items[1..]);
    }
  }

  // ---------------------------------------------------------------------------
  // The invariant of any run

  predicate Started(st: Sched, t: nat) {
    t in st.done || Pending(st.futures, t)
  }

  /** A node that has started has given up its slots and had its precondition. */
  predicate OnceAt(nodes: seq<GraphNode>, st: Sched, t: nat)
    requires t < |nodes| && t < |st.board.deps| && t < |st.board.pre|
  {
    var n := nodes[t];
    (st.board.pre[t] ==> n.pre.None? || n.pre.value in st.done) &&
    if Started(st, t) then st.board.deps[t] == [] && (n.pre.None? || n.pre.value in st.done)
    else |st.board.deps[t]| == |n.inEdges| && !StartsAtOnce(n)
  }

  ghost predicate Once(nodes: seq<GraphNode>, st: Sched) {
    |st.board.deps| == |st.board.pre| == |nodes| &&
    (forall i, j :: 0 <= i < j < |st.done| ==> st.done[i] != st.done[j]) && (forall x <- st.done :: x < |nodes|) &&
    DistinctFutures(st.futures) && (forall fu <- st.futures :: fu.node < |nodes| && fu.node !in st.done) &&
    forall t :: 0 <= t < |nodes| ==> OnceAt(nodes, st, t)
  }

  lemma {:induction false} InitOnce(f: Frame, g: Graph)
    ensures Once(g.nodes, Init(f, g))
  {
    InitialFuturesFacts(f, g.nodes, |g.nodes|);
    var fs := InitialFutures(f, g.nodes, |g.nodes|);
    forall t | 0 <= t < |g.nodes| ensures OnceAt(g.nodes, Init(f, g), t) {
      if j :| 0 <= j < |fs| && fs[j].node == t { assert InitialOk(f, g.nodes, |g.nodes|, fs[j]); }
    }
    forall fu <- fs ensures fu.node < |g.nodes| {
      var j :| 0 <= j < |fs| && fs[j] == fu;
      assert InitialOk(f, g.nodes, |g.nodes|, fs[j]);
    }
  }

  /** A source that completes without failing the run feeds a node that has not started. */
  lemma {:induction false} FeedsUnstarted(g: Graph, st: Sched, src: nat, v: Option<Value>, t: nat)
    requires WellFormed(g.nodes) && Once(g.nodes, st) && src !in st.done && t < |g.nodes| && IsSource(g.nodes[t], src)
    requires Deliver(st.board, Row(g.nodes, src, |g.nodes|), v).Some?
    ensures !Started(st, t)
    ensures var b := Deliver(st.board, Row(g.nodes, src, |g.nodes|), v).value;
      t < |b.deps| && t < |b.pre| && |b.deps[t]| == |st.board.deps[t]| &&
      (b.pre[t] ==> st.board.pre[t] || g.nodes[t].pre == Some(src))
  {
    var items := Row(g.nodes, src, |g.nodes|);
    RowTargets(g.nodes, src, t);
    RowFits(g.nodes, src, |g.nodes|);
    RowDistinct(g.nodes, src, |g.nodes|);
    var j :| 0 <= j < |items| && items[j].target == t;
    assert items[j] in items;
    DeliverHere(st.board, items, v, t, j);
    ItemEffect(st.board, items[j], v);
    assert OnceAt(g.nodes, st, t);
  }

  lemma {:induction false} StepOnceAt(f: Frame, g: Graph, st: Sched, i: nat, t: nat)
    requires WellFormed(g.nodes) && Once(g.nodes, st) && i < |st.futures| && !Complete(f, g, st, i).failed && t < |g.nodes|
    ensures var st' := Complete(f, g, st, i);
      |st'.board.deps| == |st'.board.pre| == |g.nodes| && OnceAt(g.nodes, st', t) &&
      (IsSource(g.nodes[t], st.futures[i].node) ==> !Started(st, t))
  {
    var (fu, rest) := (st.futures[i], st.futures[..i] + st.futures[i + 1..]);
    var items := Row(g.nodes, fu.node, |g.nodes|);
    var b := Deliver(st.board, items, fu.outcome.value).value;
    DeliverCut(st.board, items, fu.outcome.value, 0);
    RowDistinct(g.nodes, fu.node, |g.nodes|);
    RowTargets(g.nodes, fu.node, t);
    FireAllEffect(f, g.nodes, b, rest, items, t);
    RestPending(st.futures, i);
    assert fu in st.futures && OnceAt(g.nodes, st, t);
    if IsSource(g.nodes[t], fu.node) {
      FeedsUnstarted(g, st, fu.node, fu.outcome.value, t);
    } else {
      DeliverElsewhere(st.board, items, fu.outcome.value, t);
    }
  }

  lemma {:induction false} StepOnce(f: Frame, g: Graph, st: Sched, i: nat)
    requires WellFormed(g.nodes) && Once(g.nodes, st) && i < |st.futures| && !Complete(f, g, st, i).failed
    ensures Once(g.nodes, Complete(f, g, st, i)) && |Complete(f, g, st, i).done| == |st.done| + 1
  {
    var (fu, st') := (st.futures[i], Complete(f, g, st, i));
    assert fu in st.futures && st'.done == st.done + [fu.node];
    StepOnceAt(f, g, st, i, fu.node);
    forall t | 0 <= t < |g.nodes| ensures OnceAt(g.nodes, st', t) {
      StepOnceAt(f, g, st, i, t);
    }
    StepFutures(f, g, st, i);
  }

  lemma {:induction false} StepFutures(f: Frame, g: Graph, st: Sched, i: nat)
    requires WellFormed(g.nodes) && Once(g.nodes, st) && i < |st.futures| && !Complete(f, g, st, i).failed
    ensures var st' := Complete(f, g, st, i);
      DistinctFutures(st'.futures) && forall fu <- st'.futures :: fu.node < |g.nodes| && fu.node !in st'.done
  {
    var (fu, rest, st') := (st.futures[i], st.futures[..i] + st.futures[i + 1..], Complete(f, g, st, i));
    var items := Row(g.nodes, fu.node, |g.nodes|);
    var b := Deliver(st.board, items, fu.outcome.value).value;
    DeliverCut(st.board, items, fu.outcome.value, 0);
    RowFits(g.nodes, fu.node, |g.nodes|);
    RowDistinct(g.nodes, fu.node, |g.nodes|);
    RestPending(st.futures, i);
    forall item <- items ensures !Pending(rest, item.target) && item.target !in st'.done {
      TargetUnstarted(f, g, st, i, item);
    }
    FireAllDistinct(f, g.nodes, b, rest, items);
    forall x <- st'.futures ensures x.node !in st'.done {
      FireAllEffect(f, g.nodes, b, rest, items, x.node);
      assert Pending(st'.futures, x.node);
      if Targets(items, x.node) {
        var j :| 0 <= j < |items| && items[j].target == x.node;
        assert items[j] in items;
      } else {
        var j :| 0 <= j < |rest| && rest[j].node == x.node;
        assert rest[j] in rest;
      }
    }
  }

  lemma {:induction false} TargetUnstarted(f: Frame, g: Graph, st: Sched, i: nat, item: FireItem)
    requires WellFormed(g.nodes) && Once(g.nodes, st) && i < |st.futures| && !Complete(f, g, st, i).failed
    requires item in Row(g.nodes, st.futures[i].node, |g.nodes|)
    ensures !Pending(st.futures[..i] + st.futures[i + 1..], item.target) && item.target !in Complete(f, g, st, i).done
  {
    var src := st.futures[i].node;
    RowFits(g.nodes, src, |g.nodes|);
    RestPending(st.futures, i);
    assert IsSource(g.nodes[item.target], src) by {
      if item.kind.ParamDep? { assert g.nodes[item.target].inEdges[item.kind.pos] == src; }
    }
    StepOnceAt(f, g, st, i, item.target);
    assert Complete(f, g, st, i).done == st.done + [src] && st.futures[i] in st.futures;
    assert item.target != src by { assert Pending(st.futures, src); }
  }

  /** No node starts or completes twice in any run, so every run has at most as many completions as there are nodes. */
  lemma {:induction false} EveryRunIsBounded(f: Frame, g: Graph, schedule: seq<nat>)
    requires WellFormed(g.nodes) && Run(f, g, schedule).Some?
    ensures var st := Run(f, g, schedule).value;
      |schedule| <= |g.nodes| && (!st.failed ==> Once(g.nodes, st) && |st.done| == |schedule|)
    decreases |schedule|
  {
    if schedule == [] {
      InitOnce(f, g);
    } else {
      var (prefix, i) := (schedule[..|schedule| - 1], schedule[|schedule| - 1]);
      var st := Run(f, g, prefix).value;
      EveryRunIsBounded(f, g, prefix);
      var src := st.futures[i].node;
      assert st.futures[i] in st.futures;
      DistinctBound(st.done + [src], |g.nodes|);
      if !Complete(f, g, st, i).failed { StepOnce(f, g, st, i); }
    }
  }

  /** Every run can be continued to the end. */
  lemma {:induction false} FinishRun(f: Frame, g: Graph, schedule: seq<nat>) returns (full: seq<nat>)
    requires WellFormed(g.nodes) && Run(f, g, schedule).Some?
    ensures schedule <= full && Run(f, g, full).Some? && Finished(Run(f, g, full).value)
    decreases |g.nodes| + 1 - |schedule|
  {
    EveryRunIsBounded(f, g, schedule);
    if Finished(Run(f, g, schedule).value) {
      full := schedule;
    } else {
      var next := schedule + [0];
      assert next[..|schedule|] == schedule;
      full := FinishRun(f, g, next);
    }
  }
}
