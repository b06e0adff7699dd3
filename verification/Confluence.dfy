/**
 Every schedule of the executor refines in-order evaluation: the invariant of all
 runs, its preservation by one completion, and what it gives at the end of a run.
 */
module Confluence {
  import opened Wrappers
  import opened Dataflow
  import opened Scheduler

  // ---------------------------------------------------------------------------
  // A node's record on the board determines whether, and with what, it starts

  lemma {:induction false} FirstSomeNone(xs: seq<Option<Value>>)
    ensures FirstSome(xs).None? <==> forall p :: 0 <= p < |xs| ==> xs[p].None?
  {
    if xs != [] {
      FirstSomeNone(xs[1..]);
      assert forall p :: 1 <= p < |xs| ==> xs[p] == xs[1..][p - 1];
    }
  }

  /** A completed in-edge has a value, because its user would otherwise have panicked. */
  lemma {:induction false} SettledEdge(nodes: seq<GraphNode>, s: seq<Status>, d: set<nat>, t: nat, p: nat)
    requires |s| == |nodes| && Settled(nodes, s, d) && t < |nodes| && p < |nodes[t].inEdges|
    ensures Slot(s, d, nodes[t].inEdges[p]).Some? <==> nodes[t].inEdges[p] in d
    ensures nodes[t].inEdges[p] in d ==> Fired(s, nodes[t].inEdges[p])
  {
    var e := nodes[t].inEdges[p];
    if e in d {
      assert e in nodes[t].inEdges && nodes[t] in nodes;
      assert !Fault(nodes, s, e);
    }
  }

  /** A ready plain node has all its parameters, and evaluating it on them gives its in-order status. */
  lemma {:induction false} PlainReady(f: Frame, nodes: seq<GraphNode>, s: seq<Status>, d: set<nat>, t: nat,
                                      deps: seq<Option<Value>>)
    requires Solves(f, nodes, s) && Settled(nodes, s, d) && t < |nodes| && !nodes[t].op.Select?
    requires PreIn(nodes, s, d, t) && |deps| == |nodes[t].inEdges|
    requires forall p :: 0 <= p < |deps| ==> deps[p] == Slot(s, d, nodes[t].inEdges[p])
    ensures Ready(nodes, s, d, t) <==> forall p :: 0 <= p < |deps| ==> deps[p].Some?
    ensures Ready(nodes, s, d, t) ==>
              !s[t].Idle? && OutcomeOf(s[t]) == RunNode(f, nodes[t], Unwrap(deps))
  {
    forall p | 0 <= p < |deps|
      ensures deps[p].Some? <==> nodes[t].inEdges[p] in d
      ensures nodes[t].inEdges[p] in d ==> Fired(s, nodes[t].inEdges[p])
    {
      SettledEdge(nodes, s, d, t, p);
    }
    if Ready(nodes, s, d, t) {
      assert AllFired(s, nodes[t].inEdges);
      assert Params(s, nodes[t].inEdges) == Unwrap(deps);
    }
  }

  /** All candidates that complete in order have completed. */
  predicate AllArrived(s: seq<Status>, edges: seq<nat>, d: set<nat>) {
    forall e <- edges :: At(s, e).Done? ==> e in d
  }

  /** Every `select` that can start has all the candidates it will ever get. */
  predicate Patient(nodes: seq<GraphNode>, s: seq<Status>, d: set<nat>) {
    forall t :: 0 <= t < |nodes| && nodes[t].op.Select? && Ready(nodes, s, d, t) ==> AllArrived(s, nodes[t].inEdges, d)
  }

  lemma {:induction false} FirstSomeFired(s: seq<Status>, edges: seq<nat>, d: set<nat>, deps: seq<Option<Value>>)
    requires |deps| == |edges| && forall p :: 0 <= p < |deps| ==> deps[p] == Slot(s, d, edges[p])
    requires forall e <- edges :: e in d <==> Fired(s, e)
    ensures FirstSome(deps) == FirstFired(s, edges)
  {
    if edges != [] {
      assert edges[0] in edges;
      FirstSomeFired(s, edges[1..], d, deps[1..]);
    }
  }

  /** A ready `select` with all its candidates takes the one it takes in order. */
  lemma {:induction false} SelectReady(f: Frame, nodes: seq<GraphNode>, s: seq<Status>, d: set<nat>, t: nat,
                                       deps: seq<Option<Value>>)
    requires Solves(f, nodes, s) && Settled(nodes, s, d) && t < |nodes| && nodes[t].op.Select?
    requires Patient(nodes, s, d)
    requires PreIn(nodes, s, d, t) && |deps| == |nodes[t].inEdges|
    requires forall p :: 0 <= p < |deps| ==> deps[p] == Slot(s, d, nodes[t].inEdges[p])
    ensures Ready(nodes, s, d, t) <==> FirstSome(deps).Some?
    ensures Ready(nodes, s, d, t) ==> s[t] == Done(FirstSome(deps))
  {
    var edges := nodes[t].inEdges;
    FirstSomeNone(deps);
    forall p | 0 <= p < |deps|
      ensures deps[p].Some? <==> edges[p] in d
      ensures edges[p] in d ==> Fired(s, edges[p])
    {
      SettledEdge(nodes, s, d, t, p);
    }
    if Ready(nodes, s, d, t) {
      assert AllArrived(s, edges, d);
      FirstSomeFired(s, edges, d, deps);
    }
  }

  // ---------------------------------------------------------------------------
  // One completion

  /** The users of a node that has just completed had not started before. */
  lemma {:induction false} UsersNotReady(nodes: seq<GraphNode>, s: seq<Status>, d: set<nat>, src: nat, t: nat)
    requires |s| == |nodes| && Patient(nodes, s, d)
    requires src < |s| && src !in d && s[src].Done?
    requires t < |nodes| && IsSource(nodes[t], src)
    ensures !Ready(nodes, s, d, t)
  {
  }

  lemma {:induction false} ReadyGrows(nodes: seq<GraphNode>, s: seq<Status>, d: set<nat>, src: nat, t: nat)
    requires t < |nodes|
    ensures Ready(nodes, s, d, t) ==> Ready(nodes, s, d + {src}, t)
    ensures !IsSource(nodes[t], src) ==> Ready(nodes, s, d, t) == Ready(nodes, s, d + {src}, t)
    ensures !IsSource(nodes[t], src) ==> PreIn(nodes, s, d, t) == PreIn(nodes, s, d + {src}, t)
  {
  }

  /** Delivering a value brings the record of one user up to date. */
  lemma {:induction false} DeliverOneStep(nodes: seq<GraphNode>, s: seq<Status>, b: Board, item: FireItem, src: nat,
                                          d: set<nat>)
    requires |s| == |nodes| == |b.deps| == |b.pre|
    requires src < |s| && s[src].Done? && !Fault(nodes, s, src) && src !in d
    requires item.target < |nodes| && Fits(nodes[item.target], src, item.kind) && DistinctSources(nodes[item.target])
    requires BoardAt(nodes, s, b, item.target, d, false)
    ensures DeliverOne(b, item, s[src].value).Some?
    ensures var b' := DeliverOne(b, item, s[src].value).value;
      |b'.deps| == |b'.pre| == |nodes| && BoardAt(nodes, s, b', item.target, d + {src}, false) &&
      forall t :: 0 <= t < |nodes| && t != item.target ==> b'.deps[t] == b.deps[t] && b'.pre[t] == b.pre[t]
  {
    var n := nodes[item.target];
    assert n in nodes;
    match item.kind
    case ParamDep(p) => assert src in n.inEdges;
    case Precondition =>
      assert PreIn(nodes, s, d + {src}, item.target) == Enables(s[src].value);
  }

  lemma {:induction false} DeliverSteps(nodes: seq<GraphNode>, s: seq<Status>, b: Board, items: seq<FireItem>, src: nat,
                                        d: set<nat>)
    requires |s| == |nodes| == |b.deps| == |b.pre| && WellFormed(nodes)
    requires src < |s| && s[src].Done? && !Fault(nodes, s, src) && src !in d
    requires forall i <- items :: i.target < |nodes| && Fits(nodes[i.target], src, i.kind)
    requires DistinctTargets(items)
    requires forall t :: 0 <= t < |nodes| ==>
      if Targets(items, t) then BoardAt(nodes, s, b, t, d, false)
      else BoardAt(nodes, s, b, t, d + {src}, Ready(nodes, s, d, t))
    requires forall t :: 0 <= t < |nodes| && Targets(items, t) ==> !Ready(nodes, s, d, t)
    ensures Deliver(b, items, s[src].value).Some?
    ensures var b' := Deliver(b, items, s[src].value).value;
      |b'.deps| == |b'.pre| == |nodes| &&
      forall t :: 0 <= t < |nodes| ==> BoardAt(nodes, s, b', t, d + {src}, Ready(nodes, s, d, t))
    decreases items
  {
    if items == [] {
    } else {
      assert items[0] in items && Targets(items, items[0].target);
      DeliverOneStep(nodes, s, b, items[0], src, d);
      var b' := DeliverOne(b, items[0], s[src].value).value;
      forall t | 0 <= t < |nodes|
        ensures if Targets(items[1..], t) then BoardAt(nodes, s, b', t, d, false)
                else BoardAt(nodes, s, b', t, d + {src}, Ready(nodes, s, d, t))
        ensures Targets(items[1..], t) ==> Targets(items, t)
      {
        TargetsTail(items, t);
      }
      DeliverSteps(nodes, s, b', items[1..], src, d);
    }
  }

  lemma {:induction false} TargetsTail(items: seq<FireItem>, t: nat)
    requires items != [] && DistinctTargets(items)
    ensures Targets(items[1..], t) <==> Targets(items, t) && t != items[0].target
  {
    if Targets(items[1..], t) {
      var i :| 0 <= i < |items[1..]| && items[1..][i].target == t;
      assert items[i + 1].target == t;
    }
    if Targets(items, t) && t != items[0].target {
      var i :| 0 <= i < |items| && items[i].target == t;
      assert items[1..][i - 1].target == t;
    }
  }

  /** A value that some user cannot take stops the first pass. */
  lemma {:induction false} DeliverFault(b: Board, items: seq<FireItem>, item: FireItem, v: Option<Value>)
    requires item in items
    requires match item.kind
             case ParamDep(_) => v.None?
             case Precondition => v.Some? && !v.value.Null? && !v.value.Bool?
    ensures Deliver(b, items, v).None?
    decreases items
  {
    if items[0] != item {
      assert items == [items[0]] + items[1..];
      match DeliverOne(b, items[0], v)
      case None =>
      case Some(b') => DeliverFault(b', items[1..], item, v);
    }
  }

  lemma {:induction false} FaultStops(nodes: seq<GraphNode>, s: seq<Status>, b: Board, src: nat)
    requires src < |s| && Fault(nodes, s, src)
    ensures Deliver(b, Row(nodes, src, |nodes|), s[src].value).None?
  {
    var items := Row(nodes, src, |nodes|);
    if s[src].value.None? {
      var n :| n in nodes && src in n.inEdges;
      var t :| 0 <= t < |nodes| && nodes[t] == n;
      var p :| 0 <= p < |n.inEdges| && n.inEdges[p] == src;
      RowComplete(nodes, src, |nodes|, t, ParamDep(p));
      DeliverFault(b, items, FireItem(t, ParamDep(p)), s[src].value);
    } else {
      var n :| n in nodes && n.pre == Some(src);
      var t :| 0 <= t < |nodes| && nodes[t] == n;
      RowComplete(nodes, src, |nodes|, t, Precondition);
      DeliverFault(b, items, FireItem(t, Precondition), s[src].value);
    }
  }

  /** The second pass over one item starts its target exactly if that is ready, with its in-order outcome. */
  lemma {:induction false} FireOneStep(f: Frame, nodes: seq<GraphNode>, s: seq<Status>, b: Board, fs: seq<Future>,
                                       item: FireItem, d: set<nat>)
    requires |nodes| == |b.deps| == |b.pre| && WellFormed(nodes)
    requires Solves(f, nodes, s) && Settled(nodes, s, d) && Patient(nodes, s, d)
    requires item.target < |nodes| && BoardAt(nodes, s, b, item.target, d, false)
    ensures FireOne(f, nodes, b, fs, item).Some?
    ensures var (b', fs') := FireOne(f, nodes, b, fs, item).value;
      var t := item.target;
      |b'.deps| == |b'.pre| == |nodes| && BoardAt(nodes, s, b', t, d, Ready(nodes, s, d, t)) &&
      (forall u :: 0 <= u < |nodes| && u != t ==> b'.deps[u] == b.deps[u] && b'.pre[u] == b.pre[u]) &&
      fs' == (if Ready(nodes, s, d, t) then fs + [Future(t, OutcomeOf(s[t]))] else fs) &&
      (Ready(nodes, s, d, t) ==> !s[t].Idle?)
  {
    var t := item.target;
    if b.pre[t] {
      if nodes[t].op.Select? {
        SelectReady(f, nodes, s, d, t, b.deps[t]);
      } else {
        PlainReady(f, nodes, s, d, t, b.deps[t]);
      }
    }
  }

  ghost predicate FuturesOk(nodes: seq<GraphNode>, s: seq<Status>, d: set<nat>, fs: seq<Future>) {
    DistinctFutures(fs) && forall j :: 0 <= j < |fs| ==> FutureOk(nodes, s, d, fs[j])
  }

  lemma {:induction false} FireSteps(f: Frame, nodes: seq<GraphNode>, s: seq<Status>, b: Board, fs: seq<Future>,
                                     items: seq<FireItem>, d: set<nat>)
    requires |nodes| == |b.deps| == |b.pre| && WellFormed(nodes)
    requires Solves(f, nodes, s) && Settled(nodes, s, d) && Patient(nodes, s, d)
    requires (forall i <- items :: i.target < |nodes|) && DistinctTargets(items)
    requires forall t :: 0 <= t < |nodes| ==>
      BoardAt(nodes, s, b, t, d, Ready(nodes, s, d, t) && !Targets(items, t))
    requires FuturesOk(nodes, s, d, fs)
    requires forall t :: 0 <= t < |nodes| && Targets(items, t) ==> t !in d && !Pending(fs, t)
    requires forall t :: 0 <= t < |nodes| && Ready(nodes, s, d, t) && !Targets(items, t) ==> t in d || Pending(fs, t)
    ensures FireAll(f, nodes, b, fs, items).Some?
    ensures var (b', fs') := FireAll(f, nodes, b, fs, items).value;
      |b'.deps| == |b'.pre| == |nodes| &&
      (forall t :: 0 <= t < |nodes| ==> BoardAt(nodes, s, b', t, d, Ready(nodes, s, d, t))) &&
      FuturesOk(nodes, s, d, fs') &&
      (forall t :: 0 <= t < |nodes| && Ready(nodes, s, d, t) ==> t in d || Pending(fs', t))
    decreases items
  {
    if items == [] {
    } else {
      var t0 := items[0].target;
      assert items[0] in items && Targets(items, t0);
      FireOneStep(f, nodes, s, b, fs, items[0], d);
      var (b', fs') := FireOne(f, nodes, b, fs, items[0]).value;
      forall t | 0 <= t < |nodes|
        ensures Targets(items[1..], t) <==> Targets(items, t) && t != t0
        ensures Pending(fs, t) ==> Pending(fs', t)
        ensures Pending(fs', t) <==> Pending(fs, t) || (t == t0 && Ready(nodes, s, d, t0))
      {
        TargetsTail(items, t);
        PendingSnoc(fs, Future(t0, OutcomeOf(s[t0])), t);
      }
      FireSteps(f, nodes, s, b', fs', items[1..], d);
    }
  }

  lemma {:induction false} PendingSnoc(fs: seq<Future>, fu: Future, t: nat)
    ensures Pending(fs + [fu], t) <==> Pending(fs, t) || fu.node == t
  {
    if Pending(fs, t) {
      var j :| 0 <= j < |fs| && fs[j].node == t;
      assert (fs + [fu])[j].node == t;
    }
    assert (fs + [fu])[|fs|] == fu;
  }

  /** One completion keeps the invariant, or fails exactly where in-order evaluation does. */
  lemma {:induction false} CompleteStep(f: Frame, g: Graph, s: seq<Status>, st: Sched, i: nat)
    requires WellFormed(g.nodes) && Solves(f, g.nodes, s) && Inv(g, s, st) && i < |st.futures|
    requires Patient(g.nodes, s, Members(st.done))
    requires var src := st.futures[i].node; At(s, src).Done? ==> Patient(g.nodes, s, Members(st.done) + {src})
    ensures var src := st.futures[i].node;
      var st' := Complete(f, g, st, i);
      src < |s| && src !in st.done && st'.failed == (s[src].Failed? || Fault(g.nodes, s, src)) &&
      (!st'.failed ==> Inv(g, s, st') && st'.done == st.done + [src])
  {
    var (nodes, d, src) := (g.nodes, Members(st.done), st.futures[i].node);
    assert FutureOk(nodes, s, d, st.futures[i]);
    if s[src].Done? && Fault(nodes, s, src) {
      FaultStops(nodes, s, st.board, src);
    } else if s[src].Done? {
      CompleteStepDone(f, g, s, st, i);
    }
  }

  /** What the completion of `src` means for the readiness of each node. */
  ghost predicate Affects(nodes: seq<GraphNode>, s: seq<Status>, d: set<nat>, src: nat, items: seq<FireItem>, t: nat)
    requires t < |nodes|
  {
    if Targets(items, t) then !Ready(nodes, s, d, t) && t != src && t !in d
    else Ready(nodes, s, d, t) == Ready(nodes, s, d + {src}, t) &&
         PreIn(nodes, s, d, t) == PreIn(nodes, s, d + {src}, t) && !IsSource(nodes[t], src)
  }

  lemma {:induction false} StepAffects(g: Graph, s: seq<Status>, st: Sched, src: nat, t: nat)
    requires WellFormed(g.nodes) && Patient(g.nodes, s, Members(st.done)) && Inv(g, s, st)
    requires src < |s| && s[src].Done? && src !in Members(st.done) && t < |g.nodes|
    ensures Affects(g.nodes, s, Members(st.done), src, Row(g.nodes, src, |g.nodes|), t)
    ensures Ready(g.nodes, s, Members(st.done), t) ==> Ready(g.nodes, s, Members(st.done) + {src}, t)
  {
    var (nodes, d) := (g.nodes, Members(st.done));
    RowTargets(nodes, src, t);
    ReadyGrows(nodes, s, d, src, t);
    if IsSource(nodes[t], src) { UsersNotReady(nodes, s, d, src, t); }
  }

  lemma {:induction false} StepDeliver(g: Graph, s: seq<Status>, st: Sched, src: nat)
    requires WellFormed(g.nodes) && Patient(g.nodes, s, Members(st.done)) && Inv(g, s, st)
    requires src < |s| && s[src].Done? && !Fault(g.nodes, s, src) && src !in Members(st.done)
    ensures var b := Deliver(st.board, Row(g.nodes, src, |g.nodes|), s[src].value);
      b.Some? && |b.value.deps| == |b.value.pre| == |g.nodes| &&
      forall t :: 0 <= t < |g.nodes| ==>
        BoardAt(g.nodes, s, b.value, t, Members(st.done) + {src}, Ready(g.nodes, s, Members(st.done), t))
  {
    var (nodes, d) := (g.nodes, Members(st.done));
    var items := Row(nodes, src, |nodes|);
    RowFits(nodes, src, |nodes|);
    RowDistinct(nodes, src, |nodes|);
    forall t | 0 <= t < |nodes|
      ensures if Targets(items, t) then BoardAt(nodes, s, st.board, t, d, false) && !Ready(nodes, s, d, t)
              else BoardAt(nodes, s, st.board, t, d + {src}, Ready(nodes, s, d, t))
    {
      StepAffects(g, s, st, src, t);
    }
    DeliverSteps(nodes, s, st.board, items, src, d);
  }

  lemma {:induction false} CompleteStepDone(f: Frame, g: Graph, s: seq<Status>, st: Sched, i: nat)
    requires WellFormed(g.nodes) && Solves(f, g.nodes, s) && Inv(g, s, st) && i < |st.futures|
    requires Patient(g.nodes, s, Members(st.done)) && Patient(g.nodes, s, Members(st.done) + {st.futures[i].node})
    requires st.futures[i].node < |s| && s[st.futures[i].node].Done? && !Fault(g.nodes, s, st.futures[i].node)
    ensures var st' := Complete(f, g, st, i);
      Inv(g, s, st') && st'.done == st.done + [st.futures[i].node]
  {
    var (nodes, src) := (g.nodes, st.futures[i].node);
    var items := Row(nodes, src, |nodes|);
    assert FutureOk(nodes, s, Members(st.done), st.futures[i]);
    StepDeliver(g, s, st, src);
    var b := Deliver(st.board, items, s[src].value).value;
    StepFire(f, g, s, st, i, b);
    var (b', fs) := FireAll(f, nodes, b, st.futures[..i] + st.futures[i + 1..], items).value;
    NextInv(g, s, st, src, b', fs);
  }

  lemma {:induction false} NextInv(g: Graph, s: seq<Status>, st: Sched, src: nat, b: Board, fs: seq<Future>)
    requires WellFormed(g.nodes) && Patient(g.nodes, s, Members(st.done)) && Inv(g, s, st)
    requires src < |s| && s[src].Done? && !Fault(g.nodes, s, src) && src !in Members(st.done)
    requires Ready(g.nodes, s, Members(st.done), src)
    requires var d := Members(st.done) + {src};
      |b.deps| == |b.pre| == |g.nodes| &&
      (forall t :: 0 <= t < |g.nodes| ==> BoardAt(g.nodes, s, b, t, d, Ready(g.nodes, s, d, t))) &&
      FuturesOk(g.nodes, s, d, fs) &&
      (forall t :: 0 <= t < |g.nodes| && Ready(g.nodes, s, d, t) ==> t in d || Pending(fs, t))
    ensures Inv(g, s, Sched(b, fs, if g.output == Some(src) then s[src].value else st.ret, st.done + [src], false))
  {
    var d' := Members(st.done) + {src};
    assert Members(st.done + [src]) == d';
    forall t <- d' ensures Ready(g.nodes, s, d', t) { StepAffects(g, s, st, src, t); }
  }

  lemma {:induction false} RestOk(g: Graph, s: seq<Status>, st: Sched, i: nat)
    requires WellFormed(g.nodes) && Patient(g.nodes, s, Members(st.done)) && Inv(g, s, st) && i < |st.futures|
    requires st.futures[i].node < |s| && s[st.futures[i].node].Done? && st.futures[i].node !in Members(st.done)
    ensures FuturesOk(g.nodes, s, Members(st.done) + {st.futures[i].node}, st.futures[..i] + st.futures[i + 1..])
  {
    var (d, src) := (Members(st.done), st.futures[i].node);
    var rest := st.futures[..i] + st.futures[i + 1..];
    RestPending(st.futures, i);
    forall j | 0 <= j < |rest| ensures FutureOk(g.nodes, s, d + {src}, rest[j]) {
      assert rest[j] in rest;
      var m :| 0 <= m < |st.futures| && st.futures[m] == rest[j];
      assert FutureOk(g.nodes, s, d, st.futures[m]);
      StepAffects(g, s, st, src, rest[j].node);
    }
  }

  lemma {:induction false} StepFire(f: Frame, g: Graph, s: seq<Status>, st: Sched, i: nat, b: Board)
    requires WellFormed(g.nodes) && Solves(f, g.nodes, s) && Inv(g, s, st) && i < |st.futures|
    requires Patient(g.nodes, s, Members(st.done)) && Patient(g.nodes, s, Members(st.done) + {st.futures[i].node})
    requires var src := st.futures[i].node;
      src < |s| && s[src].Done? && !Fault(g.nodes, s, src) && src !in Members(st.done) &&
      |b.deps| == |b.pre| == |g.nodes| &&
      forall t :: 0 <= t < |g.nodes| ==>
        BoardAt(g.nodes, s, b, t, Members(st.done) + {src}, Ready(g.nodes, s, Members(st.done), t))
    ensures var src := st.futures[i].node;
      var d := Members(st.done) + {src};
      var r := FireAll(f, g.nodes, b, st.futures[..i] + st.futures[i + 1..], Row(g.nodes, src, |g.nodes|));
      r.Some? && |r.value.0.deps| == |r.value.0.pre| == |g.nodes| &&
      (forall t :: 0 <= t < |g.nodes| ==> BoardAt(g.nodes, s, r.value.0, t, d, Ready(g.nodes, s, d, t))) &&
      FuturesOk(g.nodes, s, d, r.value.1) &&
      (forall t :: 0 <= t < |g.nodes| && Ready(g.nodes, s, d, t) ==> t in d || Pending(r.value.1, t))
  {
    var (nodes, d, src) := (g.nodes, Members(st.done), st.futures[i].node);
    var rest := st.futures[..i] + st.futures[i + 1..];
    var items := Row(nodes, src, |nodes|);
    var d' := d + {src};
    RowFits(nodes, src, |nodes|);
    RowDistinct(nodes, src, |nodes|);
    RestPending(st.futures, i);
    forall t | 0 <= t < |nodes|
      ensures BoardAt(nodes, s, b, t, d', Ready(nodes, s, d', t) && !Targets(items, t))
      ensures Targets(items, t) ==> t !in d' && !Pending(rest, t)
      ensures Ready(nodes, s, d', t) && !Targets(items, t) ==> t in d' || Pending(rest, t)
    {
      StepAffects(g, s, st, src, t);
    }
    RestOk(g, s, st, i);
    FireSteps(f, nodes, s, b, rest, items, d');
  }

  /** Handing one future over leaves the others pending. */
  lemma {:induction false} RestPending(fs: seq<Future>, i: nat)
    requires i < |fs| && DistinctFutures(fs)
    ensures var rest := fs[..i] + fs[i + 1..];
      DistinctFutures(rest) && (forall fu <- rest :: fu in fs && fu.node != fs[i].node) &&
      forall t :: Pending(rest, t) <==> Pending(fs, t) && t != fs[i].node
  {
    var rest := fs[..i] + fs[i + 1..];
    forall t ensures Pending(rest, t) <==> Pending(fs, t) && t != fs[i].node {
      if Pending(fs, t) && t != fs[i].node {
        var j :| 0 <= j < |fs| && fs[j].node == t;
        assert rest[if j < i then j else j - 1] == fs[j];
      }
    }
  }

  // ---------------------------------------------------------------------------
  // The start and the end of a run

  predicate InitialOk(f: Frame, nodes: seq<GraphNode>, k: nat, fu: Future) {
    fu.node < k <= |nodes| && StartsAtOnce(nodes[fu.node]) && fu.outcome == RunNode(f, nodes[fu.node], [])
  }

  lemma {:induction false} InitialFuturesFacts(f: Frame, nodes: seq<GraphNode>, k: nat)
    requires k <= |nodes|
    ensures var fs := InitialFutures(f, nodes, k);
      DistinctFutures(fs) &&
      (forall j :: 0 <= j < |fs| ==> InitialOk(f, nodes, k, fs[j])) &&
      forall t :: 0 <= t < k && StartsAtOnce(nodes[t]) ==> Pending(fs, t)
  {
    if k > 0 {
      InitialFuturesFacts(f, nodes, k - 1);
      var fs := InitialFutures(f, nodes, k - 1);
      var last := Future(k - 1, RunNode(f, nodes[k - 1], []));
      assert forall j :: 0 <= j < |fs| ==> InitialOk(f, nodes, k - 1, fs[j]);
      assert InitialFutures(f, nodes, k) == if StartsAtOnce(nodes[k - 1]) then fs + [last] else fs;
      forall t | 0 <= t < k && StartsAtOnce(nodes[t]) ensures Pending(InitialFutures(f, nodes, k), t) {
        PendingSnoc(fs, last, t);
      }
    }
  }

  lemma {:induction false} InitInv(f: Frame, g: Graph, s: seq<Status>)
    requires WellFormed(g.nodes) && Solves(f, g.nodes, s)
    ensures Inv(g, s, Init(f, g))
  {
    var nodes := g.nodes;
    InitialFuturesFacts(f, nodes, |nodes|);
    assert Members([]) == {};
    forall t | 0 <= t < |nodes|
      ensures Ready(nodes, s, {}, t) <==> StartsAtOnce(nodes[t])
      ensures StartsAtOnce(nodes[t]) ==> !s[t].Idle? && OutcomeOf(s[t]) == RunNode(f, nodes[t], [])
    {
      if StartsAtOnce(nodes[t]) { PlainReady(f, nodes, s, {}, t, []); }
    }
  }

  /** When nothing is pending, every node that fires in order has completed. */
  lemma {:induction false} Quiescent(f: Frame, g: Graph, s: seq<Status>, st: Sched, t: nat)
    requires WellFormed(g.nodes) && Solves(f, g.nodes, s)
    requires Inv(g, s, st) && st.futures == []
    requires t < |s| && !s[t].Idle?
    ensures t in st.done
    decreases t
  {
    var (n, d) := (g.nodes[t], Members(st.done));
    assert forall e <- n.inEdges :: e < t;
    if n.pre.Some? { Quiescent(f, g, s, st, n.pre.value); }
    forall e <- n.inEdges | Fired(s, e) ensures e in d { Quiescent(f, g, s, st, e); }
    if n.op.Select? {
      FirstFiredSome(s, n.inEdges);
      var e :| e in n.inEdges && Fired(s, e);
      var p :| 0 <= p < |n.inEdges| && n.inEdges[p] == e;
      assert n.inEdges[p] in d;
    } else {
      assert forall p :: 0 <= p < |n.inEdges| ==> n.inEdges[p] in n.inEdges && Fired(s, n.inEdges[p]);
    }
    assert Ready(g.nodes, s, d, t);
  }

  lemma {:induction false} StatusesSolve(f: Frame, nodes: seq<GraphNode>)
    requires Topological(nodes)
    ensures Solves(f, nodes, Statuses(f, nodes))
  {
    forall i | 0 <= i < |nodes| ensures Statuses(f, nodes)[i] == NodeStatus(f, Statuses(f, nodes), nodes[i]) {
      StatusEquation(f, nodes, i);
    }
  }

  // ---------------------------------------------------------------------------
  // Selects that never start too early

  /** In order, two candidates of the enabled `select` complete. */
  predicate Conflict(nodes: seq<GraphNode>, s: seq<Status>, t: nat) {
    t < |nodes| && nodes[t].op.Select? && PreHolds(s, nodes[t].pre) && !AtMostOneDone(s, nodes[t].inEdges)
  }

  /** Node `x` is `y` or waits for it, through sources that complete in order. */
  predicate Waits(nodes: seq<GraphNode>, s: seq<Status>, x: nat, y: nat)
    decreases x
  {
    x == y ||
    (x < |nodes| && exists e :: 0 <= e < x && IsSource(nodes[x], e) && At(s, e).Done? && Waits(nodes, s, e, y))
  }

  /** A `select` with several candidates is not enabled before all of them have completed. */
  predicate Orderly(nodes: seq<GraphNode>, s: seq<Status>) {
    forall t :: 0 <= t < |nodes| && Conflict(nodes, s, t) ==>
      forall e <- nodes[t].inEdges :: At(s, e).Done? ==>
        nodes[t].pre.Some? && Waits(nodes, s, nodes[t].pre.value, e)
  }

  lemma {:induction false} ExclusiveOrderly(nodes: seq<GraphNode>, s: seq<Status>)
    requires SelectsExclusive(nodes, s)
    ensures Orderly(nodes, s)
  {
  }

  /** Completed nodes have had all the sources that complete in order. */
  ghost predicate Closed(nodes: seq<GraphNode>, s: seq<Status>, d: set<nat>) {
    forall x, e: nat :: x in d && x < |nodes| && IsSource(nodes[x], e) && At(s, e).Done? ==> e in d
  }

  lemma {:induction false} WaitsIn(nodes: seq<GraphNode>, s: seq<Status>, d: set<nat>, x: nat, y: nat)
    requires Closed(nodes, s, d) && x in d && Waits(nodes, s, x, y)
    ensures y in d
    decreases x
  {
    if x != y {
      var e :| 0 <= e < x && IsSource(nodes[x], e) && At(s, e).Done? && Waits(nodes, s, e, y);
      WaitsIn(nodes, s, d, e, y);
    }
  }

  lemma {:induction false} OrderlyPatient(nodes: seq<GraphNode>, s: seq<Status>, d: set<nat>)
    requires Orderly(nodes, s) && Closed(nodes, s, d) && forall i <- d :: At(s, i).Done?
    ensures Patient(nodes, s, d)
  {
    forall t | 0 <= t < |nodes| && nodes[t].op.Select? && Ready(nodes, s, d, t)
      ensures AllArrived(s, nodes[t].inEdges, d)
    {
      var edges := nodes[t].inEdges;
      var p :| 0 <= p < |edges| && edges[p] in d;
      forall e <- edges | At(s, e).Done? ensures e in d {
        if Conflict(nodes, s, t) {
          WaitsIn(nodes, s, d, nodes[t].pre.value, e);
        } else {
          var q :| 0 <= q < |edges| && edges[q] == e;
          assert AtMostOneDone(s, edges);
          assert q == p;
        }
      }
    }
  }

  /** What a ready node has had. */
  lemma {:induction false} ReadyHasSources(nodes: seq<GraphNode>, s: seq<Status>, d: set<nat>, x: nat, e: nat)
    requires Patient(nodes, s, d) && x < |nodes| && Ready(nodes, s, d, x) && IsSource(nodes[x], e) && At(s, e).Done?
    ensures e in d
  {
    if nodes[x].pre != Some(e) && nodes[x].op.Select? { assert AllArrived(s, nodes[x].inEdges, d); }
  }

  lemma {:induction false} StepClosed(g: Graph, s: seq<Status>, st: Sched, src: nat)
    requires Inv(g, s, st) && Patient(g.nodes, s, Members(st.done))
    requires src < |g.nodes| && Ready(g.nodes, s, Members(st.done), src)
    ensures Closed(g.nodes, s, Members(st.done) + {src})
  {
    var d := Members(st.done);
    forall x, e: nat | x in d + {src} && x < |g.nodes| && IsSource(g.nodes[x], e) && At(s, e).Done?
      ensures e in d + {src}
    {
      ReadyHasSources(g.nodes, s, d, x, e);
    }
  }

  lemma {:induction false} StepPatient(g: Graph, s: seq<Status>, st: Sched, src: nat)
    requires Orderly(g.nodes, s) && Inv(g, s, st) && Patient(g.nodes, s, Members(st.done))
    requires src < |g.nodes| && Ready(g.nodes, s, Members(st.done), src) && At(s, src).Done?
    ensures Patient(g.nodes, s, Members(st.done) + {src})
  {
    StepClosed(g, s, st, src);
    OrderlyPatient(g.nodes, s, Members(st.done) + {src});
  }

  // ---------------------------------------------------------------------------
  // Main results

  predicate Finished(st: Sched) {
    st.failed || st.futures == []
  }

  function RunOutcome(st: Sched): Outcome {
    if st.failed then Fail else Ok(st.ret)
  }

  /** The hypotheses under which the completion order cannot matter. */
  predicate Deterministic(f: Frame, g: Graph) {
    WellFormed(g.nodes) && Orderly(g.nodes, Statuses(f, g.nodes))
  }

  /** Every state of every run satisfies the invariant, or the graph fails in order. */
  lemma {:induction false} RunInv(f: Frame, g: Graph, schedule: seq<nat>)
    requires Deterministic(f, g) && Run(f, g, schedule).Some?
    ensures var (s, st) := (Statuses(f, g.nodes), Run(f, g, schedule).value);
      if st.failed then GraphFails(g.nodes, s) && |schedule| <= |g.nodes|
      else Inv(g, s, st) && Patient(g.nodes, s, Members(st.done)) && |schedule| == |st.done|
    decreases |schedule|
  {
    var s := Statuses(f, g.nodes);
    StatusesSolve(f, g.nodes);
    if schedule == [] {
      InitInv(f, g, s);
      assert Members([]) == {};
      OrderlyPatient(g.nodes, s, {});
    } else {
      var (prefix, i) := (schedule[..|schedule| - 1], schedule[|schedule| - 1]);
      RunInv(f, g, prefix);
      var st := Run(f, g, prefix).value;
      var src := st.futures[i].node;
      assert FutureOk(g.nodes, s, Members(st.done), st.futures[i]);
      if s[src].Done? { StepPatient(g, s, st, src); }
      assert Members(st.done + [src]) == Members(st.done) + {src};
      CompleteStep(f, g, s, st, i);
      DoneBound(g, s, st, st.futures[i].node);
    }
  }

  /** A node that has not completed leaves room in the log. */
  lemma {:induction false} DoneBound(g: Graph, s: seq<Status>, st: Sched, extra: nat)
    requires Inv(g, s, st) && extra < |s| && extra !in st.done
    ensures |st.done| < |g.nodes|
  {
    forall x <- st.done ensures x < |g.nodes| { assert x in Members(st.done); }
    DistinctBound(st.done + [extra], |g.nodes|);
  }

  function Below(n: nat): (r: set<nat>)
    ensures |r| == n && forall x: nat :: x in r <==> x < n
  {
    if n == 0 then {} else Below(n - 1) + {n - 1}
  }

  lemma {:induction false} DistinctBound(xs: seq<nat>, n: nat)
    requires forall i, j :: 0 <= i < j < |xs| ==> xs[i] != xs[j]
    requires forall x <- xs :: x < n
    ensures |xs| <= n
  {
    MembersSize(xs);
    assert Below(n) == Members(xs) + (Below(n) - Members(xs));
  }

  lemma {:induction false} MembersSize(xs: seq<nat>)
    requires forall i, j :: 0 <= i < j < |xs| ==> xs[i] != xs[j]
    ensures |Members(xs)| == |xs|
  {
    if xs != [] {
      var init := xs[..|xs| - 1];
      MembersSize(init);
      assert Members(xs) == Members(init) + {xs[|xs| - 1]};
      assert xs[|xs| - 1] !in init;
    }
  }

  lemma {:induction false} QuiescentOutcome(f: Frame, g: Graph, s: seq<Status>, st: Sched)
    requires WellFormed(g.nodes) && Solves(f, g.nodes, s) && Inv(g, s, st) && st.futures == []
    ensures !GraphFails(g.nodes, s) && st.ret == OutputOf(s, g.output)
    ensures forall i :: 0 <= i < |s| ==> (i in st.done <==> !s[i].Idle?)
  {
    forall i | 0 <= i < |s|
      ensures i in st.done <==> !s[i].Idle?
      ensures !s[i].Failed? && !Fault(g.nodes, s, i)
    {
      if !s[i].Idle? { Quiescent(f, g, s, st, i); }
      assert i in st.done <==> i in Members(st.done);
    }
  }

  /**
   Confluence. Whatever future `select_all` hands over at each turn: no node completes twice,
   there are at most as many completions as nodes, only nodes that fire in order complete, and a
   finished run has the outcome of in-order evaluation after completing exactly the nodes that fire in order.
   */
  lemma {:induction false} AnyScheduleRefinesInOrder(f: Frame, g: Graph, schedule: seq<nat>)
    requires Deterministic(f, g) && Run(f, g, schedule).Some?
    ensures |schedule| <= |g.nodes|
    ensures var (s, st) := (Statuses(f, g.nodes), Run(f, g, schedule).value);
      (!st.failed ==> |st.done| == |schedule| && RunsOnceInOrder(s, st)) &&
      (Finished(st) ==> RunOutcome(st) == GraphOutcome(f, g)) &&
      (!st.failed && Finished(st) ==> forall i :: 0 <= i < |s| ==> (i in st.done <==> !s[i].Idle?))
  {
    var (s, st) := (Statuses(f, g.nodes), Run(f, g, schedule).value);
    StatusesSolve(f, g.nodes);
    RunInv(f, g, schedule);
    if !st.failed {
      RunsOnce(g, s, st);
      DistinctBound(st.done, |g.nodes|);
      if st.futures == [] { QuiescentOutcome(f, g, s, st); }
    }
  }

  /** Completions are distinct in-order firings, and so are the nodes still pending, with their in-order outcomes. */
  predicate RunsOnceInOrder(s: seq<Status>, st: Sched) {
    (forall i, j :: 0 <= i < j < |st.done| ==> st.done[i] != st.done[j]) &&
    (forall i <- st.done :: i < |s| && s[i].Done?) &&
    DistinctFutures(st.futures) &&
    (forall fu <- st.futures :: fu.node < |s| && fu.node !in st.done && fu.outcome == OutcomeOf(s[fu.node]))
  }

  lemma {:induction false} RunsOnce(g: Graph, s: seq<Status>, st: Sched)
    requires Inv(g, s, st)
    ensures RunsOnceInOrder(s, st)
  {
    forall i <- st.done ensures i < |s| && s[i].Done? { assert i in Members(st.done); }
    forall fu <- st.futures
      ensures fu.node < |s| && fu.node !in st.done && fu.outcome == OutcomeOf(s[fu.node])
    {
      var j :| 0 <= j < |st.futures| && st.futures[j] == fu;
      assert FutureOk(g.nodes, s, Members(st.done), st.futures[j]);
    }
  }

  /** Two finished runs agree: one completion order fails iff all do, and they return the same value. */
  lemma {:induction false} SchedulesAgree(f: Frame, g: Graph, one: seq<nat>, other: seq<nat>)
    requires Deterministic(f, g) && Run(f, g, one).Some? && Run(f, g, other).Some?
    requires Finished(Run(f, g, one).value) && Finished(Run(f, g, other).value)
    ensures RunOutcome(Run(f, g, one).value) == RunOutcome(Run(f, g, other).value)
  {
    AnyScheduleRefinesInOrder(f, g, one);
    AnyScheduleRefinesInOrder(f, g, other);
  }
}
