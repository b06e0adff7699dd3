/**
 Runs of graphs in which several candidates of a `select` may complete: a run that
 succeeds has waited for all candidates of every `select` before enabling it, and
 then agrees with in-order evaluation.
 */
module SelectConflict {
  import opened Wrappers
  import opened Dataflow
  import opened Scheduler
  import opened Confluence
  import opened RunParts

  // ---------------------------------------------------------------------------
  // Patient runs

  /** At no point of the log could a `select` have started too early. */
  predicate PatientOrder(nodes: seq<GraphNode>, s: seq<Status>, done: seq<nat>) {
    forall n :: 0 <= n <= |done| ==> Patient(nodes, s, Members(done[..n]))
  }

  /** Every node completed after it had become ready. */
  predicate ReadyOrder(nodes: seq<GraphNode>, s: seq<Status>, done: seq<nat>) {
    forall m :: 0 <= m < |done| ==> done[m] < |nodes| && Ready(nodes, s, Members(done[..m]), done[m])
  }

  lemma {:induction false} PatientPrefix(nodes: seq<GraphNode>, s: seq<Status>, done: seq<nat>, x: nat)
    requires PatientOrder(nodes, s, done + [x])
    ensures PatientOrder(nodes, s, done)
    ensures Patient(nodes, s, Members(done)) && Patient(nodes, s, Members(done) + {x})
  {
    var all := done + [x];
    forall n | 0 <= n <= |done| ensures Patient(nodes, s, Members(done[..n])) {
      assert all[..n] == done[..n];
    }
    assert done[..|done|] == done && all[..|all|] == all && Members(all) == Members(done) + {x};
  }

  lemma {:induction false} DoneGrows(f: Frame, g: Graph, st: Sched, i: nat)
    requires i < |st.futures| && !Complete(f, g, st, i).failed
    ensures Complete(f, g, st, i).done == st.done + [st.futures[i].node]
    ensures st.futures[i].outcome.Ok? && Members(Complete(f, g, st, i).done) == Members(st.done) + {st.futures[i].node}
  {
  }

  /** A patient run satisfies the invariant of deterministic runs. */
  lemma {:induction false} PatientRunInv(f: Frame, g: Graph, schedule: seq<nat>)
    requires WellFormed(g.nodes) && Run(f, g, schedule).Some? && !Run(f, g, schedule).value.failed
    requires PatientOrder(g.nodes, Statuses(f, g.nodes), Run(f, g, schedule).value.done)
    ensures var (s, st) := (Statuses(f, g.nodes), Run(f, g, schedule).value);
      Inv(g, s, st) && |schedule| == |st.done| && ReadyOrder(g.nodes, s, st.done)
    decreases |schedule|
  {
    var s := Statuses(f, g.nodes);
    StatusesSolve(f, g.nodes);
    if schedule == [] {
      InitInv(f, g, s);
    } else {
      var (prefix, i) := (schedule[..|schedule| - 1], schedule[|schedule| - 1]);
      var st := Run(f, g, prefix).value;
      DoneGrows(f, g, st, i);
      PatientPrefix(g.nodes, s, st.done, st.futures[i].node);
      PatientRunInv(f, g, prefix);
      CompleteStep(f, g, s, st, i);
      ReadySnoc(g, s, st, i);
    }
  }

  lemma {:induction false} ReadySnoc(g: Graph, s: seq<Status>, st: Sched, i: nat)
    requires Inv(g, s, st) && i < |st.futures| && ReadyOrder(g.nodes, s, st.done)
    ensures ReadyOrder(g.nodes, s, st.done + [st.futures[i].node])
  {
    assert FutureOk(g.nodes, s, Members(st.done), st.futures[i]);
    var all := st.done + [st.futures[i].node];
    forall m | 0 <= m < |all| ensures all[m] < |g.nodes| && Ready(g.nodes, s, Members(all[..m]), all[m]) {
      assert all[..m] == st.done[..m];
      if m == |st.done| { assert st.done[..m] == st.done; }
    }
  }

  // ---------------------------------------------------------------------------
  // The record of one select in any run

  /** The record is as in-order evaluation of the sources says, and completed candidates have values. */
  predicate RecordOk(nodes: seq<GraphNode>, s: seq<Status>, b: Board, d: set<nat>, t: nat)
    requires t < |nodes|
  {
    BoardAt(nodes, s, b, t, d, Ready(nodes, s, d, t)) && forall e <- nodes[t].inEdges :: e in d ==> Fired(s, e)
  }

  lemma {:induction false} FilledReady(nodes: seq<GraphNode>, s: seq<Status>, d: set<nat>, t: nat, deps: seq<Option<Value>>)
    requires t < |nodes| && nodes[t].op.Select? && |deps| == |nodes[t].inEdges|
    requires forall e <- nodes[t].inEdges :: e in d ==> Fired(s, e)
    requires forall p :: 0 <= p < |deps| ==> deps[p] == Slot(s, d, nodes[t].inEdges[p])
    ensures Ready(nodes, s, d, t) <==> PreIn(nodes, s, d, t) && FirstSome(deps).Some?
  {
    FirstSomeNone(deps);
    forall p | 0 <= p < |deps| ensures deps[p].Some? <==> nodes[t].inEdges[p] in d {
      assert nodes[t].inEdges[p] in nodes[t].inEdges;
    }
  }

  /** A source that completes without failing the run finds the `select` not yet started. */
  lemma {:induction false} RecordStep(f: Frame, g: Graph, s: seq<Status>, st: Sched, i: nat, t: nat)
    requires WellFormed(g.nodes) && t < |g.nodes| && g.nodes[t].op.Select? && !st.failed && i < |st.futures|
    requires !Complete(f, g, st, i).failed && RecordOk(g.nodes, s, st.board, Members(st.done), t)
    requires var fu := st.futures[i];
      IsSource(g.nodes[t], fu.node) && fu.node !in st.done && fu.outcome == OutcomeOf(At(s, fu.node))
    ensures RecordOk(g.nodes, s, Complete(f, g, st, i).board, Members(st.done) + {st.futures[i].node}, t)
    ensures !Ready(g.nodes, s, Members(st.done), t)
  {
    var (n, src, d) := (g.nodes[t], st.futures[i].node, Members(st.done));
    var d' := d + {src};
    assert DistinctSources(n);
    if n.pre == Some(src) {
      Touched(f, g, st, i, t, Precondition);
      FilledReady(g.nodes, s, d', t, st.board.deps[t]);
    } else {
      var p :| 0 <= p < |n.inEdges| && n.inEdges[p] == src;
      Touched(f, g, st, i, t, ParamDep(p));
      var deps := st.board.deps[t][p := st.futures[i].outcome.value];
      assert forall q :: 0 <= q < |deps| && q != p ==> n.inEdges[q] != src;
      FilledReady(g.nodes, s, d', t, deps);
    }
  }

  lemma {:induction false} RecordKept(f: Frame, g: Graph, s: seq<Status>, st: Sched, i: nat, t: nat)
    requires t < |g.nodes| && !st.failed && i < |st.futures| && !Complete(f, g, st, i).failed
    requires RecordOk(g.nodes, s, st.board, Members(st.done), t) && !IsSource(g.nodes[t], st.futures[i].node)
    ensures RecordOk(g.nodes, s, Complete(f, g, st, i).board, Members(st.done) + {st.futures[i].node}, t)
  {
    NotTouched(f, g, st, i, t);
    ReadyGrows(g.nodes, s, Members(st.done), st.futures[i].node, t);
    forall p | 0 <= p < |g.nodes[t].inEdges| ensures g.nodes[t].inEdges[p] != st.futures[i].node {
      assert g.nodes[t].inEdges[p] in g.nodes[t].inEdges;
    }
  }

  /** No source of the `select` completed after the `select` had become ready. */
  predicate NoneLate(nodes: seq<GraphNode>, s: seq<Status>, done: seq<nat>, t: nat)
    requires t < |nodes|
  {
    forall m :: 0 <= m < |done| && IsSource(nodes[t], done[m]) ==> !Ready(nodes, s, Members(done[..m]), t)
  }

  lemma {:induction false} NoneLateSnoc(nodes: seq<GraphNode>, s: seq<Status>, done: seq<nat>, x: nat, t: nat)
    requires t < |nodes| && NoneLate(nodes, s, done, t)
    requires IsSource(nodes[t], x) ==> !Ready(nodes, s, Members(done), t)
    ensures NoneLate(nodes, s, done + [x], t)
  {
    var all := done + [x];
    forall m | 0 <= m < |all| && IsSource(nodes[t], all[m]) ensures !Ready(nodes, s, Members(all[..m]), t) {
      assert all[..m] == done[..m];
      if m == |done| { assert done[..m] == done; }
    }
  }

  /** What a run says about the nodes before `t` is what in-order evaluation says. */
  ghost predicate PatientBefore(f: Frame, g: Graph, st: Sched, t: nat)
    requires t <= |g.nodes|
  {
    PatientOrder(g.nodes[..t], Statuses(f, g.nodes[..t]), KeepDone(st.done, t))
  }

  lemma {:induction false} PatientBeforePrefix(f: Frame, g: Graph, st: Sched, i: nat, t: nat)
    requires t <= |g.nodes| && i < |st.futures| && !Complete(f, g, st, i).failed
    requires PatientBefore(f, g, Complete(f, g, st, i), t)
    ensures PatientBefore(f, g, st, t)
  {
    DoneGrows(f, g, st, i);
    KeepDoneSnoc(st.done, st.futures[i].node, t);
    if st.futures[i].node < t {
      PatientPrefix(g.nodes[..t], Statuses(f, g.nodes[..t]), KeepDone(st.done, t), st.futures[i].node);
    } else {
      assert KeepDone(st.done, t) + [] == KeepDone(st.done, t);
    }
  }

  /** A pending node before `t` has its in-order outcome and has not completed. */
  lemma {:induction false} PendingBefore(f: Frame, g: Graph, schedule: seq<nat>, i: nat, t: nat)
    requires WellFormed(g.nodes) && t <= |g.nodes| && Run(f, g, schedule).Some? && !Run(f, g, schedule).value.failed
    requires PatientBefore(f, g, Run(f, g, schedule).value, t) && i < |Run(f, g, schedule).value.futures|
    requires Run(f, g, schedule).value.futures[i].node < t
    ensures var (st, s) := (Run(f, g, schedule).value, Statuses(f, g.nodes));
      st.futures[i].node !in st.done && st.futures[i].outcome == OutcomeOf(At(s, st.futures[i].node))
  {
    var st := Run(f, g, schedule).value;
    var fu := st.futures[i];
    var part := RunCut(f, g, schedule, t);
    WellFormedPart(g.nodes, t);
    CutPending(f, Part(g, t), part, CutState(st, t), st.futures, i, t);
    KeepDoneMembers(st.done, t, fu.node);
    EarlierStatus(f, g.nodes, t, fu.node);
  }

  lemma {:induction false} CutPending(f: Frame, g: Graph, part: seq<nat>, cut: Sched, fs: seq<Future>, i: nat, t: nat)
    requires WellFormed(g.nodes) && |g.nodes| == t && Run(f, g, part) == Some(cut) && !cut.failed
    requires PatientOrder(g.nodes, Statuses(f, g.nodes), cut.done)
    requires i < |fs| && fs[i].node < t && cut.futures == KeepFutures(fs, t)
    ensures fs[i].node !in cut.done && fs[i].outcome == OutcomeOf(Statuses(f, g.nodes)[fs[i].node])
  {
    PatientRunInv(f, g, part);
    KeepRest(fs, i, t);
    var j := |KeepFutures(fs[..i], t)|;
    assert FutureOk(g.nodes, Statuses(f, g.nodes), Members(cut.done), cut.futures[j]);
  }

  lemma {:induction false} RecordRun(f: Frame, g: Graph, schedule: seq<nat>, t: nat)
    requires WellFormed(g.nodes) && t < |g.nodes| && g.nodes[t].op.Select?
    requires Run(f, g, schedule).Some? && !Run(f, g, schedule).value.failed
    requires PatientBefore(f, g, Run(f, g, schedule).value, t)
    ensures var (st, s) := (Run(f, g, schedule).value, Statuses(f, g.nodes));
      RecordOk(g.nodes, s, st.board, Members(st.done), t) && NoneLate(g.nodes, s, st.done, t)
    decreases |schedule|
  {
    var s := Statuses(f, g.nodes);
    if schedule == [] {
      assert InitialBoard(g.nodes).deps[t] == Blank(|g.nodes[t].inEdges|);
      assert Members([]) == {};
    } else {
      var (prefix, i) := (schedule[..|schedule| - 1], schedule[|schedule| - 1]);
      var st := Run(f, g, prefix).value;
      var src := st.futures[i].node;
      PatientBeforePrefix(f, g, st, i, t);
      RecordRun(f, g, prefix, t);
      DoneGrows(f, g, st, i);
      if IsSource(g.nodes[t], src) {
        assert src < t by { assert src in g.nodes[t].inEdges || g.nodes[t].pre == Some(src); }
        PendingBefore(f, g, prefix, i, t);
        RecordStep(f, g, s, st, i, t);
      } else {
        RecordKept(f, g, s, st, i, t);
      }
      NoneLateSnoc(g.nodes, s, st.done, src, t);
    }
  }

  // ---------------------------------------------------------------------------
  // Runs that succeed

  predicate Succeeds(f: Frame, g: Graph, schedule: seq<nat>) {
    var run := Run(f, g, schedule);
    run.Some? && !run.value.failed && run.value.futures == []
  }

  lemma {:induction false} ReadyMore(nodes: seq<GraphNode>, s: seq<Status>, d: set<nat>, d': set<nat>, t: nat)
    requires t < |nodes| && Ready(nodes, s, d, t) && d <= d'
    ensures Ready(nodes, s, d', t)
  {
  }

  /** All candidates of a `select` that complete in order completed before it became ready. */
  lemma {:induction false} ArrivedInTime(nodes: seq<GraphNode>, s: seq<Status>, done: seq<nat>, t: nat, n: nat)
    requires t < |nodes| && n <= |done| && NoneLate(nodes, s, done, t) && Ready(nodes, s, Members(done[..n]), t)
    requires AllArrived(s, nodes[t].inEdges, Members(done))
    ensures AllArrived(s, nodes[t].inEdges, Members(done[..n]))
  {
    forall e <- nodes[t].inEdges | At(s, e).Done? ensures e in done[..n] {
      assert e in Members(done);
      var m :| 0 <= m < |done| && done[m] == e;
      if m >= n {
        assert Members(done[..n]) <= Members(done[..m]);
        ReadyMore(nodes, s, Members(done[..n]), Members(done[..m]), t);
      } else {
        assert done[..n][m] == e;
      }
    }
  }

  lemma {:induction false} KeepDonePrefix(done: seq<nat>, n: nat, t: nat)
    requires n <= |done|
    ensures KeepDone(done[..n], t) <= KeepDone(done, t)
  {
    if n < |done| {
      KeepDonePrefix(done[..|done| - 1], n, t);
      assert done[..|done| - 1][..n] == done[..n] && done == done[..|done| - 1] + [done[|done| - 1]];
      KeepDoneSnoc(done[..|done| - 1], done[|done| - 1], t);
    } else {
      assert done[..n] == done;
    }
  }

  /** Readiness of a node depends on the nodes before it. */
  lemma {:induction false} ReadyBefore(f: Frame, nodes: seq<GraphNode>, done: seq<nat>, t: nat, u: nat)
    requires Topological(nodes) && u < t <= |nodes|
    ensures Ready(nodes, Statuses(f, nodes), Members(done), u) <==>
            Ready(nodes[..t], Statuses(f, nodes[..t]), Members(KeepDone(done, t)), u)
    ensures AllArrived(Statuses(f, nodes), nodes[u].inEdges, Members(done)) <==>
            AllArrived(Statuses(f, nodes[..t]), nodes[u].inEdges, Members(KeepDone(done, t)))
  {
    var n := nodes[u];
    assert nodes[..t][u] == n;
    forall e: nat | IsSource(n, e)
      ensures e < t && (e in Members(done) <==> e in Members(KeepDone(done, t)))
      ensures At(Statuses(f, nodes), e) == At(Statuses(f, nodes[..t]), e)
    {
      KeepDoneMembers(done, t, e);
      EarlierStatus(f, nodes, t, e);
    }
    forall p | 0 <= p < |n.inEdges| ensures IsSource(n, n.inEdges[p]) {}
  }

  lemma {:induction false} EarlierPatient(f: Frame, g: Graph, st: Sched, t: nat, u: nat, n: nat)
    requires Topological(g.nodes) && u < t <= |g.nodes| && PatientBefore(f, g, st, t) && n <= |st.done|
    requires g.nodes[u].op.Select? && Ready(g.nodes, Statuses(f, g.nodes), Members(st.done[..n]), u)
    ensures AllArrived(Statuses(f, g.nodes), g.nodes[u].inEdges, Members(st.done[..n]))
  {
    ReadyBefore(f, g.nodes, st.done[..n], t, u);
    KeepDonePrefix(st.done, n, t);
    var kept := KeepDone(st.done[..n], t);
    assert kept == KeepDone(st.done, t)[..|kept|] && g.nodes[..t][u] == g.nodes[u];
    assert Patient(g.nodes[..t], Statuses(f, g.nodes[..t]), Members(kept));
  }

  lemma {:induction false} LastArrived(f: Frame, g: Graph, schedule: seq<nat>, t: nat)
    requires WellFormed(g.nodes) && t < |g.nodes| && Succeeds(f, g, schedule)
    requires PatientBefore(f, g, Run(f, g, schedule).value, t)
    ensures AllArrived(Statuses(f, g.nodes), g.nodes[t].inEdges, Members(Run(f, g, schedule).value.done))
  {
    var st := Run(f, g, schedule).value;
    var part := RunCut(f, g, schedule, t);
    WellFormedPart(g.nodes, t);
    PatientRunInv(f, Part(g, t), part);
    StatusesSolve(f, g.nodes[..t]);
    forall e <- g.nodes[t].inEdges | At(Statuses(f, g.nodes), e).Done? ensures e in st.done {
      EarlierStatus(f, g.nodes, t, e);
      Quiescent(f, Part(g, t), Statuses(f, g.nodes[..t]), CutState(st, t), e);
      KeepDoneMembers(st.done, t, e);
    }
  }

  /** A run that succeeds was patient all along. */
  lemma {:induction false} SuccessIsPatient(f: Frame, g: Graph, schedule: seq<nat>)
    requires WellFormed(g.nodes) && Succeeds(f, g, schedule)
    ensures PatientOrder(g.nodes, Statuses(f, g.nodes), Run(f, g, schedule).value.done)
    decreases |g.nodes|
  {
    if g.nodes != [] {
      var (t, st, s) := (|g.nodes| - 1, Run(f, g, schedule).value, Statuses(f, g.nodes));
      var part := RunCut(f, g, schedule, t);
      WellFormedPart(g.nodes, t);
      SuccessIsPatient(f, Part(g, t), part);
      LastArrived(f, g, schedule, t);
      if g.nodes[t].op.Select? { RecordRun(f, g, schedule, t); }
      forall n | 0 <= n <= |st.done| ensures Patient(g.nodes, s, Members(st.done[..n])) {
        PatientPoint(f, g, st, t, n);
      }
    }
  }

  lemma {:induction false} PatientPoint(f: Frame, g: Graph, st: Sched, t: nat, n: nat)
    requires Topological(g.nodes) && |g.nodes| == t + 1 && PatientBefore(f, g, st, t) && n <= |st.done|
    requires g.nodes[t].op.Select? ==> NoneLate(g.nodes, Statuses(f, g.nodes), st.done, t)
    requires AllArrived(Statuses(f, g.nodes), g.nodes[t].inEdges, Members(st.done))
    ensures Patient(g.nodes, Statuses(f, g.nodes), Members(st.done[..n]))
  {
    var (s, d) := (Statuses(f, g.nodes), Members(st.done[..n]));
    forall u | 0 <= u < |g.nodes| && g.nodes[u].op.Select? && Ready(g.nodes, s, d, u)
      ensures AllArrived(s, g.nodes[u].inEdges, d)
    {
      if u < t { EarlierPatient(f, g, st, t, u, n); } else { ArrivedInTime(g.nodes, s, st.done, t, n); }
    }
  }

  /** Each `select` with several candidates has a precondition, and all its candidates precede that in the log. */
  predicate CandidatesFirst(nodes: seq<GraphNode>, s: seq<Status>, done: seq<nat>) {
    forall t :: 0 <= t < |nodes| && Conflict(nodes, s, t) ==>
      nodes[t].pre.Some? && nodes[t].pre.value in done &&
      forall m :: 0 <= m < |done| && done[m] == nodes[t].pre.value ==> AllArrived(s, nodes[t].inEdges, Members(done[..m]))
  }

  /** Once a `select` with several candidates is enabled, none of them is still to come. */
  lemma {:induction false} NoneAfterEnabled(nodes: seq<GraphNode>, s: seq<Status>, done: seq<nat>, t: nat, n: nat)
    requires PatientOrder(nodes, s, done) && Conflict(nodes, s, t) && DistinctSources(nodes[t]) && n <= |done|
    requires PreIn(nodes, s, Members(done[..n]), t) && AllArrived(s, nodes[t].inEdges, Members(done))
    ensures AllArrived(s, nodes[t].inEdges, Members(done[..n]))
    decreases |done| - n
  {
    if n == |done| {
      assert done[..n] == done;
    } else {
      assert done[..n + 1] == done[..n] + [done[n]];
      NoneAfterEnabled(nodes, s, done, t, n + 1);
      SomeBefore(s, nodes[t].inEdges, done, n);
      assert Ready(nodes, s, Members(done[..n]), t);
      assert Patient(nodes, s, Members(done[..n]));
    }
  }

  /** Two candidates do not complete at once. */
  lemma {:induction false} SomeBefore(s: seq<Status>, edges: seq<nat>, done: seq<nat>, n: nat)
    requires n < |done| && !AtMostOneDone(s, edges) && AllArrived(s, edges, Members(done[..n + 1]))
    requires forall p, q :: 0 <= p < q < |edges| ==> edges[p] != edges[q]
    ensures exists p :: 0 <= p < |edges| && edges[p] in Members(done[..n])
  {
    var p, q :| 0 <= p < q < |edges| && At(s, edges[p]).Done? && At(s, edges[q]).Done?;
    assert done[..n + 1] == done[..n] + [done[n]];
    assert edges[p] in edges && edges[q] in edges;
    assert edges[if edges[p] == done[n] then q else p] in Members(done[..n]);
  }

  lemma {:induction false} PatientCandidates(nodes: seq<GraphNode>, s: seq<Status>, done: seq<nat>, t: nat)
    requires WellFormed(nodes) && PatientOrder(nodes, s, done) && Conflict(nodes, s, t)
    requires forall i: nat :: At(s, i).Done? ==> i in done
    ensures nodes[t].pre.Some? && nodes[t].pre.value in done
    ensures forall m :: 0 <= m < |done| && done[m] == nodes[t].pre.value ==> AllArrived(s, nodes[t].inEdges, Members(done[..m]))
  {
    var n := nodes[t];
    if n.pre.None? {
      NoneAfterEnabled(nodes, s, done, t, 0);
      assert AtMostOneDone(s, n.inEdges);
    } else {
      forall m | 0 <= m < |done| && done[m] == n.pre.value ensures AllArrived(s, n.inEdges, Members(done[..m])) {
        assert done[..m + 1] == done[..m] + [done[m]];
        NoneAfterEnabled(nodes, s, done, t, m + 1);
      }
    }
  }

  /**
   Whatever the `select`s of a graph may choose from: a run that succeeds returns what in-order evaluation returns, which
   does not fail then; it completes exactly the nodes that fire in order; and it has completed all candidates of every
   `select` with several of them before the precondition of that `select`.
   */
  lemma {:induction false} SuccessfulRunsAgree(f: Frame, g: Graph, schedule: seq<nat>)
    requires WellFormed(g.nodes) && Succeeds(f, g, schedule)
    ensures var (s, st) := (Statuses(f, g.nodes), Run(f, g, schedule).value);
      !GraphFails(g.nodes, s) && RunOutcome(st) == GraphOutcome(f, g) && RunsOnceInOrder(s, st) &&
      (forall i :: 0 <= i < |s| ==> (i in st.done <==> !s[i].Idle?)) && CandidatesFirst(g.nodes, s, st.done)
  {
    var (s, st) := (Statuses(f, g.nodes), Run(f, g, schedule).value);
    SuccessIsPatient(f, g, schedule);
    PatientRunInv(f, g, schedule);
    StatusesSolve(f, g.nodes);
    QuiescentOutcome(f, g, s, st);
    RunsOnce(g, s, st);
    forall t | 0 <= t < |g.nodes| && Conflict(g.nodes, s, t)
      ensures g.nodes[t].pre.Some? && g.nodes[t].pre.value in st.done
      ensures forall m :: 0 <= m < |st.done| && st.done[m] == g.nodes[t].pre.value ==>
        AllArrived(s, g.nodes[t].inEdges, Members(st.done[..m]))
    {
      PatientCandidates(g.nodes, s, st.done, t);
    }
  }
}
