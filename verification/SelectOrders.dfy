/**
 Which completion orders of a graph succeed: exactly when some order does, exactly when
 all do, and what decides it at the graph.
 */
module SelectOrders {
  import opened Wrappers
  import opened Dataflow
  import opened Scheduler
  import opened Confluence
  import opened RunBounds
  import opened SelectConflict

  // ---------------------------------------------------------------------------
  // Ranks

  /** An order of the nodes in which sources precede their users, and candidates of a conflicting `select` its precondition. */
  predicate Ranked(nodes: seq<GraphNode>, s: seq<Status>, rank: seq<nat>) {
    |rank| == |nodes| && RanksSources(nodes, s, rank) && RanksCandidates(nodes, s, rank)
  }

  predicate RanksSources(nodes: seq<GraphNode>, s: seq<Status>, rank: seq<nat>)
    requires |rank| == |nodes|
  {
    forall t, e :: 0 <= t < |nodes| && 0 <= e < |nodes| && At(s, t).Done? && IsSource(nodes[t], e) && At(s, e).Done? ==>
      rank[e] < rank[t]
  }

  predicate RanksCandidates(nodes: seq<GraphNode>, s: seq<Status>, rank: seq<nat>)
    requires |rank| == |nodes|
  {
    forall t :: 0 <= t < |nodes| && Conflict(nodes, s, t) ==>
      nodes[t].pre.Some? && nodes[t].pre.value < |nodes| &&
      forall e <- nodes[t].inEdges :: e < |nodes| && At(s, e).Done? ==> rank[e] < rank[nodes[t].pre.value]
  }

  /** Nodes complete by rank. */
  ghost predicate Downward(s: seq<Status>, rank: seq<nat>, d: set<nat>) {
    forall x, y :: x in d && x < |rank| && 0 <= y < |rank| && At(s, y).Done? && rank[y] < rank[x] ==> y in d
  }

  lemma {:induction false} RankedPatient(nodes: seq<GraphNode>, s: seq<Status>, rank: seq<nat>, d: set<nat>)
    requires Topological(nodes) && Ranked(nodes, s, rank) && Downward(s, rank, d) && forall i <- d :: At(s, i).Done?
    ensures Patient(nodes, s, d)
  {
    forall t | 0 <= t < |nodes| && nodes[t].op.Select? && Ready(nodes, s, d, t)
      ensures AllArrived(s, nodes[t].inEdges, d)
    {
      var edges := nodes[t].inEdges;
      var p :| 0 <= p < |edges| && edges[p] in d;
      forall e <- edges | At(s, e).Done? ensures e in d {
        if !Conflict(nodes, s, t) {
          var q :| 0 <= q < |edges| && edges[q] == e;
          assert AtMostOneDone(s, edges);
          assert q == p;
        }
      }
    }
  }

  /** A node that fires in order is ready once its sources that complete in order have. */
  lemma {:induction false} ReadyOnSources(f: Frame, nodes: seq<GraphNode>, s: seq<Status>, d: set<nat>, x: nat)
    requires Solves(f, nodes, s) && x < |s| && !s[x].Idle?
    requires forall e: nat :: IsSource(nodes[x], e) && At(s, e).Done? ==> e in d
    ensures Ready(nodes, s, d, x)
  {
    var n := nodes[x];
    assert forall p :: 0 <= p < |n.inEdges| ==> IsSource(n, n.inEdges[p]);
    if n.op.Select? {
      FirstFiredSome(s, n.inEdges);
      var e :| e in n.inEdges && Fired(s, e);
      var p :| 0 <= p < |n.inEdges| && n.inEdges[p] == e;
      assert n.inEdges[p] in d;
    }
  }

  /** The node of least rank among those pending has the least rank among all that are still to complete. */
  lemma {:induction false} LeastToCome(f: Frame, g: Graph, s: seq<Status>, st: Sched, rank: seq<nat>, i: nat, y: nat)
    requires WellFormed(g.nodes) && Solves(f, g.nodes, s) && Inv(g, s, st) && Ranked(g.nodes, s, rank)
    requires IsLeast(st.futures, rank, i) && y < |s| && s[y].Done? && y !in st.done
    ensures rank[st.futures[i].node] <= rank[y]
    decreases y
  {
    var d := Members(st.done);
    if forall e: nat :: IsSource(g.nodes[y], e) && At(s, e).Done? ==> e in d {
      ReadyOnSources(f, g.nodes, s, d, y);
      assert Pending(st.futures, y);
    } else {
      var e: nat :| IsSource(g.nodes[y], e) && At(s, e).Done? && e !in d;
      assert e < y by { assert e in g.nodes[y].inEdges || g.nodes[y].pre == Some(e); }
      LeastToCome(f, g, s, st, rank, i, e);
    }
  }

  predicate IsLeast(fs: seq<Future>, rank: seq<nat>, i: nat) {
    (forall j :: 0 <= j < |fs| ==> fs[j].node < |rank|) && i < |fs| &&
    forall j :: 0 <= j < |fs| ==> rank[fs[i].node] <= rank[fs[j].node]
  }

  lemma {:induction false} FindLeast(fs: seq<Future>, rank: seq<nat>) returns (i: nat)
    requires fs != [] && forall j :: 0 <= j < |fs| ==> fs[j].node < |rank|
    ensures IsLeast(fs, rank, i)
  {
    if |fs| == 1 {
      i := 0;
    } else {
      var rest := fs[..|fs| - 1];
      i := FindLeast(rest, rank);
      if rank[fs[|fs| - 1].node] < rank[fs[i].node] { i := |fs| - 1; }
      assert forall j :: 0 <= j < |rest| ==> fs[j] == rest[j];
    }
  }

  lemma {:induction false} StepDown(f: Frame, g: Graph, s: seq<Status>, st: Sched, rank: seq<nat>, i: nat)
    requires WellFormed(g.nodes) && Solves(f, g.nodes, s) && Inv(g, s, st) && Ranked(g.nodes, s, rank)
    requires IsLeast(st.futures, rank, i) && Downward(s, rank, Members(st.done))
    ensures Downward(s, rank, Members(st.done) + {st.futures[i].node})
  {
    var (d, src) := (Members(st.done), st.futures[i].node);
    forall x, y | x in d + {src} && x < |rank| && 0 <= y < |rank| && At(s, y).Done? && rank[y] < rank[x]
      ensures y in d + {src}
    {
      if x == src && y !in d { LeastToCome(f, g, s, st, rank, i, y); }
    }
  }

  /** Completing by rank goes on to the end. */
  lemma {:induction false} RankedRun(f: Frame, g: Graph, rank: seq<nat>, schedule: seq<nat>) returns (full: seq<nat>)
    requires WellFormed(g.nodes) && !GraphFails(g.nodes, Statuses(f, g.nodes)) && Ranked(g.nodes, Statuses(f, g.nodes), rank)
    requires Run(f, g, schedule).Some?
    requires var (s, st) := (Statuses(f, g.nodes), Run(f, g, schedule).value);
      Inv(g, s, st) && |schedule| == |st.done| && Downward(s, rank, Members(st.done))
    ensures Succeeds(f, g, full)
    decreases |g.nodes| - |schedule|
  {
    var (s, st) := (Statuses(f, g.nodes), Run(f, g, schedule).value);
    if st.futures == [] {
      full := schedule;
    } else {
      assert forall j :: 0 <= j < |st.futures| ==> FutureOk(g.nodes, s, Members(st.done), st.futures[j]);
      var i := FindLeast(st.futures, rank);
      RankedStep(f, g, s, st, rank, i);
      var next := schedule + [i];
      assert next[..|schedule|] == schedule;
      full := RankedRun(f, g, rank, next);
    }
  }

  lemma {:induction false} RankedStep(f: Frame, g: Graph, s: seq<Status>, st: Sched, rank: seq<nat>, i: nat)
    requires WellFormed(g.nodes) && s == Statuses(f, g.nodes) && !GraphFails(g.nodes, s) && Ranked(g.nodes, s, rank)
    requires Inv(g, s, st) && Downward(s, rank, Members(st.done)) && IsLeast(st.futures, rank, i)
    ensures var st' := Complete(f, g, st, i);
      Inv(g, s, st') && |st'.done| == |st.done| + 1 <= |g.nodes| && Downward(s, rank, Members(st'.done))
  {
    var src := st.futures[i].node;
    StatusesSolve(f, g.nodes);
    assert FutureOk(g.nodes, s, Members(st.done), st.futures[i]);
    StepDown(f, g, s, st, rank, i);
    RankedPatient(g.nodes, s, rank, Members(st.done));
    assert s[src].Done? && !Fault(g.nodes, s, src);
    RankedPatient(g.nodes, s, rank, Members(st.done) + {src});
    CompleteStep(f, g, s, st, i);
    DoneBound(g, s, st, src);
    DoneGrows(f, g, st, i);
  }

  // ---------------------------------------------------------------------------
  // Some order succeeds

  function IndexOf(done: seq<nat>, x: nat): nat {
    if done == [] then 0 else if done[0] == x then 0 else 1 + IndexOf(done[1..], x)
  }

  lemma {:induction false} IndexOfFacts(done: seq<nat>, x: nat, m: nat)
    requires m <= |done|
    ensures x in done[..m] ==> IndexOf(done, x) < m
    ensures x !in done[..m] ==> IndexOf(done, x) >= m
  {
    if m > 0 && done[0] != x {
      IndexOfFacts(done[1..], x, m - 1);
      assert done[..m] == [done[0]] + done[1..][..m - 1];
    } else if m > 0 {
      assert done[..m][0] == x;
    }
  }

  /** The log of a run that succeeds is such an order. */
  lemma {:induction false} SuccessIsRanked(f: Frame, g: Graph, schedule: seq<nat>) returns (rank: seq<nat>)
    requires WellFormed(g.nodes) && Succeeds(f, g, schedule)
    ensures Ranked(g.nodes, Statuses(f, g.nodes), rank)
  {
    var (s, st) := (Statuses(f, g.nodes), Run(f, g, schedule).value);
    rank := seq(|g.nodes|, i requires 0 <= i => IndexOf(st.done, i));
    SuccessfulRunsAgree(f, g, schedule);
    SuccessIsPatient(f, g, schedule);
    PatientRunInv(f, g, schedule);
    forall t, e | 0 <= t < |g.nodes| && 0 <= e < |g.nodes| && At(s, t).Done? && IsSource(g.nodes[t], e) && At(s, e).Done?
      ensures rank[e] < rank[t]
    {
      SourceEarlier(g.nodes, s, st.done, t, e);
    }
    forall t | 0 <= t < |g.nodes| && Conflict(g.nodes, s, t)
      ensures g.nodes[t].pre.Some? && g.nodes[t].pre.value < |g.nodes|
      ensures forall e <- g.nodes[t].inEdges :: e < |g.nodes| && At(s, e).Done? ==> rank[e] < rank[g.nodes[t].pre.value]
    {
      CandidateEarlier(g.nodes, s, st.done, t);
    }
  }

  lemma {:induction false} SourceEarlier(nodes: seq<GraphNode>, s: seq<Status>, done: seq<nat>, t: nat, e: nat)
    requires PatientOrder(nodes, s, done) && ReadyOrder(nodes, s, done) && t < |nodes| && t in done
    requires IsSource(nodes[t], e) && At(s, e).Done?
    ensures IndexOf(done, e) < IndexOf(done, t)
  {
    var m := FirstAt(done, t);
    assert Patient(nodes, s, Members(done[..m]));
    ReadyHasSources(nodes, s, Members(done[..m]), t, e);
    IndexOfFacts(done, e, m);
    IndexOfFacts(done, t, m);
  }

  lemma {:induction false} FirstAt(done: seq<nat>, x: nat) returns (m: nat)
    requires x in done
    ensures m < |done| && done[m] == x && x !in done[..m]
  {
    if done[0] == x {
      m := 0;
    } else {
      m := FirstAt(done[1..], x);
      m := m + 1;
      assert done[..m] == [done[0]] + done[1..][..m - 1];
    }
  }

  lemma {:induction false} CandidateEarlier(nodes: seq<GraphNode>, s: seq<Status>, done: seq<nat>, t: nat)
    requires Topological(nodes) && Conflict(nodes, s, t) && CandidatesFirst(nodes, s, done)
    ensures nodes[t].pre.Some? && nodes[t].pre.value < |nodes|
    ensures forall e <- nodes[t].inEdges :: At(s, e).Done? ==> IndexOf(done, e) < IndexOf(done, nodes[t].pre.value)
  {
    var k := nodes[t].pre.value;
    var m := FirstAt(done, k);
    forall e <- nodes[t].inEdges | At(s, e).Done? ensures IndexOf(done, e) < IndexOf(done, k) {
      assert e in Members(done[..m]);
      IndexOfFacts(done, e, m);
      IndexOfFacts(done, k, m);
    }
  }

  /** Some completion order succeeds if and only if in-order evaluation does and the nodes have such an order. */
  lemma {:induction false} SomeOrderSucceedsIff(f: Frame, g: Graph)
    requires WellFormed(g.nodes)
    ensures (exists schedule :: Succeeds(f, g, schedule)) <==>
            !GraphFails(g.nodes, Statuses(f, g.nodes)) && exists rank :: Ranked(g.nodes, Statuses(f, g.nodes), rank)
  {
    var s := Statuses(f, g.nodes);
    if schedule :| Succeeds(f, g, schedule) {
      SuccessfulRunsAgree(f, g, schedule);
      var rank := SuccessIsRanked(f, g, schedule);
    }
    if !GraphFails(g.nodes, s) && exists rank :: Ranked(g.nodes, s, rank) {
      var rank :| Ranked(g.nodes, s, rank);
      StatusesSolve(f, g.nodes);
      InitInv(f, g, s);
      assert Members([]) == {};
      var full := RankedRun(f, g, rank, []);
    }
  }

  // ---------------------------------------------------------------------------
  // One conflict

  /** The `select` has no precondition, or one of its candidates waits for it. */
  predicate Hopeless(nodes: seq<GraphNode>, s: seq<Status>, t: nat) {
    Conflict(nodes, s, t) &&
    (nodes[t].pre.None? || exists e <- nodes[t].inEdges :: At(s, e).Done? && Waits(nodes, s, e, nodes[t].pre.value))
  }

  lemma {:induction false} WaitsRank(nodes: seq<GraphNode>, s: seq<Status>, rank: seq<nat>, x: nat, y: nat)
    requires |rank| == |nodes| && RanksSources(nodes, s, rank)
    requires x < |nodes| && At(s, x).Done? && Waits(nodes, s, x, y)
    ensures y <= x && rank[y] <= rank[x]
    decreases x
  {
    if x != y {
      var e :| 0 <= e < x && IsSource(nodes[x], e) && At(s, e).Done? && Waits(nodes, s, e, y);
      WaitsRank(nodes, s, rank, e, y);
    }
  }

  lemma {:induction false} HopelessUnranked(nodes: seq<GraphNode>, s: seq<Status>, rank: seq<nat>, t: nat)
    requires Topological(nodes) && Hopeless(nodes, s, t)
    ensures !Ranked(nodes, s, rank)
  {
    if Ranked(nodes, s, rank) {
      var e :| e in nodes[t].inEdges && At(s, e).Done? && Waits(nodes, s, e, nodes[t].pre.value);
      WaitsRank(nodes, s, rank, e, nodes[t].pre.value);
    }
  }

  /** Then every completion order fails, whatever the other `select`s do. */
  lemma {:induction false} EveryOrderFails(f: Frame, g: Graph, schedule: seq<nat>, t: nat)
    requires WellFormed(g.nodes) && Hopeless(g.nodes, Statuses(f, g.nodes), t)
    requires Run(f, g, schedule).Some? && Finished(Run(f, g, schedule).value)
    ensures Run(f, g, schedule).value.failed
  {
    if Succeeds(f, g, schedule) {
      var rank := SuccessIsRanked(f, g, schedule);
      HopelessUnranked(g.nodes, Statuses(f, g.nodes), rank, t);
    }
  }

  /** What waits for `k` comes last. */
  function LateRank(nodes: seq<GraphNode>, s: seq<Status>, k: nat): seq<nat> {
    seq(|nodes|, i requires 0 <= i => if Waits(nodes, s, i, k) then |nodes| + i else i)
  }

  lemma {:induction false} LateRankRanked(nodes: seq<GraphNode>, s: seq<Status>, t: nat)
    requires Topological(nodes) && Conflict(nodes, s, t) && !Hopeless(nodes, s, t)
    requires forall u :: 0 <= u < |nodes| && Conflict(nodes, s, u) ==> u == t
    ensures Ranked(nodes, s, LateRank(nodes, s, nodes[t].pre.value))
  {
    var k := nodes[t].pre.value;
    var rank := LateRank(nodes, s, k);
    forall x, e | 0 <= x < |nodes| && 0 <= e < |nodes| && At(s, x).Done? && IsSource(nodes[x], e) && At(s, e).Done?
      ensures rank[e] < rank[x]
    {
      assert e < x by { assert e in nodes[x].inEdges || nodes[x].pre == Some(e); }
    }
    assert Waits(nodes, s, k, k);
  }

  /**
   A graph that does not fail in order and has one conflicting `select`: some completion order succeeds if and only if
   the `select` has a precondition and none of its candidates waits for it.
   */
  lemma {:induction false} OneConflictIff(f: Frame, g: Graph, t: nat)
    requires WellFormed(g.nodes) && !GraphFails(g.nodes, Statuses(f, g.nodes)) && Conflict(g.nodes, Statuses(f, g.nodes), t)
    requires forall u :: 0 <= u < |g.nodes| && Conflict(g.nodes, Statuses(f, g.nodes), u) ==> u == t
    ensures (exists schedule :: Succeeds(f, g, schedule)) <==> !Hopeless(g.nodes, Statuses(f, g.nodes), t)
  {
    var s := Statuses(f, g.nodes);
    SomeOrderSucceedsIff(f, g);
    if Hopeless(g.nodes, s, t) {
      forall rank ensures !Ranked(g.nodes, s, rank) { HopelessUnranked(g.nodes, s, rank, t); }
    } else {
      LateRankRanked(g.nodes, s, t);
    }
  }

  /** Node `y` is `x` or an ancestor of it in the graph. */
  predicate Reaches(nodes: seq<GraphNode>, x: nat, y: nat)
    decreases x
  {
    x == y || (x < |nodes| && exists e :: 0 <= e < x && IsSource(nodes[x], e) && Reaches(nodes, e, y))
  }

  /** To wait for a node is to be below it in the graph, as far as there is no `select` in between. */
  lemma {:induction false} WaitsReaches(f: Frame, nodes: seq<GraphNode>, s: seq<Status>, x: nat, y: nat)
    requires Solves(f, nodes, s) && Topological(nodes) && x < |nodes| && s[x].Done?
    ensures Waits(nodes, s, x, y) ==> Reaches(nodes, x, y)
    ensures Reaches(nodes, x, y) && (forall u :: 0 <= u <= x ==> !nodes[u].op.Select?) ==> Waits(nodes, s, x, y)
    decreases x
  {
    if x != y && Waits(nodes, s, x, y) {
      var e :| 0 <= e < x && IsSource(nodes[x], e) && At(s, e).Done? && Waits(nodes, s, e, y);
      WaitsReaches(f, nodes, s, e, y);
    }
    if x != y && Reaches(nodes, x, y) && forall u :: 0 <= u <= x ==> !nodes[u].op.Select? {
      var e :| 0 <= e < x && IsSource(nodes[x], e) && Reaches(nodes, e, y);
      assert At(s, e).Done? by {
        if e in nodes[x].inEdges {
          var p :| 0 <= p < |nodes[x].inEdges| && nodes[x].inEdges[p] == e;
          assert Fired(s, nodes[x].inEdges[p]);
        }
      }
      WaitsReaches(f, nodes, s, e, y);
    }
  }

  // ---------------------------------------------------------------------------
  // All orders agree

  predicate Ends(f: Frame, g: Graph, schedule: seq<nat>) {
    Run(f, g, schedule).Some? && Finished(Run(f, g, schedule).value)
  }

  lemma {:induction false} RunPrefix(f: Frame, g: Graph, schedule: seq<nat>, full: seq<nat>)
    requires schedule <= full && Run(f, g, full).Some? && !Run(f, g, full).value.failed
    ensures Run(f, g, schedule).Some? && !Run(f, g, schedule).value.failed
    ensures Run(f, g, schedule).value.done <= Run(f, g, full).value.done
    decreases |full|
  {
    if schedule != full {
      var prefix := full[..|full| - 1];
      assert schedule <= prefix;
      RunPrefix(f, g, schedule, prefix);
      DoneGrows(f, g, Run(f, g, prefix).value, full[|full| - 1]);
    }
  }

  /** The run is past saving: a `select` could start too early, or its precondition `k` came before its candidate `e`. */
  ghost predicate Doomed(f: Frame, g: Graph, st: Sched, k: nat, e: nat) {
    st.failed || !PatientOrder(g.nodes, Statuses(f, g.nodes), st.done) || (k in st.done && e !in st.done)
  }

  lemma {:induction false} DoomedFails(f: Frame, g: Graph, t: nat, e: nat, schedule: seq<nat>, full: seq<nat>)
    requires WellFormed(g.nodes) && Conflict(g.nodes, Statuses(f, g.nodes), t) && g.nodes[t].pre.Some?
    requires e in g.nodes[t].inEdges && At(Statuses(f, g.nodes), e).Done?
    requires schedule <= full && Run(f, g, schedule).Some? && Ends(f, g, full)
    requires Doomed(f, g, Run(f, g, schedule).value, g.nodes[t].pre.value, e)
    ensures Run(f, g, full).value.failed
  {
    if Succeeds(f, g, full) {
      RunPrefix(f, g, schedule, full);
      SuccessIsPatient(f, g, full);
      SuccessfulRunsAgree(f, g, full);
      NotDoomed(f, g, t, e, Run(f, g, schedule).value, Run(f, g, full).value);
    }
  }

  lemma {:induction false} NotDoomed(f: Frame, g: Graph, t: nat, e: nat, st: Sched, last: Sched)
    requires Conflict(g.nodes, Statuses(f, g.nodes), t) && g.nodes[t].pre.Some?
    requires e in g.nodes[t].inEdges && At(Statuses(f, g.nodes), e).Done? && !st.failed && st.done <= last.done
    requires PatientOrder(g.nodes, Statuses(f, g.nodes), last.done)
    requires CandidatesFirst(g.nodes, Statuses(f, g.nodes), last.done)
    ensures !Doomed(f, g, st, g.nodes[t].pre.value, e)
  {
    var (s, k) := (Statuses(f, g.nodes), g.nodes[t].pre.value);
    forall n | 0 <= n <= |st.done| ensures Patient(g.nodes, s, Members(st.done[..n])) {
      assert last.done[..n] == st.done[..n];
    }
    if k in st.done {
      var m :| 0 <= m < |st.done| && st.done[m] == k;
      assert last.done[m] == k && last.done[..m] == st.done[..m];
      assert e in Members(last.done[..m]);
    }
  }

  /** Some pending node is one that `x` waits for. */
  lemma {:induction false} PendingAncestor(f: Frame, g: Graph, s: seq<Status>, st: Sched, x: nat) returns (i: nat)
    requires WellFormed(g.nodes) && Solves(f, g.nodes, s) && Inv(g, s, st) && x < |s| && s[x].Done? && x !in st.done
    ensures i < |st.futures| && Waits(g.nodes, s, x, st.futures[i].node)
    decreases x
  {
    var d := Members(st.done);
    if forall e: nat :: IsSource(g.nodes[x], e) && At(s, e).Done? ==> e in d {
      ReadyOnSources(f, g.nodes, s, d, x);
      assert Pending(st.futures, x);
      i :| 0 <= i < |st.futures| && st.futures[i].node == x;
    } else {
      var e: nat :| IsSource(g.nodes[x], e) && At(s, e).Done? && e !in d;
      assert e < x by { assert e in g.nodes[x].inEdges || g.nodes[x].pre == Some(e); }
      i := PendingAncestor(f, g, s, st, e);
    }
  }

  /** Completing only what `k` waits for leaves `e` behind. */
  lemma {:induction false} LeaveBehind(f: Frame, g: Graph, schedule: seq<nat>, k: nat, e: nat) returns (next: seq<nat>)
    requires WellFormed(g.nodes) && Run(f, g, schedule).Some? && !Run(f, g, schedule).value.failed
    requires PatientOrder(g.nodes, Statuses(f, g.nodes), Run(f, g, schedule).value.done)
    requires At(Statuses(f, g.nodes), k).Done? && e !in Run(f, g, schedule).value.done
    requires !Waits(g.nodes, Statuses(f, g.nodes), k, e)
    ensures Run(f, g, next).Some? && Doomed(f, g, Run(f, g, next).value, k, e)
    decreases |g.nodes| + 1 - |schedule|
  {
    var (s, st) := (Statuses(f, g.nodes), Run(f, g, schedule).value);
    EveryRunIsBounded(f, g, schedule);
    if k in st.done {
      next := schedule;
    } else {
      PatientRunInv(f, g, schedule);
      StatusesSolve(f, g.nodes);
      var i := PendingAncestor(f, g, s, st, k);
      next := schedule + [i];
      assert next[..|schedule|] == schedule;
      var st' := Complete(f, g, st, i);
      if !Doomed(f, g, st', k, e) {
        DoneGrows(f, g, st, i);
        next := LeaveBehind(f, g, next, k, e);
      }
    }
  }

  /** A `select` that does not wait for one of its candidates gives a completion order that fails. */
  lemma {:induction false} FailingOrder(f: Frame, g: Graph, t: nat, e: nat) returns (full: seq<nat>)
    requires WellFormed(g.nodes) && Conflict(g.nodes, Statuses(f, g.nodes), t)
    requires e in g.nodes[t].inEdges && At(Statuses(f, g.nodes), e).Done?
    requires g.nodes[t].pre.Some? ==> !Waits(g.nodes, Statuses(f, g.nodes), g.nodes[t].pre.value, e)
    ensures Ends(f, g, full) && Run(f, g, full).value.failed
  {
    var s := Statuses(f, g.nodes);
    if g.nodes[t].pre.None? {
      full := FinishRun(f, g, []);
      EveryOrderFails(f, g, full, t);
    } else {
      var none: seq<nat> := [];
      NothingReady(g.nodes, s);
      var next := LeaveBehind(f, g, none, g.nodes[t].pre.value, e);
      full := FinishRun(f, g, next);
      DoomedFails(f, g, t, e, next, full);
    }
  }

  /** At the start no `select` is ready. */
  lemma {:induction false} NothingReady(nodes: seq<GraphNode>, s: seq<Status>)
    ensures PatientOrder(nodes, s, [])
  {
    assert Members([]) == {};
  }

  /**
   Every completion order has the outcome of in-order evaluation if and only if that fails, or the precondition of every
   conflicting `select` waits for all its candidates.
   */
  lemma {:induction false} OrderIndependentIff(f: Frame, g: Graph)
    requires WellFormed(g.nodes)
    ensures (forall schedule :: Ends(f, g, schedule) ==> RunOutcome(Run(f, g, schedule).value) == GraphOutcome(f, g)) <==>
            GraphFails(g.nodes, Statuses(f, g.nodes)) || Orderly(g.nodes, Statuses(f, g.nodes))
  {
    var s := Statuses(f, g.nodes);
    if GraphFails(g.nodes, s) || Orderly(g.nodes, s) {
      forall schedule | Ends(f, g, schedule) ensures RunOutcome(Run(f, g, schedule).value) == GraphOutcome(f, g) {
        if GraphFails(g.nodes, s) { FailsInOrder(f, g, schedule); } else { AnyScheduleRefinesInOrder(f, g, schedule); }
      }
    } else {
      var full := SomeOrderFails(f, g);
      assert RunOutcome(Run(f, g, full).value) != GraphOutcome(f, g);
    }
  }

  lemma {:induction false} FailsInOrder(f: Frame, g: Graph, schedule: seq<nat>)
    requires WellFormed(g.nodes) && GraphFails(g.nodes, Statuses(f, g.nodes)) && Ends(f, g, schedule)
    ensures Run(f, g, schedule).value.failed
  {
    if Succeeds(f, g, schedule) { SuccessfulRunsAgree(f, g, schedule); }
  }

  lemma {:induction false} SomeOrderFails(f: Frame, g: Graph) returns (full: seq<nat>)
    requires WellFormed(g.nodes) && !Orderly(g.nodes, Statuses(f, g.nodes))
    ensures Ends(f, g, full) && Run(f, g, full).value.failed
  {
    var s := Statuses(f, g.nodes);
    var t :| 0 <= t < |g.nodes| && Conflict(g.nodes, s, t) &&
      !(forall e <- g.nodes[t].inEdges :: At(s, e).Done? ==> g.nodes[t].pre.Some? && Waits(g.nodes, s, g.nodes[t].pre.value, e));
    var e :| e in g.nodes[t].inEdges && At(s, e).Done? &&
      !(g.nodes[t].pre.Some? && Waits(g.nodes, s, g.nodes[t].pre.value, e));
    full := FailingOrder(f, g, t, e);
  }

  /** Two completion orders have different outcomes if and only if one of them succeeds and not all do. */
  lemma {:induction false} OrdersDisagreeIff(f: Frame, g: Graph)
    requires WellFormed(g.nodes)
    ensures (exists one, other :: Ends(f, g, one) && Ends(f, g, other) &&
               RunOutcome(Run(f, g, one).value) != RunOutcome(Run(f, g, other).value)) <==>
            !GraphFails(g.nodes, Statuses(f, g.nodes)) && !Orderly(g.nodes, Statuses(f, g.nodes)) &&
            exists rank :: Ranked(g.nodes, Statuses(f, g.nodes), rank)
  {
    var s := Statuses(f, g.nodes);
    SomeOrderSucceedsIff(f, g);
    if one, other :| Ends(f, g, one) && Ends(f, g, other) &&
                     RunOutcome(Run(f, g, one).value) != RunOutcome(Run(f, g, other).value) {
      OneSucceeds(f, g, one, other);
      OrderIndependentIff(f, g);
    }
    if !GraphFails(g.nodes, s) && !Orderly(g.nodes, s) && exists rank :: Ranked(g.nodes, s, rank) {
      var one :| Succeeds(f, g, one);
      var other := SomeOrderFails(f, g);
      assert Ends(f, g, one) && RunOutcome(Run(f, g, one).value) != RunOutcome(Run(f, g, other).value);
    }
  }

  lemma {:induction false} OneSucceeds(f: Frame, g: Graph, one: seq<nat>, other: seq<nat>)
    requires WellFormed(g.nodes) && Ends(f, g, one) && Ends(f, g, other)
    requires RunOutcome(Run(f, g, one).value) != RunOutcome(Run(f, g, other).value)
    ensures exists schedule :: Succeeds(f, g, schedule)
  {
    assert Succeeds(f, g, one) || Succeeds(f, g, other);
  }
}
