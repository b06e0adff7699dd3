/**
 Why the executor needs distinct sources: a plain node is started once for every
 fire item of the source that makes it ready, the second time without parameters.
 */
module RepeatedSources {
  import opened Wrappers
  import opened Dataflow
  import opened Scheduler
  import opened Confluence

  /** How often `src` occurs among the in-edges and the precondition of a node. */
  function Occurrences(n: GraphNode, src: nat): nat {
    multiset(n.inEdges)[src] + (if n.pre == Some(src) then 1 else 0)
  }

  function ItemCount(items: seq<FireItem>, t: nat): nat {
    if items == [] then 0 else (if items[0].target == t then 1 else 0) + ItemCount(items[1..], t)
  }

  function FutureCount(fs: seq<Future>, t: nat): nat {
    if fs == [] then 0 else (if fs[0].node == t then 1 else 0) + FutureCount(fs[1..], t)
  }

  lemma {:induction false} ItemCountAppend(a: seq<FireItem>, b: seq<FireItem>, t: nat)
    ensures ItemCount(a + b, t) == ItemCount(a, t) + ItemCount(b, t)
  {
    if a == [] {
      assert a + b == b;
    } else {
      ItemCountAppend(a[1..], b, t);
      assert (a + b)[1..] == a[1..] + b;
    }
  }

  lemma {:induction false} FutureCountSnoc(fs: seq<Future>, fu: Future, t: nat)
    ensures FutureCount(fs + [fu], t) == FutureCount(fs, t) + if fu.node == t then 1 else 0
  {
    if fs != [] {
      FutureCountSnoc(fs[1..], fu, t);
      assert (fs + [fu])[1..] == fs[1..] + [fu];
    }
  }

  lemma {:induction false} ParamItemCount(edges: seq<nat>, target: nat, src: nat, k: nat, t: nat)
    requires k <= |edges|
    ensures ItemCount(ParamItems(edges, target, src, k), t) == if t == target then multiset(edges[..k])[src] else 0
  {
    if k > 0 {
      ParamItemCount(edges, target, src, k - 1, t);
      OccurrencesStep(edges, src, k);
      var last := if edges[k - 1] == src then [FireItem(target, ParamDep(k - 1))] else [];
      assert ParamItems(edges, target, src, k) == ParamItems(edges, target, src, k - 1) + last;
      MaybeItemCount(ParamItems(edges, target, src, k - 1), FireItem(target, ParamDep(k - 1)), edges[k - 1] == src, t);
    }
  }

  lemma {:induction false} OccurrencesStep(edges: seq<nat>, src: nat, k: nat)
    requires 0 < k <= |edges|
    ensures multiset(edges[..k])[src] == multiset(edges[..k - 1])[src] + if edges[k - 1] == src then 1 else 0
  {
    assert edges[..k] == edges[..k - 1] + [edges[k - 1]];
  }

  lemma {:induction false} MaybeItemCount(items: seq<FireItem>, item: FireItem, present: bool, t: nat)
    ensures ItemCount(items + (if present then [item] else []), t)
         == ItemCount(items, t) + if present && item.target == t then 1 else 0
  {
    ItemCountAppend(items, if present then [item] else [], t);
    assert [item][1..] == [];
  }

  lemma {:induction false} NodeItemCount(n: GraphNode, target: nat, src: nat, t: nat)
    ensures ItemCount(NodeItems(n, target, src), t) == if t == target then Occurrences(n, src) else 0
  {
    var items := ParamItems(n.inEdges, target, src, |n.inEdges|);
    ParamItemCount(n.inEdges, target, src, |n.inEdges|, t);
    assert n.inEdges[..|n.inEdges|] == n.inEdges;
    MaybeItemCount(items, FireItem(target, Precondition), n.pre == Some(src), t);
  }

  lemma {:induction false} RowCountStep(nodes: seq<GraphNode>, src: nat, k: nat, t: nat)
    requires 0 < k <= |nodes|
    ensures ItemCount(Row(nodes, src, k), t)
         == ItemCount(Row(nodes, src, k - 1), t) + if t == k - 1 then Occurrences(nodes[k - 1], src) else 0
  {
    NodeItemCount(nodes[k - 1], k - 1, src, t);
    ItemCountAppend(Row(nodes, src, k - 1), NodeItems(nodes[k - 1], k - 1, src), t);
  }

  /** The row of a source holds one item per occurrence. */
  lemma {:induction false} RowCount(nodes: seq<GraphNode>, src: nat, k: nat, t: nat)
    requires k <= |nodes|
    ensures ItemCount(Row(nodes, src, k), t) == if t < k then Occurrences(nodes[t], src) else 0
  {
    if t >= k {
      NotYetInRow(nodes, src, k, t);
    } else {
      RowCountStep(nodes, src, k, t);
      if t == k - 1 {
        NotYetInRow(nodes, src, k - 1, t);
      } else {
        RowCount(nodes, src, k - 1, t);
      }
    }
  }

  lemma {:induction false} NotYetInRow(nodes: seq<GraphNode>, src: nat, k: nat, t: nat)
    requires k <= |nodes| && k <= t
    ensures ItemCount(Row(nodes, src, k), t) == 0
  {
    if k > 0 {
      NotYetInRow(nodes, src, k - 1, t);
      RowCountStep(nodes, src, k, t);
    }
  }

  /** The executor's test for starting a plain node. */
  predicate Startable(b: Board, t: nat) {
    t < |b.deps| && t < |b.pre| && b.pre[t] && forall p :: 0 <= p < |b.deps[t]| ==> b.deps[t][p].Some?
  }

  lemma {:induction false} StartCount(f: Frame, nodes: seq<GraphNode>, b: Board, fs: seq<Future>, items: seq<FireItem>,
                                      t: nat)
    requires t < |nodes| && t < |b.deps| && t < |b.pre| && !nodes[t].op.Select?
    requires FireAll(f, nodes, b, fs, items).Some?
    ensures FutureCount(FireAll(f, nodes, b, fs, items).value.1, t)
         == FutureCount(fs, t) + if Startable(b, t) then ItemCount(items, t) else 0
    decreases items
  {
    if items != [] {
      var u := items[0].target;
      var (b', fs') := FireOne(f, nodes, b, fs, items[0]).value;
      assert fs' == fs || exists fu :: fs' == fs + [fu] && fu.node == u;
      if fs' != fs {
        var fu :| fs' == fs + [fu] && fu.node == u;
        FutureCountSnoc(fs, fu, t);
      }
      assert u == t ==> (fs' != fs <==> Startable(b, t));
      if u == t && Startable(b, t) {
        assert b'.deps[t] == [] && Startable(b', t);
      } else {
        assert b'.deps[t] == b.deps[t] && b'.pre[t] == b.pre[t];
      }
      StartCount(f, nodes, b', fs', items[1..], t);
    }
  }

  /**
   A plain node that has everything it needs when `src` has been delivered, and was not pending, is
   started exactly once iff `src` occurs exactly once among its in-edges and precondition.
   */
  lemma {:induction false} StartedOnceIffSourceOnce(f: Frame, nodes: seq<GraphNode>, b: Board, fs: seq<Future>,
                                                    src: nat, t: nat)
    requires t < |nodes| && !nodes[t].op.Select? && Startable(b, t) && FutureCount(fs, t) == 0
    requires FireAll(f, nodes, b, fs, Row(nodes, src, |nodes|)).Some?
    ensures var fs' := FireAll(f, nodes, b, fs, Row(nodes, src, |nodes|)).value.1;
      FutureCount(fs', t) == Occurrences(nodes[t], src) &&
      (FutureCount(fs', t) == 1 <==> Occurrences(nodes[t], src) == 1)
  {
    RowCount(nodes, src, |nodes|, t);
    StartCount(f, nodes, b, fs, Row(nodes, src, |nodes|), t);
  }

  lemma {:induction false} SelectStartCount(f: Frame, nodes: seq<GraphNode>, b: Board, fs: seq<Future>, items: seq<FireItem>,
                                            t: nat)
    requires t < |nodes| && t < |b.deps| && t < |b.pre| && nodes[t].op.Select? && b.pre[t]
    requires b.deps[t] == [] || FirstSome(b.deps[t]).Some?
    requires FireAll(f, nodes, b, fs, items).Some?
    ensures FutureCount(FireAll(f, nodes, b, fs, items).value.1, t) == FutureCount(fs, t) + ItemCount(items, t)
    ensures ItemCount(items, t) <= if b.deps[t] == [] then 0 else 1
    decreases items
  {
    if items != [] {
      var u := items[0].target;
      var (b', fs') := FireOne(f, nodes, b, fs, items[0]).value;
      assert fs' == fs || exists fu :: fs' == fs + [fu] && fu.node == u;
      if fs' != fs {
        var fu :| fs' == fs + [fu] && fu.node == u;
        FutureCountSnoc(fs, fu, t);
      }
      assert if u == t then b.deps[t] != [] && fs' != fs && b'.deps[t] == [] && b'.pre[t]
             else b'.deps[t] == b.deps[t] && b'.pre[t] == b.pre[t];
      SelectStartCount(f, nodes, b', fs', items[1..], t);
    }
  }

  /** A `select` that has a value when `src` has been delivered fails the run unless `src` occurs at most once in it. */
  lemma {:induction false} SelectNamesSourceOnce(f: Frame, nodes: seq<GraphNode>, b: Board, fs: seq<Future>, src: nat, t: nat)
    requires t < |nodes| && t < |b.deps| && t < |b.pre| && nodes[t].op.Select? && b.pre[t]
    requires FirstSome(b.deps[t]).Some? && FutureCount(fs, t) == 0
    ensures var r := FireAll(f, nodes, b, fs, Row(nodes, src, |nodes|));
      r.Some? ==> Occurrences(nodes[t], src) <= 1 && FutureCount(r.value.1, t) == Occurrences(nodes[t], src)
  {
    RowCount(nodes, src, |nodes|, t);
    if FireAll(f, nodes, b, fs, Row(nodes, src, |nodes|)).Some? {
      SelectStartCount(f, nodes, b, fs, Row(nodes, src, |nodes|), t);
    }
  }

  // ---------------------------------------------------------------------------
  // Runs in which a repeated source arrives last

  lemma {:induction false} FireAllKeeps(f: Frame, nodes: seq<GraphNode>, b: Board, fs: seq<Future>, items: seq<FireItem>,
                                        fu: Future)
    requires FireAll(f, nodes, b, fs, items).Some? && fu in fs
    ensures fu in FireAll(f, nodes, b, fs, items).value.1
    decreases items
  {
    if items != [] {
      var (b', fs') := FireOne(f, nodes, b, fs, items[0]).value;
      FireAllKeeps(f, nodes, b', fs', items[1..], fu);
    }
  }

  /** A plain node whose parameters are gone is started without any. */
  lemma {:induction false} StartedEmpty(f: Frame, nodes: seq<GraphNode>, b: Board, fs: seq<Future>, items: seq<FireItem>, t: nat)
    requires t < |nodes| && !nodes[t].op.Select? && Startable(b, t) && b.deps[t] == [] && ItemCount(items, t) > 0
    requires FireAll(f, nodes, b, fs, items).Some?
    ensures Future(t, RunNode(f, nodes[t], [])) in FireAll(f, nodes, b, fs, items).value.1
    decreases items
  {
    var (b', fs') := FireOne(f, nodes, b, fs, items[0]).value;
    if items[0].target == t {
      FireAllKeeps(f, nodes, b', fs', items[1..], Future(t, RunNode(f, nodes[t], [])));
    } else {
      assert b'.deps[t] == b.deps[t] && b'.pre[t] == b.pre[t];
      StartedEmpty(f, nodes, b', fs', items[1..], t);
    }
  }

  lemma {:induction false} StartedAgain(f: Frame, nodes: seq<GraphNode>, b: Board, fs: seq<Future>, items: seq<FireItem>, t: nat)
    requires t < |nodes| && !nodes[t].op.Select? && Startable(b, t) && ItemCount(items, t) > 1
    requires FireAll(f, nodes, b, fs, items).Some?
    ensures Future(t, RunNode(f, nodes[t], [])) in FireAll(f, nodes, b, fs, items).value.1
    decreases items
  {
    var (b', fs') := FireOne(f, nodes, b, fs, items[0]).value;
    if items[0].target == t {
      assert b'.deps[t] == [] && b'.pre[t];
      StartedEmpty(f, nodes, b', fs', items[1..], t);
    } else {
      assert b'.deps[t] == b.deps[t] && b'.pre[t] == b.pre[t];
      StartedAgain(f, nodes, b', fs', items[1..], t);
    }
  }

  /** Once a failure is pending, a run cannot end without it. */
  lemma {:induction false} FailureStays(f: Frame, g: Graph, st: Sched, i: nat, t: nat)
    requires i < |st.futures| && Future(t, Fail) in st.futures && !Complete(f, g, st, i).failed
    ensures Future(t, Fail) in Complete(f, g, st, i).futures
  {
    var (fu, rest) := (st.futures[i], st.futures[..i] + st.futures[i + 1..]);
    var items := Row(g.nodes, fu.node, |g.nodes|);
    var j :| 0 <= j < |st.futures| && st.futures[j] == Future(t, Fail);
    assert rest[if j < i then j else j - 1] == st.futures[j];
    FireAllKeeps(f, g.nodes, Deliver(st.board, items, fu.outcome.value).value, rest, items, Future(t, Fail));
  }

  lemma {:induction false} FailureStaysOn(f: Frame, g: Graph, schedule: seq<nat>, n: nat, t: nat)
    requires n <= |schedule| && Run(f, g, schedule).Some? && Run(f, g, schedule[..n]).Some?
    requires Run(f, g, schedule[..n]).value.failed || Future(t, Fail) in Run(f, g, schedule[..n]).value.futures
    ensures Run(f, g, schedule).value.failed || Future(t, Fail) in Run(f, g, schedule).value.futures
    decreases |schedule|
  {
    if n == |schedule| {
      assert schedule[..n] == schedule;
    } else {
      var prefix := schedule[..|schedule| - 1];
      assert prefix[..n] == schedule[..n];
      FailureStaysOn(f, g, prefix, n, t);
      if !Run(f, g, schedule).value.failed {
        FailureStays(f, g, Run(f, g, prefix).value, schedule[|schedule| - 1], t);
      }
    }
  }

  /** After the next completion, if its value can be delivered, node `t` has everything it needs. */
  predicate ArrivesLast(g: Graph, st: Sched, i: nat, t: nat) {
    i < |st.futures| && st.futures[i].outcome.Ok? &&
    var b := Deliver(st.board, Row(g.nodes, st.futures[i].node, |g.nodes|), st.futures[i].outcome.value);
    b.Some? ==> Startable(b.value, t)
  }

  /**
   A plain node that names a source twice and whose operator fails without parameters: every finished run in which that
   source arrives last has failed.
   */
  lemma {:induction false} RepeatedSourceFails(f: Frame, g: Graph, schedule: seq<nat>, n: nat, t: nat)
    requires t < |g.nodes| && !g.nodes[t].op.Select? && RunNode(f, g.nodes[t], []) == Fail
    requires n < |schedule| && Run(f, g, schedule).Some? && Finished(Run(f, g, schedule).value)
    requires Run(f, g, schedule[..n]).Some? && ArrivesLast(g, Run(f, g, schedule[..n]).value, schedule[n], t)
    requires Occurrences(g.nodes[t], Run(f, g, schedule[..n]).value.futures[schedule[n]].node) > 1
    ensures Run(f, g, schedule).value.failed
  {
    var (st, i) := (Run(f, g, schedule[..n]).value, schedule[n]);
    var items := Row(g.nodes, st.futures[i].node, |g.nodes|);
    assert schedule[..n + 1][..n] == schedule[..n];
    RunSome(f, g, schedule, n + 1);
    RowCount(g.nodes, st.futures[i].node, |g.nodes|, t);
    if !Complete(f, g, st, i).failed {
      StartedAgain(f, g.nodes, Deliver(st.board, items, st.futures[i].outcome.value).value,
                   st.futures[..i] + st.futures[i + 1..], items, t);
    }
    FailureStaysOn(f, g, schedule, n + 1, t);
  }

  lemma {:induction false} RunSome(f: Frame, g: Graph, schedule: seq<nat>, n: nat)
    requires n <= |schedule| && Run(f, g, schedule).Some?
    ensures Run(f, g, schedule[..n]).Some?
    decreases |schedule|
  {
    if n == |schedule| {
      assert schedule[..n] == schedule;
    } else {
      var prefix := schedule[..|schedule| - 1];
      assert prefix[..n] == schedule[..n];
      RunSome(f, g, prefix, n);
    }
  }

  // ---------------------------------------------------------------------------
  // A query that compares a value with itself

  /** `x == x`, with operands read as `params[0]` and `params[1]`. */
  function Eq(code: int, ps: seq<Value>): Outcome {
    if |ps| == 2 then Ok(Some(Bool(ps[0] == ps[1]))) else Fail
  }

  const SelfEq := Graph([GraphNode(LoadParam(0), [], None, true), GraphNode(Prim(0, true), [0, 0], None, true)], Some(1))

  function SelfEqFrame(x: Value): Frame {
    Frame([SelfEq], Eq, [x], 1)
  }

  lemma {:induction false} SelfEqStatuses(x: Value)
    requires !x.Null?
    ensures Statuses(SelfEqFrame(x), SelfEq.nodes) == [Done(Some(x)), Done(Some(Bool(true)))]
  {
    var (f, nodes) := (SelfEqFrame(x), SelfEq.nodes);
    assert nodes[..1] == [nodes[0]] && nodes == [nodes[0]] + [nodes[1]];
    StatusesSnoc(f, [], nodes[0]);
    assert [] + [nodes[0]] == [nodes[0]];
    StatusesSnoc(f, [nodes[0]], nodes[1]);
    var s := [Done(Some(x))];
    assert AllFired(s, [0, 0]);
    assert Params(s, [0, 0]) == [x, x];
  }

  lemma {:induction false} SelfEqRow()
    ensures Row(SelfEq.nodes, 0, 2) == [FireItem(1, ParamDep(0)), FireItem(1, ParamDep(1))]
  {
    var nodes := SelfEq.nodes;
    assert Row(nodes, 0, 1) == Row(nodes, 0, 0) + NodeItems(nodes[0], 0, 0);
    assert NodeItems(nodes[0], 0, 0) == [];
    assert ParamItems([0, 0], 1, 0, 1) == ParamItems([0, 0], 1, 0, 0) + [FireItem(1, ParamDep(0))];
    assert ParamItems([0, 0], 1, 0, 2) == ParamItems([0, 0], 1, 0, 1) + [FireItem(1, ParamDep(1))];
    assert NodeItems(nodes[1], 1, 0) == ParamItems([0, 0], 1, 0, 2);
  }

  /** Both copies of the source's value are delivered. */
  lemma {:induction false} SelfEqDeliver(x: Value)
    requires !x.Null?
    ensures Deliver(Init(SelfEqFrame(x), SelfEq).board, Row(SelfEq.nodes, 0, 2), Some(x)) ==
            Some(Board([[], [Some(x), Some(x)]], [true, true]))
  {
    SelfEqRow();
    SelfEqStart(x);
    var board := Init(SelfEqFrame(x), SelfEq).board;
    var items := Row(SelfEq.nodes, 0, 2);
    var none: Option<Value> := None;
    assert [none, none][0 := Some(x)] == [Some(x), none] && [Some(x), none][1 := Some(x)] == [Some(x), Some(x)];
    assert board.deps[1 := [Some(x), none]] == [[], [Some(x), none]];
    assert [[], [Some(x), none]][1 := [Some(x), Some(x)]] == [[], [Some(x), Some(x)]];
    var b1 := Board([[], [Some(x), None]], [true, true]);
    var b2 := Board([[], [Some(x), Some(x)]], [true, true]);
    assert DeliverOne(board, items[0], Some(x)) == Some(b1);
    assert DeliverOne(b1, items[1], Some(x)) == Some(b2);
    assert items[1..] == [items[1]] && items[1..][1..] == [];
    assert Deliver(b2, [], Some(x)) == Some(b2);
    assert Deliver(b1, [items[1]], Some(x)) == Some(b2);
    assert Deliver(board, items, Some(x)) == Some(b2);
  }

  /** In order the comparison is true; the executor starts it twice, and the second start fails the run. */
  lemma {:induction false} SelfComparisonFails(x: Value)
    requires !x.Null?
    ensures GraphOutcome(SelfEqFrame(x), SelfEq) == Ok(Some(Bool(true)))
    ensures Run(SelfEqFrame(x), SelfEq, [0]).Some?
    ensures Run(SelfEqFrame(x), SelfEq, [0]).value.futures == [Future(1, Ok(Some(Bool(true)))), Future(1, Fail)]
    ensures Run(SelfEqFrame(x), SelfEq, [0, 1]).Some? && Run(SelfEqFrame(x), SelfEq, [0, 1]).value.failed
  {
    var (f, g) := (SelfEqFrame(x), SelfEq);
    SelfEqStatuses(x);
    SelfEqRow();
    var s := Statuses(f, g.nodes);
    assert !GraphFails(g.nodes, s);
    var start := Init(f, g);
    SelfEqStart(x);
    var items := Row(g.nodes, 0, 2);
    var b2 := Board([[], [Some(x), Some(x)]], [true, true]);
    SelfEqDeliver(x);
    SelfEqFire(x, b2, items);
    assert Run(f, g, [0][..0]) == Some(start) && [0][..0] == [];
    assert start.futures[..0] + start.futures[1..] == [];
    assert [0, 1][..1] == [0];
  }

  lemma {:induction false} SelfEqStart(x: Value)
    ensures Init(SelfEqFrame(x), SelfEq) ==
            Sched(Board([[], [None, None]], [true, true]), [Future(0, Ok(Some(x)))], None, [], false)
  {
    var (f, nodes) := (SelfEqFrame(x), SelfEq.nodes);
    var b := InitialBoard(nodes);
    assert b.deps[0] == [] && b.deps[1] == [None, None];
    assert b.deps == [b.deps[0], b.deps[1]] && b.pre == [b.pre[0], b.pre[1]];
    assert InitialFutures(f, nodes, 1) == InitialFutures(f, nodes, 0) + [Future(0, Ok(Some(x)))];
    assert InitialFutures(f, nodes, 2) == InitialFutures(f, nodes, 1) + [];
  }

  lemma {:induction false} SelfEqFire(x: Value, b: Board, items: seq<FireItem>)
    requires !x.Null? && b == Board([[], [Some(x), Some(x)]], [true, true])
    requires items == [FireItem(1, ParamDep(0)), FireItem(1, ParamDep(1))]
    ensures FireAll(SelfEqFrame(x), SelfEq.nodes, b, [], items) ==
            Some((Board([[], []], [true, true]), [Future(1, Ok(Some(Bool(true)))), Future(1, Fail)]))
  {
    var (f, nodes) := (SelfEqFrame(x), SelfEq.nodes);
    assert Unwrap([Some(x), Some(x)]) == [x, x];
    var b' := Board([[], []], [true, true]);
    assert b.deps[1] == [Some(x), Some(x)] && b.deps[1 := []] == b'.deps && b'.deps[1 := []] == b'.deps;
    assert Unwrap(b'.deps[1]) == [];
    assert Null !in [x, x] && RunNode(f, nodes[1], [x, x]) == Ok(Some(Bool(true)));
    var one := [Future(1, Ok(Some(Bool(true))))];
    assert forall p :: 0 <= p < |b.deps[1]| ==> b.deps[1][p].Some?;
    assert Unwrap(b.deps[1]) == [x, x] && [] + one == one && b.(deps := b.deps[1 := []]) == b';
    assert FireOne(f, nodes, b, [], items[0]) == Some((b', one));
    assert FireOne(f, nodes, b', one, items[1]) == Some((b', one + [Future(1, Fail)]));
    var two := one + [Future(1, Fail)];
    assert FireAll(f, nodes, b', two, []) == Some((b', two));
    assert FireAll(f, nodes, b', one, [items[1]]) == Some((b', two));
    assert items != [] && items[1..] == [items[1]] && two == [Future(1, Ok(Some(Bool(true)))), Future(1, Fail)];
    assert FireAll(f, nodes, b, [], items) == Some((b', two));
  }
}
