/**
 A run of a graph, seen on the first nodes of the graph or on one of its nodes.
 */
module RunParts {
  import opened Wrappers
  import opened Dataflow
  import opened Scheduler

  // ---------------------------------------------------------------------------
  // A run of a graph is a run of each of its first parts

  function KeepItems(items: seq<FireItem>, t: nat): seq<FireItem> {
    if items == [] then []
    else (if items[0].target < t then [items[0]] else []) + KeepItems(items[1..], t)
  }

  function KeepFutures(fs: seq<Future>, t: nat): seq<Future> {
    if fs == [] then [] else (if fs[0].node < t then [fs[0]] else []) + KeepFutures(fs[1..], t)
  }

  function KeepDone(done: seq<nat>, t: nat): seq<nat> {
    if done == [] then [] else (if done[0] < t then [done[0]] else []) + KeepDone(done[1..], t)
  }

  function Cut(b: Board, t: nat): Board
    requires t <= |b.deps| && t <= |b.pre|
  {
    Board(b.deps[..t], b.pre[..t])
  }

  /** What a state says about the first `t` nodes. */
  function CutState(st: Sched, t: nat): Sched
    requires t <= |st.board.deps| && t <= |st.board.pre|
  {
    Sched(Cut(st.board, t), KeepFutures(st.futures, t), None, KeepDone(st.done, t), st.failed)
  }

  lemma {:induction false} KeepItemsAppend(a: seq<FireItem>, b: seq<FireItem>, t: nat)
    ensures KeepItems(a + b, t) == KeepItems(a, t) + KeepItems(b, t)
  {
    if a == [] {
      assert a + b == b;
    } else {
      assert (a + b)[1..] == a[1..] + b;
      KeepItemsAppend(a[1..], b, t);
    }
  }

  lemma {:induction false} KeepItemsOne(items: seq<FireItem>, target: nat, t: nat)
    requires forall i <- items :: i.target == target
    ensures KeepItems(items, t) == if target < t then items else []
  {
    if items != [] {
      assert items[0] in items && items == [items[0]] + items[1..];
      KeepItemsOne(items[1..], target, t);
    }
  }

  lemma {:induction false} KeepFuturesAppend(a: seq<Future>, b: seq<Future>, t: nat)
    ensures KeepFutures(a + b, t) == KeepFutures(a, t) + KeepFutures(b, t)
  {
    if a == [] {
      assert a + b == b;
    } else {
      assert (a + b)[1..] == a[1..] + b;
      KeepFuturesAppend(a[1..], b, t);
    }
  }

  lemma {:induction false} KeepDoneSnoc(done: seq<nat>, x: nat, t: nat)
    ensures KeepDone(done + [x], t) == KeepDone(done, t) + if x < t then [x] else []
  {
    if done == [] {
      assert done + [x] == [x] && [x][1..] == [];
    } else {
      assert (done + [x])[1..] == done[1..] + [x];
      KeepDoneSnoc(done[1..], x, t);
    }
  }

  lemma {:induction false} KeepDoneMembers(done: seq<nat>, t: nat, x: nat)
    ensures x in KeepDone(done, t) <==> x in done && x < t
  {
    if done != [] {
      KeepDoneMembers(done[1..], t, x);
      assert done == [done[0]] + done[1..];
    }
  }

  lemma {:induction false} RowCut(nodes: seq<GraphNode>, src: nat, k: nat, t: nat)
    requires t <= |nodes| && k <= |nodes|
    ensures KeepItems(Row(nodes, src, k), t) == Row(nodes[..t], src, if k < t then k else t)
    decreases k
  {
    if k > 0 {
      RowCut(nodes, src, k - 1, t);
      RowCutStep(nodes, src, k, t);
      if k <= t {
        assert nodes[..t][k - 1] == nodes[k - 1];
        RowUnfolds(nodes[..t], src, k);
      } else {
        assert KeepItems(Row(nodes, src, k - 1), t) + [] == KeepItems(Row(nodes, src, k - 1), t);
      }
    }
  }

  lemma {:induction false} RowUnfolds(nodes: seq<GraphNode>, src: nat, k: nat)
    requires 0 < k <= |nodes|
    ensures Row(nodes, src, k) == Row(nodes, src, k - 1) + NodeItems(nodes[k - 1], k - 1, src)
  {
  }

  lemma {:induction false} RowCutStep(nodes: seq<GraphNode>, src: nat, k: nat, t: nat)
    requires 0 < k <= |nodes|
    ensures KeepItems(Row(nodes, src, k), t) ==
            KeepItems(Row(nodes, src, k - 1), t) + if k <= t then NodeItems(nodes[k - 1], k - 1, src) else []
  {
    var items := NodeItems(nodes[k - 1], k - 1, src);
    KeepItemsAppend(Row(nodes, src, k - 1), items, t);
    assert forall i <- items :: i.target == k - 1 by { NodeItemsFacts(nodes[k - 1], k - 1, src); }
    KeepItemsOne(items, k - 1, t);
  }

  lemma {:induction false} DeliverCut(b: Board, items: seq<FireItem>, v: Option<Value>, t: nat)
    requires t <= |b.deps| && t <= |b.pre| && Deliver(b, items, v).Some?
    ensures var b' := Deliver(b, items, v).value;
      |b'.deps| == |b.deps| && |b'.pre| == |b.pre| && Deliver(Cut(b, t), KeepItems(items, t), v) == Some(Cut(b', t))
    decreases items
  {
    if items != [] {
      var b1 := DeliverOne(b, items[0], v).value;
      DeliverOneCut(b, items[0], v, t);
      DeliverCut(b1, items[1..], v, t);
      var rest := KeepItems(items[1..], t);
      if items[0].target < t {
        assert ([items[0]] + rest)[0] == items[0] && ([items[0]] + rest)[1..] == rest;
      } else {
        assert [] + rest == rest;
      }
    }
  }

  lemma {:induction false} DeliverOneCut(b: Board, item: FireItem, v: Option<Value>, t: nat)
    requires t <= |b.deps| && t <= |b.pre| && DeliverOne(b, item, v).Some?
    ensures var b' := DeliverOne(b, item, v).value;
      |b'.deps| == |b.deps| && |b'.pre| == |b.pre| &&
      if item.target < t then DeliverOne(Cut(b, t), item, v) == Some(Cut(b', t)) else Cut(b', t) == Cut(b, t)
  {
    var b' := DeliverOne(b, item, v).value;
    if item.target < t {
      if item.kind.ParamDep? {
        assert b'.deps[..t] == b.deps[..t][item.target := b'.deps[item.target]];
      } else {
        assert b'.pre[..t] == b.pre[..t][item.target := b'.pre[item.target]];
      }
    } else {
      assert b'.deps[..t] == b.deps[..t] && b'.pre[..t] == b.pre[..t];
    }
  }

  lemma {:induction false} FireCut(f: Frame, nodes: seq<GraphNode>, b: Board, fs: seq<Future>, items: seq<FireItem>, t: nat)
    requires t <= |b.deps| && t <= |b.pre| && t <= |nodes| && FireAll(f, nodes, b, fs, items).Some?
    ensures var (b', fs') := FireAll(f, nodes, b, fs, items).value;
      |b'.deps| == |b.deps| && |b'.pre| == |b.pre| &&
      FireAll(f, nodes[..t], Cut(b, t), KeepFutures(fs, t), KeepItems(items, t)) == Some((Cut(b', t), KeepFutures(fs', t)))
    decreases items
  {
    if items != [] {
      var (b1, fs1) := FireOne(f, nodes, b, fs, items[0]).value;
      FireOneCut(f, nodes, b, fs, items[0], t);
      FireCut(f, nodes, b1, fs1, items[1..], t);
      var rest := KeepItems(items[1..], t);
      if items[0].target < t {
        assert ([items[0]] + rest)[0] == items[0] && ([items[0]] + rest)[1..] == rest;
      } else {
        assert [] + rest == rest;
      }
    }
  }

  lemma {:induction false} FireOneCut(f: Frame, nodes: seq<GraphNode>, b: Board, fs: seq<Future>, item: FireItem, t: nat)
    requires t <= |b.deps| && t <= |b.pre| && t <= |nodes| && FireOne(f, nodes, b, fs, item).Some?
    ensures var (b', fs') := FireOne(f, nodes, b, fs, item).value;
      |b'.deps| == |b.deps| && |b'.pre| == |b.pre| &&
      if item.target < t
      then FireOne(f, nodes[..t], Cut(b, t), KeepFutures(fs, t), item) == Some((Cut(b', t), KeepFutures(fs', t)))
      else Cut(b', t) == Cut(b, t) && KeepFutures(fs', t) == KeepFutures(fs, t)
  {
    var (b', fs') := FireOne(f, nodes, b, fs, item).value;
    var x := item.target;
    if |fs'| > |fs| {
      var fu := fs'[|fs|];
      assert fs' == fs + [fu];
      KeepFuturesAppend(fs, [fu], t);
      assert [fu][1..] == [];
    }
    if x < t {
      var bt := Cut(b, t);
      assert nodes[..t][x] == nodes[x] && bt.deps[x] == b.deps[x] && bt.pre[x] == b.pre[x];
      assert x < |bt.deps| && x < |bt.pre| && x < |nodes[..t]|;
      if |fs'| > |fs| {
        assert bt.(deps := bt.deps[x := []]) == Cut(b', t);
        assert KeepFutures(fs', t) == KeepFutures(fs, t) + [fs'[|fs|]];
      }
      assert b'.deps[..t] == b.deps[..t][x := b'.deps[x]] && b'.pre == b.pre;
    } else {
      assert b'.deps[..t] == b.deps[..t] && b'.pre == b.pre;
    }
  }

  lemma {:induction false} InitialFuturesCut(f: Frame, nodes: seq<GraphNode>, k: nat, t: nat)
    requires t <= |nodes| && k <= |nodes|
    ensures KeepFutures(InitialFutures(f, nodes, k), t) == InitialFutures(f, nodes[..t], if k < t then k else t)
    decreases k
  {
    if k > 0 {
      var (init, last) := (InitialFutures(f, nodes, k - 1), Started(f, nodes[k - 1], k - 1));
      InitialFuturesCut(f, nodes, k - 1, t);
      InitialFuturesUnfold(f, nodes, k);
      KeepFuturesAppend(init, last, t);
      StartedKept(f, nodes[k - 1], k - 1, t);
      if k <= t {
        assert nodes[..t][k - 1] == nodes[k - 1];
        InitialFuturesUnfold(f, nodes[..t], k);
      } else {
        assert KeepFutures(init, t) + [] == KeepFutures(init, t);
      }
    }
  }

  /** What a node adds to the initial batch. */
  function Started(f: Frame, n: GraphNode, i: nat): seq<Future> {
    if StartsAtOnce(n) then [Future(i, RunNode(f, n, []))] else []
  }

  lemma {:induction false} InitialFuturesUnfold(f: Frame, nodes: seq<GraphNode>, k: nat)
    requires 0 < k <= |nodes|
    ensures InitialFutures(f, nodes, k) == InitialFutures(f, nodes, k - 1) + Started(f, nodes[k - 1], k - 1)
  {
  }

  lemma {:induction false} StartedKept(f: Frame, n: GraphNode, i: nat, t: nat)
    ensures KeepFutures(Started(f, n, i), t) == if i < t then Started(f, n, i) else []
  {
    var fs := Started(f, n, i);
    assert fs == [] || fs[1..] == [];
  }

  function Part(g: Graph, t: nat): Graph
    requires t <= |g.nodes|
  {
    Graph(g.nodes[..t], None)
  }

  lemma {:induction false} InitCut(f: Frame, g: Graph, t: nat)
    requires t <= |g.nodes|
    ensures CutState(Init(f, g), t) == Init(f, Part(g, t))
  {
    InitialFuturesCut(f, g.nodes, |g.nodes|, t);
    var (b, b') := (InitialBoard(g.nodes), InitialBoard(g.nodes[..t]));
    assert b.deps[..t] == b'.deps && b.pre[..t] == b'.pre;
  }

  /** A completion among the first `t` nodes is a completion in the part; any other does not show there. */
  lemma {:induction false} CompleteCut(f: Frame, g: Graph, st: Sched, i: nat, t: nat)
    requires Topological(g.nodes) && t <= |g.nodes| && i < |st.futures|
    requires |st.board.deps| == |st.board.pre| == |g.nodes| && !st.failed && !Complete(f, g, st, i).failed
    ensures var st' := Complete(f, g, st, i);
      |st'.board.deps| == |st'.board.pre| == |g.nodes| &&
      var j := |KeepFutures(st.futures[..i], t)|;
      if st.futures[i].node < t
      then j < |KeepFutures(st.futures, t)| && Complete(f, Part(g, t), CutState(st, t), j) == CutState(st', t)
      else CutState(st', t) == CutState(st, t)
  {
    var (fu, st') := (st.futures[i], Complete(f, g, st, i));
    var rest := st.futures[..i] + st.futures[i + 1..];
    var items := Row(g.nodes, fu.node, |g.nodes|);
    var b := Deliver(st.board, items, fu.outcome.value).value;
    DeliverCut(st.board, items, fu.outcome.value, t);
    FireCut(f, g.nodes, b, rest, items, t);
    KeepDoneSnoc(st.done, fu.node, t);
    KeepRest(st.futures, i, t);
    KeptRow(g.nodes, fu.node, t);
    if fu.node < t { PartCompletes(f, g, st, i, t, b); }
  }

  lemma {:induction false} KeptRow(nodes: seq<GraphNode>, src: nat, t: nat)
    requires Topological(nodes) && t <= |nodes|
    ensures KeepItems(Row(nodes, src, |nodes|), t) == if src < t then Row(nodes[..t], src, t) else []
  {
    RowCut(nodes, src, |nodes|, t);
    if src >= t { RowEmpty(nodes[..t], src, t); }
  }

  lemma {:induction false} PartCompletes(f: Frame, g: Graph, st: Sched, i: nat, t: nat, b: Board)
    requires t <= |g.nodes| && i < |st.futures| && |st.board.deps| == |st.board.pre| == |b.deps| == |b.pre| == |g.nodes|
    requires st.futures[i].node < t && !st.failed && !Complete(f, g, st, i).failed
    requires var (fu, j) := (st.futures[i], |KeepFutures(st.futures[..i], t)|);
      var (rest, kept) := (st.futures[..i] + st.futures[i + 1..], KeepFutures(st.futures, t));
      var (items, st') := (Row(g.nodes[..t], fu.node, t), Complete(f, g, st, i));
      |st'.board.deps| == |st'.board.pre| == |g.nodes| && st'.done == st.done + [fu.node] &&
      j < |kept| && kept[j] == fu && KeepFutures(rest, t) == kept[..j] + kept[j + 1..] &&
      Deliver(Cut(st.board, t), items, fu.outcome.value) == Some(Cut(b, t)) &&
      FireAll(f, g.nodes[..t], Cut(b, t), KeepFutures(rest, t), items) ==
      Some((Cut(st'.board, t), KeepFutures(st'.futures, t)))
    ensures Complete(f, Part(g, t), CutState(st, t), |KeepFutures(st.futures[..i], t)|) == CutState(Complete(f, g, st, i), t)
  {
    var (fu, j) := (st.futures[i], |KeepFutures(st.futures[..i], t)|);
    KeepDoneSnoc(st.done, fu.node, t);
    var st' := Complete(f, g, st, i);
    CompleteIs(f, Part(g, t), CutState(st, t), j, Cut(b, t), Cut(st'.board, t), KeepFutures(st'.futures, t));
  }

  /** A completion in terms of what its two passes come to. */
  lemma {:induction false} CompleteIs(f: Frame, g: Graph, st: Sched, i: nat, b: Board, b': Board, fs: seq<Future>)
    requires i < |st.futures| && st.futures[i].outcome.Ok? && g.output.None?
    requires var (fu, items) := (st.futures[i], Row(g.nodes, st.futures[i].node, |g.nodes|));
      Deliver(st.board, items, fu.outcome.value) == Some(b) &&
      FireAll(f, g.nodes, b, st.futures[..i] + st.futures[i + 1..], items) == Some((b', fs))
    ensures Complete(f, g, st, i) == Sched(b', fs, st.ret, st.done + [st.futures[i].node], false)
  {
  }

  lemma {:induction false} KeepRest(fs: seq<Future>, i: nat, t: nat)
    requires i < |fs|
    ensures var (rest, j, kept) := (fs[..i] + fs[i + 1..], |KeepFutures(fs[..i], t)|, KeepFutures(fs, t));
      if fs[i].node < t then j < |kept| && kept[j] == fs[i] && KeepFutures(rest, t) == kept[..j] + kept[j + 1..]
      else KeepFutures(rest, t) == kept
  {
    KeepFuturesAppend(fs[..i], fs[i + 1..], t);
    KeepFuturesAppend(fs[..i], fs[i..], t);
    assert fs == fs[..i] + fs[i..] && fs[i..][1..] == fs[i + 1..];
  }

  lemma {:induction false} ParamItemsNone(edges: seq<nat>, target: nat, src: nat, k: nat)
    requires k <= |edges| && src !in edges
    ensures ParamItems(edges, target, src, k) == []
  {
    if k > 0 { ParamItemsNone(edges, target, src, k - 1); }
  }

  /** Nodes have no users among earlier nodes. */
  lemma {:induction false} RowEmpty(nodes: seq<GraphNode>, src: nat, k: nat)
    requires Topological(nodes) && k <= |nodes| && k <= src + 1
    ensures Row(nodes, src, k) == []
    decreases k
  {
    if k > 0 {
      RowEmpty(nodes, src, k - 1);
      assert src !in nodes[k - 1].inEdges;
      ParamItemsNone(nodes[k - 1].inEdges, k - 1, src, |nodes[k - 1].inEdges|);
    }
  }

  /** Seen on its first `t` nodes, a run that has not failed is a run of those nodes alone. */
  lemma {:induction false} RunCut(f: Frame, g: Graph, schedule: seq<nat>, t: nat) returns (part: seq<nat>)
    requires Topological(g.nodes) && t <= |g.nodes| && Run(f, g, schedule).Some? && !Run(f, g, schedule).value.failed
    ensures var st := Run(f, g, schedule).value;
      |st.board.deps| == |st.board.pre| == |g.nodes| && Run(f, Part(g, t), part) == Some(CutState(st, t))
    decreases |schedule|
  {
    if schedule == [] {
      part := [];
      InitCut(f, g, t);
    } else {
      var (prefix, i) := (schedule[..|schedule| - 1], schedule[|schedule| - 1]);
      var st := Run(f, g, prefix).value;
      part := RunCut(f, g, prefix, t);
      CompleteCut(f, g, st, i, t);
      if st.futures[i].node < t {
        var (j, before) := (|KeepFutures(st.futures[..i], t)|, part);
        part := part + [j];
        assert part[..|part| - 1] == before;
      }
    }
  }

  lemma {:induction false} WellFormedPart(nodes: seq<GraphNode>, k: nat)
    requires WellFormed(nodes) && k <= |nodes|
    ensures WellFormed(nodes[..k])
  {
    forall i | 0 <= i < k
      ensures (forall e <- nodes[..k][i].inEdges :: e < i) && (nodes[..k][i].pre.Some? ==> nodes[..k][i].pre.value < i)
      ensures DistinctSources(nodes[..k][i]) && (nodes[..k][i].op.Select? ==> nodes[..k][i].inEdges != [])
    {
      assert nodes[..k][i] == nodes[i];
    }
  }

  lemma {:induction false} EarlierStatus(f: Frame, nodes: seq<GraphNode>, t: nat, k: nat)
    requires k < t <= |nodes|
    ensures Statuses(f, nodes[..t])[k] == Statuses(f, nodes)[k]
  {
    StatusesPrefix(f, nodes, t);
    assert Statuses(f, nodes)[..t][k] == Statuses(f, nodes)[k];
  }

  // ---------------------------------------------------------------------------
  // One completion, seen from one node

  lemma {:induction false} DeliverElsewhere(b: Board, items: seq<FireItem>, v: Option<Value>, t: nat)
    requires Deliver(b, items, v).Some? && !Targets(items, t) && t < |b.deps| && t < |b.pre|
    ensures var b' := Deliver(b, items, v).value;
      t < |b'.deps| && t < |b'.pre| && b'.deps[t] == b.deps[t] && b'.pre[t] == b.pre[t]
    decreases items
  {
    if items != [] {
      assert items[0].target != t;
      assert forall i :: 0 <= i < |items[1..]| ==> items[1..][i] == items[i + 1];
      DeliverElsewhere(DeliverOne(b, items[0], v).value, items[1..], v, t);
    }
  }

  lemma {:induction false} DeliverHere(b: Board, items: seq<FireItem>, v: Option<Value>, t: nat, j: nat)
    requires Deliver(b, items, v).Some? && DistinctTargets(items) && t < |b.deps| && t < |b.pre|
    requires j < |items| && items[j].target == t
    ensures DeliverOne(b, items[j], v).Some?
    ensures var (b', one) := (Deliver(b, items, v).value, DeliverOne(b, items[j], v).value);
      t < |b'.deps| && t < |b'.pre| && t < |one.deps| && t < |one.pre| &&
      b'.deps[t] == one.deps[t] && b'.pre[t] == one.pre[t]
    decreases items
  {
    var b1 := DeliverOne(b, items[0], v).value;
    assert forall i :: 0 <= i < |items[1..]| ==> items[1..][i] == items[i + 1];
    if j == 0 {
      DeliverElsewhere(b1, items[1..], v, t);
    } else {
      assert items[0].target != t && items[1..][j - 1] == items[j];
      DeliverHere(b1, items[1..], v, t, j - 1);
    }
  }

  lemma {:induction false} FireElsewhere(f: Frame, nodes: seq<GraphNode>, b: Board, fs: seq<Future>,
                                         items: seq<FireItem>, t: nat)
    requires FireAll(f, nodes, b, fs, items).Some? && !Targets(items, t) && t < |b.deps| && t < |b.pre|
    ensures var b' := FireAll(f, nodes, b, fs, items).value.0;
      t < |b'.deps| && t < |b'.pre| && b'.deps[t] == b.deps[t] && b'.pre[t] == b.pre[t]
    decreases items
  {
    if items != [] {
      assert items[0].target != t;
      assert forall i :: 0 <= i < |items[1..]| ==> items[1..][i] == items[i + 1];
      var (b1, fs1) := FireOne(f, nodes, b, fs, items[0]).value;
      FireElsewhere(f, nodes, b1, fs1, items[1..], t);
    }
  }

  /** A targeted `select` fires, and gives up its slots, exactly if it is enabled and some slot is filled. */
  lemma {:induction false} FireHere(f: Frame, nodes: seq<GraphNode>, b: Board, fs: seq<Future>, items: seq<FireItem>,
                                    t: nat, j: nat)
    requires FireAll(f, nodes, b, fs, items).Some? && DistinctTargets(items) && t < |b.deps| && t < |b.pre|
    requires j < |items| && items[j].target == t && t < |nodes| && nodes[t].op.Select?
    ensures var b' := FireAll(f, nodes, b, fs, items).value.0;
      t < |b'.deps| && t < |b'.pre| && b'.pre[t] == b.pre[t] &&
      b'.deps[t] == if b.pre[t] && FirstSome(b.deps[t]).Some? then [] else b.deps[t]
    decreases items
  {
    var (b1, fs1) := FireOne(f, nodes, b, fs, items[0]).value;
    assert forall i :: 0 <= i < |items[1..]| ==> items[1..][i] == items[i + 1];
    if j == 0 {
      FireElsewhere(f, nodes, b1, fs1, items[1..], t);
    } else {
      assert items[0].target != t && items[1..][j - 1] == items[j];
      FireHere(f, nodes, b1, fs1, items[1..], t, j - 1);
    }
  }

  /** The board at a `select` after one completion. */
  function AfterItem(deps: seq<Option<Value>>, pre: bool, kind: FireKind, v: Option<Value>): (seq<Option<Value>>, bool) {
    match kind
    case ParamDep(p) => (if p < |deps| then deps[p := v] else deps, pre)
    case Precondition => (deps, v.None? || v.value == Bool(true))
  }

  /** A completion that does not feed a node leaves its record alone. */
  lemma {:induction false} NotTouched(f: Frame, g: Graph, st: Sched, i: nat, t: nat)
    requires i < |st.futures| && !Complete(f, g, st, i).failed && !st.failed
    requires t < |g.nodes| && t < |st.board.deps| && t < |st.board.pre| && !IsSource(g.nodes[t], st.futures[i].node)
    ensures var b := Complete(f, g, st, i).board;
      t < |b.deps| && t < |b.pre| && b.deps[t] == st.board.deps[t] && b.pre[t] == st.board.pre[t]
  {
    var fu := st.futures[i];
    var items := Row(g.nodes, fu.node, |g.nodes|);
    RowTargets(g.nodes, fu.node, t);
    DeliverElsewhere(st.board, items, fu.outcome.value, t);
    FireElsewhere(f, g.nodes, Deliver(st.board, items, fu.outcome.value).value, st.futures[..i] + st.futures[i + 1..], items, t);
  }

  /** How the completion of a source changes the slots and the enabling of a `select`. */
  lemma {:induction false} Touched(f: Frame, g: Graph, st: Sched, i: nat, t: nat, kind: FireKind)
    requires WellFormed(g.nodes) && i < |st.futures| && !Complete(f, g, st, i).failed && !st.failed
    requires t < |g.nodes| && g.nodes[t].op.Select? && t < |st.board.deps| && t < |st.board.pre|
    requires Fits(g.nodes[t], st.futures[i].node, kind)
    ensures st.futures[i].outcome.Ok?
    ensures kind.ParamDep? ==> st.futures[i].outcome.value.Some? && kind.pos < |st.board.deps[t]|
    ensures var (deps, pre) := AfterItem(st.board.deps[t], st.board.pre[t], kind, st.futures[i].outcome.value);
      var b := Complete(f, g, st, i).board;
      t < |b.deps| && t < |b.pre| && b.pre[t] == pre && b.deps[t] == if pre && FirstSome(deps).Some? then [] else deps
  {
    var fu := st.futures[i];
    var items := Row(g.nodes, fu.node, |g.nodes|);
    RowDistinct(g.nodes, fu.node, |g.nodes|);
    RowComplete(g.nodes, fu.node, |g.nodes|, t, kind);
    var j :| 0 <= j < |items| && items[j] == FireItem(t, kind);
    DeliverHere(st.board, items, fu.outcome.value, t, j);
    ItemEffect(st.board, items[j], fu.outcome.value);
    FireHere(f, g.nodes, Deliver(st.board, items, fu.outcome.value).value, st.futures[..i] + st.futures[i + 1..], items, t, j);
  }

  lemma {:induction false} ItemEffect(b: Board, item: FireItem, v: Option<Value>)
    requires DeliverOne(b, item, v).Some?
    ensures var (b', t) := (DeliverOne(b, item, v).value, item.target);
      t < |b.deps| && t < |b.pre| && t < |b'.deps| && t < |b'.pre| &&
      (item.kind.ParamDep? ==> v.Some? && item.kind.pos < |b.deps[t]|) &&
      (b'.deps[t], b'.pre[t]) == AfterItem(b.deps[t], b.pre[t], item.kind, v)
  {
  }

  /** A completion that feeds one node, from what the two passes make of its item. */
  lemma {:induction false} PassesOne(f: Frame, g: Graph, st: Sched, i: nat, item: FireItem, v: Value, b: Board, to: Sched)
    requires i < |st.futures| && st.futures[i].outcome == Ok(Some(v)) && g.output != Some(st.futures[i].node)
    requires Row(g.nodes, st.futures[i].node, |g.nodes|) == [item] && DeliverOne(st.board, item, Some(v)) == Some(b)
    requires FireOne(f, g.nodes, b, st.futures[..i] + st.futures[i + 1..], item) == Some((to.board, to.futures))
    requires to == Sched(to.board, to.futures, st.ret, st.done + [st.futures[i].node], false)
    ensures Complete(f, g, st, i) == to
  {
    assert [item][1..] == [];
    assert Deliver(b, [], Some(v)) == Some(b) && Deliver(st.board, [item], Some(v)) == Some(b);
    assert FireAll(f, g.nodes, to.board, to.futures, []) == Some((to.board, to.futures));
  }

  lemma {:induction false} RunOn(f: Frame, g: Graph, schedule: seq<nat>, i: nat, st: Sched)
    requires Run(f, g, schedule) == Some(st) && !st.failed && i < |st.futures|
    ensures Run(f, g, schedule + [i]) == Some(Complete(f, g, st, i))
  {
    assert (schedule + [i])[..|schedule|] == schedule;
  }
}
