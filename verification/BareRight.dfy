/**
 A bare name to the right of `??` is lowered without a gate. What the graph computes in
 order, what every run of it does, and exactly when that is what the program means.
 */
module BareRight {
  import opened Wrappers
  import opened Dataflow
  import opened Scheduler
  import opened Confluence
  import opened RunParts
  import opened SelectOrders
  import opened Codegen
  import opened CodegenCorrect
  import opened CodegenTheorems

  // ---------------------------------------------------------------------------
  // In order

  /** What `select` makes of an ungated right candidate `b`. */
  function UngatedOrElse(a: Status, b: Status): Status {
    if Yields(b) then b else if IsValue(a) then a else Idle
  }

  /** The left operand yields something other than null. */
  predicate IsValue(a: Status) {
    Yields(a) && !a.value.value.Null?
  }

  /** The nodes that `a ?? x` adds up to its `select`, with their statuses. */
  predicate Prepared(top: Option<nat>, a: Status, b: Status, name: Option<string>, r: Option<(Context, nat)>, c7: Context,
                     s7: seq<Status>, onNull: nat)
  {
    c7.nodes != [] && onNull < |c7.nodes| - 1 && |s7| == |c7.nodes| &&
    r == PushNode(c7, GraphNode(Select, [onNull, |c7.nodes| - 1], top, true), name) &&
    s7[onNull] == b && s7[|c7.nodes| - 1] == (if IsValue(a) then a else Idle)
  }

  /** The part of `a ?? x` before its `select`: the candidates are `x` itself and the kept left operand. */
  lemma {:induction false} Prepare(f: Frame, c: Context, s: seq<Status>, env: Env, gs: seq<Guard>, name: Option<string>,
                                   left: Expr, x: string) returns (c7: Context, s7: seq<Status>, onNull: nat)
    requires Tracks(f, c, s, env, gs) && Gated(left) && AllHold(gs) && x in env
    requires GenExpr(c, name, OrElse(left, Name(x))).Some?
    ensures Tracks(f, c7, s7, env, gs) && Grows(SelectFree(left), c, s, c7, s7)
    ensures PreHolds(s7, Top(c)) && (Top(c).Some? ==> Top(c).value < |s7|)
    ensures Prepared(Top(c), Eval(f, env, gs, left), env[x], name, GenExpr(c, name, OrElse(left, Name(x))), c7, s7, onNull)
    ensures Top(c).Some? ==> EnabledFirst(c7.nodes, Top(c).value, |c7.nodes| - 1)
  {
    OrElseGen(c, name, left, Name(x));
    var c1, s1, l, c5, s5 := PrepareTests(f, c, s, env, gs, left, x);
    onNull := GenRight(c1, l, Name(x)).value.1;
    c7, s7 := PrepareKept(f, c, s, SelectFree(left), c5, s5, env, gs, name, l, |c1.nodes| + 1, onNull);
    StillEnabled(f, SelectFree(left), c, s, c7, s7, env, gs);
  }

  lemma {:induction false} StillEnabled(f: Frame, free: bool, c: Context, s: seq<Status>, c': Context, s': seq<Status>,
                                        env: Env, gs: seq<Guard>)
    requires Tracks(f, c', s', env, gs) && Grows(free, c, s, c', s') && AllHold(gs)
    ensures PreHolds(s', Top(c)) && (Top(c).Some? ==> Top(c).value < |s'|)
  {
    PreconditionIffActive(f, c', s', env, gs);
    GrowsTop(free, c, s, c', s');
    TracksTop(f, c', s', env, gs);
  }

  lemma {:induction false} PrepareTests(f: Frame, c: Context, s: seq<Status>, env: Env, gs: seq<Guard>, left: Expr, x: string)
    returns (c1: Context, s1: seq<Status>, l: nat, c5: Context, s5: seq<Status>)
    requires Tracks(f, c, s, env, gs) && Gated(left) && x in env && GenExpr(c, None, left).Some?
    requires var (c1, l) := GenExpr(c, None, left).value; GenRight(c1, l, Name(x)).Some?
    ensures GenExpr(c, None, left) == Some((c1, l)) && GenRight(c1, l, Name(x)).Some?
    ensures c5 == GenRight(c1, l, Name(x)).value.0 && GenRight(c1, l, Name(x)).value.1 < |s5|
    ensures s5[GenRight(c1, l, Name(x)).value.1] == env[x]
    ensures Tracks(f, c5, s5, env, gs) && Grows(SelectFree(left), c, s, c5, s5) && Top(c5) == Top(c)
    ensures l < |s5| && s5[l] == Eval(f, env, gs, left)
    ensures |c1.nodes| + 1 < |s5| && s5[|c1.nodes| + 1] == NegatedTest(s5[l])
  {
    s1 := GenUnnamedCorrect(f, c, s, env, gs, left);
    c1, l := GenExpr(c, None, left).value.0, GenExpr(c, None, left).value.1;
    s5 := GenRightCorrect(f, c1, s1, env, gs, l, Name(x));
    c5 := GenRight(c1, l, Name(x)).value.0;
    GrowsMore(SelectFree(left), true, c, s, c1, s1, c5, s5);
    GrowsTop(SelectFree(left), c, s, c5, s5);
  }

  lemma {:induction false} PrepareKept(f: Frame, c0: Context, s0: seq<Status>, free: bool, c: Context, s: seq<Status>,
                                       env: Env, gs: seq<Guard>, name: Option<string>, l: nat, notComparator: nat,
                                       onNull: nat)
    returns (c': Context, s': seq<Status>)
    requires Tracks(f, c, s, env, gs) && AllHold(gs) && l < |s| && notComparator < |s| && onNull < |s|
    requires s[notComparator] == NegatedTest(s[l]) && Grows(free, c0, s0, c, s)
    ensures Tracks(f, c', s', env, gs) && Grows(free, c0, s0, c', s')
    ensures c'.nodes != [] && |s'| == |c'.nodes| && onNull < |c'.nodes| - 1 && s'[onNull] == s[onNull]
    ensures s'[|c'.nodes| - 1] == if IsValue(s[l]) then s[l] else Idle
    ensures KeepAndSelect(c, name, Top(c), l, notComparator, onNull) ==
            PushNode(c', GraphNode(Select, [onNull, |c'.nodes| - 1], Top(c), true), name)
    ensures Top(c).Some? ==> EnabledFirst(c'.nodes, Top(c).value, |c'.nodes| - 1)
  {
    var kept;
    s', kept := GenKept(f, c, s, env, gs, l, notComparator, onNull);
    var (c6, condition) := Condition(c, notComparator);
    c' := Push(c6, GraphNode(Nop, [l], Some(condition), true));
    GrowsMore(free, true, c0, s0, c, s, c', s');
    AllHoldSnoc(gs, Guard(NullTest(s[l]), false));
  }

  /** The value of the lowered `a ?? x`; its `select` is ambiguous exactly if `x` completes and `a` is a value. */
  lemma {:induction false} BareRightLowering(f: Frame, c: Context, s: seq<Status>, env: Env, gs: seq<Guard>,
                                             name: Option<string>, left: Expr, x: string) returns (s': seq<Status>)
    requires Tracks(f, c, s, env, gs) && Gated(left) && AllHold(gs) && x in env
    requires GenExpr(c, name, OrElse(left, Name(x))).Some?
    ensures var ((c', i), a, b) := (GenExpr(c, name, OrElse(left, Name(x))).value, Eval(f, env, gs, left), env[x]);
      Evaluated(f, c'.nodes, s') && i < |s'| && s'[i] == UngatedOrElse(a, b) &&
      (b == Done(None) ==> GraphFails(c'.nodes, s')) &&
      (SelectFree(left) && SelectsExclusive(c.nodes, s) ==>
        (SelectsExclusive(c'.nodes, s') <==> !(IsValue(a) && b.Done?)))
  {
    var c7, s7, onNull := Prepare(f, c, s, env, gs, name, left, x);
    TracksEvaluated(f, c7, s7, env, gs);
    s' := NamedSelect(f, c7, s7, name, Top(c), Eval(f, env, gs, left), env[x], onNull);
    if SelectFree(left) && SelectsExclusive(c.nodes, s) {
      GrowsExclusive(c, s, c7, s7);
      NamedAmbiguous(f, c7, s7, s', name, Top(c), Eval(f, env, gs, left), env[x], onNull);
    }
  }

  /** What the `select` has before it. */
  ghost predicate Choosing(f: Frame, c: Context, s: seq<Status>, name: Option<string>, top: Option<nat>, a: Status, b: Status,
                           onNull: nat) {
    Evaluated(f, c.nodes, s) && onNull < |c.nodes| - 1 && |s| == |c.nodes| &&
    s[onNull] == b && s[|c.nodes| - 1] == (if IsValue(a) then a else Idle) &&
    PreHolds(s, top) && (top.Some? ==> top.value < |s|) &&
    PushNode(c, GraphNode(Select, [onNull, |c.nodes| - 1], top, true), name).Some?
  }

  lemma {:induction false} NamedSelect(f: Frame, c: Context, s: seq<Status>, name: Option<string>, top: Option<nat>, a: Status,
                                       b: Status, onNull: nat)
    returns (s': seq<Status>)
    requires Choosing(f, c, s, name, top, a, b, onNull)
    ensures var (c', i) := PushNode(c, GraphNode(Select, [onNull, |c.nodes| - 1], top, true), name).value;
      Evaluated(f, c'.nodes, s') && i < |s'| && s'[i] == UngatedOrElse(a, b) && s' == s + [UngatedOrElse(a, b)] &&
      (b == Done(None) ==> GraphFails(c'.nodes, s'))
  {
    s' := LastSelect(f, c.nodes, s, top, a, b, onNull);
  }

  lemma {:induction false} NamedAmbiguous(f: Frame, c: Context, s: seq<Status>, s': seq<Status>, name: Option<string>,
                                          top: Option<nat>, a: Status, b: Status, onNull: nat)
    requires Choosing(f, c, s, name, top, a, b, onNull) && SelectsExclusive(c.nodes, s) && s' == s + [UngatedOrElse(a, b)]
    ensures var c' := PushNode(c, GraphNode(Select, [onNull, |c.nodes| - 1], top, true), name).value.0;
      SelectsExclusive(c'.nodes, s') <==> !(IsValue(a) && b.Done?)
  {
    AmbiguousIff(c.nodes, s, GraphNode(Select, [onNull, |c.nodes| - 1], top, true), UngatedOrElse(a, b));
  }

  /** The `select` itself. */
  lemma {:induction false} LastSelect(f: Frame, nodes: seq<GraphNode>, s: seq<Status>, top: Option<nat>, a: Status, b: Status,
                                      onNull: nat)
    returns (s': seq<Status>)
    requires Evaluated(f, nodes, s) && onNull < |nodes| - 1 && |s| == |nodes|
    requires s[onNull] == b && s[|nodes| - 1] == if IsValue(a) then a else Idle
    requires PreHolds(s, top) && (top.Some? ==> top.value < |s|)
    ensures var choice := GraphNode(Select, [onNull, |nodes| - 1], top, true);
      Evaluated(f, nodes + [choice], s') && s' == s + [UngatedOrElse(a, b)] && Backward(choice, |nodes|) &&
      (b == Done(None) ==> GraphFails(nodes + [choice], s'))
  {
    var choice := GraphNode(Select, [onNull, |nodes| - 1], top, true);
    assert Gather(s, choice.inEdges) == [b, s[|nodes| - 1]];
    SelectMeaning(f, true, b, s[|nodes| - 1]);
    s' := s + [StatusOf(f, s, choice)];
    Pushed(f, nodes, s, choice);
    NoValueFails(nodes + [choice], s', choice, onNull);
  }

  /** A candidate that completes without a value upsets its `select`. */
  lemma {:induction false} NoValueFails(nodes: seq<GraphNode>, s: seq<Status>, n: GraphNode, e: nat)
    requires n in nodes && e in n.inEdges && e < |s|
    ensures s[e] == Done(None) ==> GraphFails(nodes, s)
  {
    assert s[e] == Done(None) ==> Fault(nodes, s, e);
  }

  /** The last `select` decides whether the graph is ambiguous. */
  lemma {:induction false} AmbiguousIff(nodes: seq<GraphNode>, s: seq<Status>, choice: GraphNode, v: Status)
    requires |s| == |nodes| && Topological(nodes) && Backward(choice, |nodes|) && SelectsExclusive(nodes, s)
    requires choice.op.Select? && PreHolds(s, choice.pre) && |choice.inEdges| == 2
    ensures SelectsExclusive(nodes + [choice], s + [v]) <==>
            !(At(s, choice.inEdges[0]).Done? && At(s, choice.inEdges[1]).Done?)
  {
    var (a, b) := (choice.inEdges[0], choice.inEdges[1]);
    assert a in choice.inEdges && b in choice.inEdges;
    if At(s, a).Done? && At(s, b).Done? {
      var (nodes', s') := (nodes + [choice], s + [v]);
      assert nodes'[|nodes|] == choice && PreHolds(s', choice.pre) && At(s', a) == At(s, a) && At(s', b) == At(s, b);
      assert !AtMostOneDone(s', choice.inEdges);
    } else {
      PushedExclusive(nodes, s, choice, v);
    }
  }

  /** In order it means `a ?? x` exactly if `x` never yields, `a` is null, or the two agree anyway. */
  lemma {:induction false} BareRightInOrderIff(f: Frame, env: Env, gs: seq<Guard>, left: Expr, x: string)
    requires AllHold(gs) && x in env
    ensures var (a, b) := (Eval(f, env, gs, left), env[x]);
      UngatedOrElse(a, b) == Eval(f, env, gs, OrElse(left, Name(x))) <==>
      (!Yields(b) || a == Done(Some(Null)) || a == b)
  {
  }

  // ---------------------------------------------------------------------------
  // In every run

  /**
   Wherever `a ?? x` stands in running code, if `a` is a value and `x` yields one too, every run of every graph that
   contains the lowering fails.
   */
  lemma {:induction false} BothYieldFails(f: Frame, c: Context, s: seq<Status>, env: Env, gs: seq<Guard>,
                                          name: Option<string>, left: Expr, x: string, g: Graph, schedule: seq<nat>)
    requires Tracks(f, c, s, env, gs) && AllHold(gs) && x in env
    requires Gated(left) && GenExpr(c, name, OrElse(left, Name(x))).Some?
    requires IsValue(Eval(f, env, gs, left)) && Yields(env[x])
    requires GenExpr(c, name, OrElse(left, Name(x))).value.0.nodes <= g.nodes && WellFormed(g.nodes)
    requires Run(f, g, schedule).Some? && Finished(Run(f, g, schedule).value)
    ensures Run(f, g, schedule).value.failed
  {
    var c7, s7, onNull := Prepare(f, c, s, env, gs, name, left, x);
    TracksEvaluated(f, c7, s7, env, gs);
    var choice := PreparedSelect(Top(c), Eval(f, env, gs, left), env[x], name, GenExpr(c, name, OrElse(left, Name(x))), c7, s7,
                                 onNull);
    LastSelectFails(f, c7.nodes, s7, choice, g, schedule);
  }

  lemma {:induction false} PreparedSelect(top: Option<nat>, a: Status, b: Status, name: Option<string>,
                                          r: Option<(Context, nat)>, c7: Context, s7: seq<Status>, onNull: nat)
    returns (choice: GraphNode)
    requires Prepared(top, a, b, name, r, c7, s7, onNull) && r.Some?
    ensures r.value.0.nodes == c7.nodes + [choice] && choice.op.Select? && choice.pre == top
    ensures |choice.inEdges| == 2 && choice.inEdges[0] == onNull && choice.inEdges[1] == |c7.nodes| - 1
    ensures IsValue(a) && Yields(b) ==> At(s7, choice.inEdges[0]).Done? && At(s7, choice.inEdges[1]).Done?
  {
    choice := GraphNode(Select, [onNull, |c7.nodes| - 1], top, true);
  }

  /** The same, for any `select` whose second candidate, the node before it, waits for the precondition. */
  lemma {:induction false} LastSelectFails(f: Frame, before: seq<GraphNode>, s: seq<Status>, choice: GraphNode, g: Graph,
                                           schedule: seq<nat>)
    requires before != [] && Evaluated(f, before, s) && before + [choice] <= g.nodes
    requires choice.op.Select? && |choice.inEdges| == 2 && choice.inEdges[1] == |before| - 1 && PreHolds(s, choice.pre)
    requires choice.pre.Some? ==> EnabledFirst(before, choice.pre.value, |before| - 1)
    requires At(s, choice.inEdges[0]).Done? && At(s, choice.inEdges[1]).Done?
    requires WellFormed(g.nodes)
    requires Run(f, g, schedule).Some? && Finished(Run(f, g, schedule).value)
    ensures Run(f, g, schedule).value.failed
  {
    LastSelectHopeless(f, before, s, choice, g.nodes);
    EveryOrderFails(f, g, schedule, |before|);
  }

  lemma {:induction false} LastSelectHopeless(f: Frame, before: seq<GraphNode>, s: seq<Status>, choice: GraphNode,
                                              nodes: seq<GraphNode>)
    requires before != [] && Evaluated(f, before, s) && before + [choice] <= nodes
    requires choice.op.Select? && |choice.inEdges| == 2 && choice.inEdges[1] == |before| - 1 && PreHolds(s, choice.pre)
    requires choice.pre.Some? ==> EnabledFirst(before, choice.pre.value, |before| - 1)
    requires At(s, choice.inEdges[0]).Done? && At(s, choice.inEdges[1]).Done?
    requires WellFormed(nodes)
    ensures |before| < |nodes| && Hopeless(nodes, Statuses(f, nodes), |before|)
  {
    var t := |before|;
    assert nodes[t] == choice && nodes[..t] == before by { Prefixed(before, choice, nodes); }
    SameStatuses(f, before, s, choice, nodes);
    SameEnabling(nodes, t, choice.pre);
    assert choice.inEdges[0] in choice.inEdges && choice.inEdges[1] in choice.inEdges;
    if choice.pre.Some? { KeptWaits(f, nodes, choice.pre.value, t - 1); }
  }

  /** The candidate waits for a conjunction with the precondition `k`. */
  predicate EnabledFirst(nodes: seq<GraphNode>, k: nat, candidate: nat) {
    candidate < |nodes| && nodes[candidate].pre.Some? &&
    var q := nodes[candidate].pre.value;
    q < |nodes| && !nodes[q].op.Select? && k in nodes[q].inEdges
  }

  lemma {:induction false} KeptWaits(f: Frame, nodes: seq<GraphNode>, k: nat, candidate: nat)
    requires Topological(nodes) && EnabledFirst(nodes, k, candidate) && At(Statuses(f, nodes), candidate).Done?
    ensures Waits(nodes, Statuses(f, nodes), candidate, k)
  {
    var (s, q) := (Statuses(f, nodes), nodes[candidate].pre.value);
    StatusEquation(f, nodes, candidate);
    StatusEquation(f, nodes, q);
    var p :| 0 <= p < |nodes[q].inEdges| && nodes[q].inEdges[p] == k;
    assert Fired(s, nodes[q].inEdges[p]) && Waits(nodes, s, k, k);
    assert IsSource(nodes[q], k) && Waits(nodes, s, q, k);
    assert IsSource(nodes[candidate], q);
  }

  lemma {:induction false} Prefixed(before: seq<GraphNode>, choice: GraphNode, nodes: seq<GraphNode>)
    requires before + [choice] <= nodes
    ensures nodes[|before|] == choice && nodes[..|before|] == before
  {
    var both := before + [choice];
    assert nodes[..|both|] == both && both[|before|] == choice && both[..|before|] == before;
  }

  lemma {:induction false} SameStatuses(f: Frame, before: seq<GraphNode>, s: seq<Status>, choice: GraphNode,
                                        nodes: seq<GraphNode>)
    requires s == Statuses(f, before) && |before| <= |nodes| && nodes[..|before|] == before
    requires |choice.inEdges| == 2 && At(s, choice.inEdges[0]).Done? && At(s, choice.inEdges[1]).Done?
    requires PreHolds(s, choice.pre)
    ensures PreHolds(Statuses(f, nodes), choice.pre) && forall e <- choice.inEdges :: At(Statuses(f, nodes), e).Done?
  {
    StatusesPrefix(f, nodes, |before|);
    forall e <- choice.inEdges ensures At(Statuses(f, nodes), e).Done? {
      assert e == choice.inEdges[0] || e == choice.inEdges[1];
      assert Statuses(f, nodes)[e] == s[e];
    }
  }

  lemma {:induction false} SameEnabling(nodes: seq<GraphNode>, t: nat, pre: Option<nat>)
    requires t <= |nodes| && t > 0
    requires pre.Some? ==> EnabledFirst(nodes[..t], pre.value, t - 1)
    ensures pre.Some? ==> EnabledFirst(nodes, pre.value, t - 1)
  {
  }

  // ---------------------------------------------------------------------------
  // Whole programs

  lemma {:induction false} GenStmtsAppend(c: Context, ss: seq<Stmt>, last: Stmt)
    ensures GenStmts(c, ss + [last]) ==
            match GenStmts(c, ss) case None => None case Some(c') => GenStmt(c', last)
    decreases ss
  {
    if ss == [] {
      assert ss + [last] == [last] && [last][1..] == [];
    } else {
      assert (ss + [last])[0] == ss[0] && (ss + [last])[1..] == ss[1..] + [last];
      if GenStmt(c, ss[0]).Some? { GenStmtsAppend(GenStmt(c, ss[0]).value, ss[1..], last); }
    }
  }

  lemma {:induction false} ExecAllAppend(f: Frame, src: Src, gs: seq<Guard>, ss: seq<Stmt>, last: Stmt)
    ensures ExecAll(f, src, gs, ss + [last]) == Exec(f, ExecAll(f, src, gs, ss), gs, last)
    decreases ss
  {
    if ss == [] {
      assert ss + [last] == [last] && [last][1..] == [];
    } else {
      assert (ss + [last])[0] == ss[0] && (ss + [last])[1..] == ss[1..] + [last];
      ExecAllAppend(f, Exec(f, src, gs, ss[0]), gs, ss[1..], last);
    }
  }

  /** What the caller of the program gets. */
  function Returned(ret: Option<Status>): Outcome {
    Ok(if ret.Some? && ret.value.Done? then ret.value.value else None)
  }

  /** `prelude; return left ?? x` */
  function ReturnsBare(prelude: seq<Stmt>, left: Expr, x: string): seq<Stmt> {
    prelude + [Return(OrElse(left, Name(x)))]
  }

  /** The context before the `return`, and what the program says there. */
  lemma {:induction false} BeforeReturn(f: Frame, params: seq<string>, prelude: seq<Stmt>, left: Expr, x: string)
    returns (c: Context, s: seq<Status>)
    requires GatedStmts(prelude) && SelectFreeStmts(prelude) && GenGraph(params, ReturnsBare(prelude, left, x)).Some?
    ensures var src := Program(f, params, prelude);
      Tracks(f, c, s, src.env, []) && SelectsExclusive(c.nodes, s) &&
      GenExpr(c, None, OrElse(left, Name(x))).Some? &&
      var (c', i) := GenExpr(c, None, OrElse(left, Name(x))).value;
      GenGraph(params, ReturnsBare(prelude, left, x)).value == c'.(output := Some(i))
    ensures var src := Program(f, params, prelude);
      Program(f, params, ReturnsBare(prelude, left, x)).ret == Some(Eval(f, src.env, [], OrElse(left, Name(x))))
  {
    var s0 := GenParamsCorrect(f, params, |params|);
    var c0 := GenParams(params, |params|).value;
    var src0 := Src(ParamEnv(f, params, |params|), None, []);
    GenStmtsAppend(c0, prelude, Return(OrElse(left, Name(x))));
    ExecAllAppend(f, src0, [], prelude, Return(OrElse(left, Name(x))));
    c := GenStmts(c0, prelude).value;
    s := GenStmtsCorrect(f, c0, s0, src0, [], prelude);
    ContinuesExclusive(c0, s0, c, s);
  }

  lemma {:induction false} ContinuesExclusive(c: Context, s: seq<Status>, c': Context, s': seq<Status>)
    requires Continues(true, c, s, c', s') && SelectsExclusive(c.nodes, s)
    ensures SelectsExclusive(c'.nodes, s')
  {
    assert Look(0);
  }

  lemma {:induction false} NamedIsBound(f: Frame, c: Context, s: seq<Status>, env: Env, x: string)
    requires Tracks(f, c, s, env, []) && x in c.names
    ensures x in env
  {
    assert Look(0);
  }

  /** The right operand is bound, because generation looked it up. */
  lemma {:induction false} RightIsBound(f: Frame, c: Context, s: seq<Status>, env: Env, left: Expr, x: string)
    requires Tracks(f, c, s, env, []) && Gated(left) && GenExpr(c, None, OrElse(left, Name(x))).Some?
    ensures x in env
  {
    OrElseGen(c, None, left, Name(x));
    var s1 := GenUnnamedCorrect(f, c, s, env, [], left);
    var (c1, l) := GenExpr(c, None, left).value;
    NamedIsBound(f, c1, s1, env, x);
  }

  /**
   A program that ends in `return left ?? x` and none of whose nodes fails in order: a finished run returns what the
   program returns if and only if `x` yields nothing or the left operand is null. If both operands yield values, even
   equal ones, every run fails; if the left operand yields nothing, the run returns `x`.
   */
  lemma {:induction false} BareRightIff(f: Frame, params: seq<string>, prelude: seq<Stmt>, left: Expr, x: string,
                                        schedule: seq<nat>)
    requires GatedStmts(prelude) && SelectFreeStmts(prelude) && Gated(left) && SelectFree(left)
    requires GenGraph(params, ReturnsBare(prelude, left, x)).Some?
    requires var c := GenGraph(params, ReturnsBare(prelude, left, x)).value;
      WellFormed(c.nodes) && !GraphFails(c.nodes, Statuses(f, c.nodes)) &&
      Run(f, Graph(c.nodes, c.output), schedule).Some? && Finished(Run(f, Graph(c.nodes, c.output), schedule).value)
    ensures var (c, env) := (GenGraph(params, ReturnsBare(prelude, left, x)).value, Program(f, params, prelude).env);
      x in env &&
      var (a, b, st) := (Eval(f, env, [], left), env[x], Run(f, Graph(c.nodes, c.output), schedule).value);
      (RunOutcome(st) == Returned(Program(f, params, ReturnsBare(prelude, left, x)).ret) <==>
        !Yields(b) || a == Done(Some(Null))) &&
      (IsValue(a) && Yields(b) ==> st.failed)
  {
    var c, s := BeforeReturn(f, params, prelude, left, x);
    var env := Program(f, params, prelude).env;
    RightIsBound(f, c, s, env, left, x);
    var ((c', i), a, b) := (GenExpr(c, None, OrElse(left, Name(x))).value, Eval(f, env, [], left), env[x]);
    var g := Graph(c'.nodes, Some(i));
    if IsValue(a) && Yields(b) {
      BothYieldFails(f, c, s, env, [], None, left, x, g, schedule);
    } else {
      BareRightRuns(f, c, s, env, left, x, g, schedule);
      BareRightInOrderIff(f, env, [], left, x);
    }
  }

  /** Without two values, every finished run returns what the graph computes in order. */
  lemma {:induction false} BareRightRuns(f: Frame, c: Context, s: seq<Status>, env: Env, left: Expr, x: string, g: Graph,
                                         schedule: seq<nat>)
    requires Tracks(f, c, s, env, []) && SelectsExclusive(c.nodes, s) && x in env
    requires Gated(left) && SelectFree(left) && GenExpr(c, None, OrElse(left, Name(x))).Some?
    requires !(IsValue(Eval(f, env, [], left)) && Yields(env[x]))
    requires var (c', i) := GenExpr(c, None, OrElse(left, Name(x))).value; g == Graph(c'.nodes, Some(i))
    requires WellFormed(g.nodes) && !GraphFails(g.nodes, Statuses(f, g.nodes))
    requires Run(f, g, schedule).Some? && Finished(Run(f, g, schedule).value)
    ensures RunOutcome(Run(f, g, schedule).value) == Returned(Some(UngatedOrElse(Eval(f, env, [], left), env[x])))
  {
    var s' := BareRightLowering(f, c, s, env, [], None, left, x);
    ExclusiveOrderly(g.nodes, s');
    AnyScheduleRefinesInOrder(f, g, schedule);
  }

  // ---------------------------------------------------------------------------
  // A failing run

  /** `return a ?? x` on parameters `a` and `x` */
  const Bare: seq<Stmt> := [Return(OrElse(Name("a"), Name("x")))]

  const BareNodes: seq<GraphNode> := [
    GraphNode(LoadParam(0), [], None, true), GraphNode(LoadParam(1), [], None, true), GraphNode(IsNull, [0], None, true),
    GraphNode(Not, [2], None, true), GraphNode(Nop, [0], Some(3), true), GraphNode(Select, [1, 4], None, true)]

  function BareFrame(u: Value, v: Value): Frame {
    Frame([], (code, ps) => Fail, [u, v], 0)
  }

  const BareParams: Context := Context(BareNodes[..2], map["a" := 0, "x" := 1], [], None, [])

  lemma {:induction false} BareParamsGenerated(params: seq<string>)
    requires params == ["a", "x"]
    ensures GenParams(params, 2) == Some(BareParams)
  {
    var c1 := Context([BareNodes[0]], map["a" := 0], [], None, []);
    assert GenParams(params, 0) == Some(Context([], map[], [], None, []));
    assert GenParams(params, 1) == Some(c1) by { assert [] + [BareNodes[0]] == [BareNodes[0]]; }
    assert "x" != "a" by { assert "x"[0] != "a"[0]; }
    assert GenParams(params, 2) == Some(BareParams) by { assert c1.nodes + [BareNodes[1]] == BareNodes[..2]; }
  }

  lemma {:induction false} BareReturnGenerated(c: Context)
    requires c == BareParams
    ensures GenExpr(c, None, OrElse(Name("a"), Name("x"))).Some?
    ensures var (c', i) := GenExpr(c, None, OrElse(Name("a"), Name("x"))).value;
      c'.nodes == BareNodes && c'.output == None && i == 5
  {
    var c4 := WithTests(c, 0);
    assert c4.nodes == BareNodes[..4];
    assert GenRight(c, 0, Name("x")) == Some((c4, 1)) by { assert Leave(Enter(c4, 2)) == c4; }
    assert Condition(c4, 3) == (c4, 3);
    var c5 := Push(c4, BareNodes[4]);
    assert c5.nodes == BareNodes[..5];
    assert KeepAndSelect(c4, None, None, 0, 3, 1) == Some((c5.(nodes := c5.nodes + [BareNodes[5]]), 5));
    assert c5.nodes + [BareNodes[5]] == BareNodes;
  }

  lemma {:induction false} BareGraph(params: seq<string>, body: seq<Stmt>)
    requires params == ["a", "x"] && body == Bare
    ensures GenGraph(params, body).Some?
    ensures var c := GenGraph(params, body).value; c.nodes == BareNodes && c.output == Some(5)
  {
    BareParamsGenerated(params);
    BareReturnGenerated(BareParams);
    assert body[0] == Return(OrElse(Name("a"), Name("x"))) && body[1..] == [];
    var c := GenStmt(BareParams, body[0]).value;
    assert GenStmts(BareParams, body) == GenStmts(c, body[1..]) == Some(c);
  }

  /** The records of nodes 2 to 5, and the enabling of node 4. */
  function Records(d2: seq<Option<Value>>, d3: seq<Option<Value>>, d4: seq<Option<Value>>, d5: seq<Option<Value>>, on: bool)
    : Board
  {
    Board([[], [], d2, d3, d4, d5], [true, true, true, true, on, true])
  }

  /** The fire items of a source, target by target. */
  function BareRowOf(src: nat): seq<FireItem> {
    BareItem(src, 2) + BareItem(src, 3) + BareItem(src, 4) + BareItem(src, 5)
  }

  lemma {:induction false} BareRow(nodes: seq<GraphNode>, src: nat)
    requires nodes == BareNodes && src < 5
    ensures Row(nodes, src, 6) == BareRowOf(src)
  {
    BareRowPart(nodes, src, 2);
    BareRowPart(nodes, src, 3);
    BareRowPart(nodes, src, 4);
    BareRowPart(nodes, src, 5);
    assert Row(nodes, src, 2) == [] by {
      assert Row(nodes, src, 0) == [] && NodeItems(nodes[0], 0, src) == [] && NodeItems(nodes[1], 1, src) == [];
      assert Row(nodes, src, 1) == [];
    }
  }

  lemma {:induction false} BareRowPart(nodes: seq<GraphNode>, src: nat, t: nat)
    requires nodes == BareNodes && src < 5 && 2 <= t < 6
    ensures Row(nodes, src, t + 1) == Row(nodes, src, t) + BareItem(src, t)
  {
    BareItemsOne(src, t);
  }

  function BareItems(src: nat, t: nat): seq<FireItem>
    requires t < 6
  {
    NodeItems(BareNodes[t], t, src)
  }

  function BareItem(src: nat, t: nat): seq<FireItem> {
    if (src == 0 && (t == 2 || t == 4)) || (src == 1 && t == 5) || (src == 2 && t == 3) then [FireItem(t, ParamDep(0))]
    else if src == 3 && t == 4 then [FireItem(4, Precondition)]
    else if src == 4 && t == 5 then [FireItem(5, ParamDep(1))]
    else []
  }

  lemma {:induction false} BareItemsOne(src: nat, t: nat)
    requires src < 5 && 2 <= t < 6
    ensures BareItems(src, t) == BareItem(src, t)
  {
    var edges := BareNodes[t].inEdges;
    assert ParamItems(edges, t, src, 0) == [];
    assert ParamItems(edges, t, src, 1) == if edges[0] == src then [FireItem(t, ParamDep(0))] else [];
    if t == 5 {
      assert ParamItems(edges, t, src, 2) ==
             ParamItems(edges, t, src, 1) + if edges[1] == src then [FireItem(t, ParamDep(1))] else [];
    }
  }

  const BareG: Graph := Graph(BareNodes, Some(5))

  /** The states of a run in which `x` arrives first. */
  function BareState(u: Value, v: Value, k: nat): Sched {
    if k == 0 then Bare0(u, v) else if k == 1 then Bare1(u, v) else if k == 2 then Bare2(u, v)
    else if k == 3 then Bare3(u, v) else Bare4(u, v)
  }

  function Bare0(u: Value, v: Value): Sched {
    Sched(Records([None], [None], [None], [None, None], false), [Future(0, Ok(Some(u))), Future(1, Ok(Some(v)))], None, [],
          false)
  }

  function Bare1(u: Value, v: Value): Sched {
    Sched(Records([None], [None], [None], [], false), [Future(0, Ok(Some(u))), Future(5, Ok(Some(v)))], None, [1], false)
  }

  function Bare2(u: Value, v: Value): Sched {
    Sched(Records([], [None], [Some(u)], [], false), [Future(5, Ok(Some(v))), Future(2, Ok(Some(Bool(false))))], None, [1, 0],
          false)
  }

  function Bare3(u: Value, v: Value): Sched {
    Sched(Records([], [], [Some(u)], [], false), [Future(5, Ok(Some(v))), Future(3, Ok(Some(Bool(true))))], None, [1, 0, 2],
          false)
  }

  function Bare4(u: Value, v: Value): Sched {
    Sched(Records([], [], [], [], true), [Future(5, Ok(Some(v))), Future(4, Ok(Some(u)))], None, [1, 0, 2, 3], false)
  }

  lemma {:induction false} BareStart(u: Value, v: Value)
    ensures Init(BareFrame(u, v), BareG) == Bare0(u, v)
  {
    var (f, b) := (BareFrame(u, v), InitialBoard(BareNodes));
    assert b.deps == [b.deps[0], b.deps[1], b.deps[2], b.deps[3], b.deps[4], b.deps[5]];
    assert b.pre == [b.pre[0], b.pre[1], b.pre[2], b.pre[3], b.pre[4], b.pre[5]];
    assert Blank(1) == [None] && Blank(2) == [None, None];
    BareFirstFutures(f, BareNodes, u, v);
  }

  lemma {:induction false} BareFirstFutures(f: Frame, nodes: seq<GraphNode>, u: Value, v: Value)
    requires f == BareFrame(u, v) && nodes == BareNodes
    ensures InitialFutures(f, nodes, 6) == [Future(0, Ok(Some(u))), Future(1, Ok(Some(v)))]
  {
    assert InitialFutures(f, nodes, 1) == [Future(0, Ok(Some(u)))] by { assert InitialFutures(f, nodes, 0) == []; }
    assert InitialFutures(f, nodes, 2) == [Future(0, Ok(Some(u))), Future(1, Ok(Some(v)))];
    assert InitialFutures(f, nodes, 3) == InitialFutures(f, nodes, 2);
    assert InitialFutures(f, nodes, 4) == InitialFutures(f, nodes, 3);
    assert InitialFutures(f, nodes, 5) == InitialFutures(f, nodes, 4);
    assert InitialFutures(f, nodes, 6) == InitialFutures(f, nodes, 5);
  }

  /** `x` arrives first and the `select` takes it. */
  lemma {:induction false} BareTakesRight(f: Frame, g: Graph, u: Value, v: Value)
    requires g == BareG
    ensures Complete(f, g, Bare0(u, v), 1) == Bare1(u, v)
  {
    var (st, to, item) := (Bare0(u, v), Bare1(u, v), FireItem(5, ParamDep(0)));
    assert Row(g.nodes, 1, 6) == [item] by { BareRow(g.nodes, 1); }
    var rest := st.futures[..1] + st.futures[2..];
    assert rest == [Future(0, Ok(Some(u)))];
    var b1 := Records([None], [None], [None], [Some(v), None], false);
    assert DeliverOne(st.board, item, Some(v)) == Some(b1) by {
      assert st.board.deps[5 := [Some(v), None]] == b1.deps && [None, None][0 := Some(v)] == [Some(v), None];
    }
    assert FireOne(f, g.nodes, b1, rest, item) == Some((to.board, to.futures)) by {
      assert b1.deps[5 := []] == to.board.deps && to.futures == rest + [Future(5, Ok(Some(v)))];
    }
    PassesOne(f, g, st, 1, item, v, b1, to);
  }

  /** An enabled node with its one parameter starts. */
  lemma {:induction false} FiresPlain(f: Frame, nodes: seq<GraphNode>, b: Board, fs: seq<Future>, item: FireItem, v: Value)
    requires item.target < |b.deps| == |b.pre| == |nodes| && b.pre[item.target] && !nodes[item.target].op.Select?
    requires b.deps[item.target] == [Some(v)]
    ensures FireOne(f, nodes, b, fs, item) ==
            Some((b.(deps := b.deps[item.target := []]),
                  fs + [Future(item.target, RunNode(f, nodes[item.target], [v]))]))
  {
    assert Unwrap([Some(v)]) == [v];
  }

  /** Then the left operand arrives, and its null test starts. */
  lemma {:induction false} BareReadsLeft(f: Frame, g: Graph, u: Value, v: Value)
    requires g == BareG && !u.Null?
    ensures Complete(f, g, Bare1(u, v), 0) == Bare2(u, v)
  {
    var (st, to, i2, i4) := (Bare1(u, v), Bare2(u, v), FireItem(2, ParamDep(0)), FireItem(4, ParamDep(0)));
    assert Row(g.nodes, 0, 6) == [i2, i4] by { BareRow(g.nodes, 0); }
    var rest := st.futures[..0] + st.futures[1..];
    assert rest == [Future(5, Ok(Some(v)))];
    var b := Records([Some(u)], [None], [Some(u)], [], false);
    assert Deliver(st.board, [i2, i4], Some(u)) == Some(b) by { BareDeliversLeft(st.board, u, b); }
    assert to.futures == rest + [Future(2, Ok(Some(Bool(false))))];
    BareStartsTest(f, g.nodes, u, b, to.board, rest);
    PassesTwo(f, g, st, 0, i2, i4, u, b, to);
  }

  lemma {:induction false} BareStartsTest(f: Frame, nodes: seq<GraphNode>, u: Value, b: Board, to: Board, rest: seq<Future>)
    requires nodes == BareNodes && !u.Null?
    requires b == Records([Some(u)], [None], [Some(u)], [], false) && to == Records([], [None], [Some(u)], [], false)
    ensures FireOne(f, nodes, b, rest, FireItem(2, ParamDep(0))) ==
            Some((to, rest + [Future(2, Ok(Some(Bool(false))))]))
  {
    assert b.deps[2 := []] == to.deps;
    assert RunNode(f, nodes[2], [u]) == Ok(Some(Bool(false)));
    FiresPlain(f, nodes, b, rest, FireItem(2, ParamDep(0)), u);
  }

  /** A completion that feeds two nodes, of which only the first starts. */
  lemma {:induction false} PassesTwo(f: Frame, g: Graph, st: Sched, i: nat, one: FireItem, two: FireItem, v: Value, b: Board,
                                     to: Sched)
    requires i < |st.futures| && st.futures[i].outcome == Ok(Some(v)) && g.output != Some(st.futures[i].node)
    requires Row(g.nodes, st.futures[i].node, |g.nodes|) == [one, two] && Deliver(st.board, [one, two], Some(v)) == Some(b)
    requires FireOne(f, g.nodes, b, st.futures[..i] + st.futures[i + 1..], one) == Some((to.board, to.futures))
    requires two.target < |to.board.deps| == |to.board.pre| == |g.nodes| && !to.board.pre[two.target]
    requires to == Sched(to.board, to.futures, st.ret, st.done + [st.futures[i].node], false)
    ensures Complete(f, g, st, i) == to
  {
    assert [one, two][1..] == [two] && [two][1..] == [];
    assert FireAll(f, g.nodes, to.board, to.futures, []) == Some((to.board, to.futures));
    assert FireAll(f, g.nodes, to.board, to.futures, [two]) == Some((to.board, to.futures));
  }

  lemma {:induction false} BareDeliversLeft(b: Board, u: Value, to: Board)
    requires b == Records([None], [None], [None], [], false) && to == Records([Some(u)], [None], [Some(u)], [], false)
    ensures Deliver(b, [FireItem(2, ParamDep(0)), FireItem(4, ParamDep(0))], Some(u)) == Some(to)
  {
    var (i2, i4, b1) := (FireItem(2, ParamDep(0)), FireItem(4, ParamDep(0)), Records([Some(u)], [None], [None], [], false));
    assert [None][0 := Some(u)] == [Some(u)];
    assert b.deps[2 := [Some(u)]] == b1.deps && b1.deps[4 := [Some(u)]] == to.deps;
    assert DeliverOne(b, i2, Some(u)) == Some(b1) && DeliverOne(b1, i4, Some(u)) == Some(to);
    assert [i2, i4][1..] == [i4] && [i4][1..] == [];
    assert Deliver(to, [], Some(u)) == Some(to) && Deliver(b1, [i4], Some(u)) == Some(to);
  }

  /** Then the outcome of that test, and its negation starts. */
  lemma {:induction false} BareTests(f: Frame, g: Graph, u: Value, v: Value)
    requires g == BareG
    ensures Complete(f, g, Bare2(u, v), 1) == Bare3(u, v)
  {
    var (st, to, item, no) := (Bare2(u, v), Bare3(u, v), FireItem(3, ParamDep(0)), Some(Bool(false)));
    assert Row(g.nodes, 2, 6) == [item] by { BareRow(g.nodes, 2); }
    var (rest, b1) := ([Future(5, Ok(Some(v)))], Records([], [no], [Some(u)], [], false));
    assert rest == st.futures[..1] + st.futures[2..] && to.futures == rest + [Future(3, Ok(Some(Bool(true))))];
    BareStartsNot(f, g.nodes, u, st.board, b1, to.board, rest);
    PassesOne(f, g, st, 1, item, Bool(false), b1, to);
  }

  lemma {:induction false} BareStartsNot(f: Frame, nodes: seq<GraphNode>, u: Value, b: Board, b1: Board, to: Board,
                                         rest: seq<Future>)
    requires nodes == BareNodes && b == Records([], [None], [Some(u)], [], false)
    requires b1 == Records([], [Some(Bool(false))], [Some(u)], [], false) && to == Records([], [], [Some(u)], [], false)
    ensures var item := FireItem(3, ParamDep(0));
      DeliverOne(b, item, Some(Bool(false))) == Some(b1) &&
      FireOne(f, nodes, b1, rest, item) == Some((to, rest + [Future(3, Ok(Some(Bool(true))))]))
  {
    assert [None][0 := Some(Bool(false))] == [Some(Bool(false))] && b.deps[3 := [Some(Bool(false))]] == b1.deps;
    assert b1.deps[3 := []] == to.deps;
    assert RunNode(f, nodes[3], [Bool(false)]) == Ok(Some(Bool(true)));
    FiresPlain(f, nodes, b1, rest, FireItem(3, ParamDep(0)), Bool(false));
  }

  /** Which enables the node that keeps the left operand. */
  lemma {:induction false} BareKeepsLeft(f: Frame, g: Graph, u: Value, v: Value)
    requires g == BareG
    ensures Complete(f, g, Bare3(u, v), 1) == Bare4(u, v)
  {
    var (st, to, item) := (Bare3(u, v), Bare4(u, v), FireItem(4, Precondition));
    assert Row(g.nodes, 3, 6) == [item] by { BareRow(g.nodes, 3); }
    var (rest, b1) := ([Future(5, Ok(Some(v)))], Records([], [], [Some(u)], [], true));
    assert rest == st.futures[..1] + st.futures[2..] && to.futures == rest + [Future(4, Ok(Some(u)))];
    BareStartsNop(f, g.nodes, u, st.board, b1, to.board, rest);
    PassesOne(f, g, st, 1, item, Bool(true), b1, to);
  }

  lemma {:induction false} BareStartsNop(f: Frame, nodes: seq<GraphNode>, u: Value, b: Board, b1: Board, to: Board,
                                         rest: seq<Future>)
    requires nodes == BareNodes && b == Records([], [], [Some(u)], [], false)
    requires b1 == Records([], [], [Some(u)], [], true) && to == Records([], [], [], [], true)
    ensures var item := FireItem(4, Precondition);
      DeliverOne(b, item, Some(Bool(true))) == Some(b1) &&
      FireOne(f, nodes, b1, rest, item) == Some((to, rest + [Future(4, Ok(Some(u)))]))
  {
    assert b.pre[4 := true] == b1.pre && b1.deps[4 := []] == to.deps;
    assert RunNode(f, nodes[4], [u]) == Ok(Some(u));
    FiresPlain(f, nodes, b1, rest, FireItem(4, Precondition), u);
  }

  /** And when that one completes, the `select` has already gone. */
  lemma {:induction false} BareArrivesLate(f: Frame, g: Graph, u: Value, v: Value)
    requires g == BareG
    ensures Complete(f, g, Bare4(u, v), 1).failed
  {
    var (st, item) := (Bare4(u, v), FireItem(5, ParamDep(1)));
    assert Row(g.nodes, 4, 6) == [item] by { BareRow(g.nodes, 4); }
    assert DeliverOne(st.board, item, Some(u)) == None;
  }

  lemma {:induction false} BareMeans(f: Frame, u: Value, v: Value)
    requires f == BareFrame(u, v) && !u.Null?
    ensures Program(f, ["a", "x"], Bare).ret == Some(Done(Some(u)))
  {
    var params := ["a", "x"];
    assert ParamEnv(f, params, 0) == map[];
    assert ParamEnv(f, params, 1)["a"] == Done(Some(u));
    assert "x" != "a" by { assert "x"[0] != "a"[0]; }
    assert ParamEnv(f, params, 2)["a"] == Done(Some(u));
    assert Bare[1..] == [];
    var src := Src(ParamEnv(f, params, 2), None, []);
    assert ExecAll(f, src, [], Bare) == ExecAll(f, Exec(f, src, [], Bare[0]), [], []);
  }

  lemma {:induction false} BareNext(f: Frame, g: Graph, u: Value, v: Value, schedule: seq<nat>, k: nat)
    requires g == BareG && !u.Null? && k < 4 && Run(f, g, schedule) == Some(BareState(u, v, k))
    ensures Run(f, g, schedule + [if k == 1 then 0 else 1]) == Some(BareState(u, v, k + 1))
  {
    if k == 0 {
      BareTakesRight(f, g, u, v);
    } else if k == 1 {
      BareReadsLeft(f, g, u, v);
    } else if k == 2 {
      BareTests(f, g, u, v);
    } else {
      BareKeepsLeft(f, g, u, v);
    }
    RunOn(f, g, schedule, if k == 1 then 0 else 1, BareState(u, v, k));
  }

  lemma {:induction false} BareReaches(f: Frame, g: Graph, u: Value, v: Value, schedule: seq<nat>, k: nat)
    requires Init(f, g) == BareState(u, v, 0) && g == BareG && !u.Null? && k <= 4 && schedule == [1, 0, 1, 1, 1]
    ensures Run(f, g, schedule[..k]) == Some(BareState(u, v, k))
  {
    if k > 0 {
      BareReaches(f, g, u, v, schedule, k - 1);
      BareNext(f, g, u, v, schedule[..k - 1], k - 1);
      assert schedule[..k] == schedule[..k - 1] + [schedule[k - 1]];
    } else {
      assert schedule[..0] == [];
    }
  }

  lemma {:induction false} BareRun(f: Frame, g: Graph, u: Value, v: Value, schedule: seq<nat>)
    requires Init(f, g) == BareState(u, v, 0) && g == BareG && !u.Null? && schedule == [1, 0, 1, 1, 1]
    ensures Run(f, g, schedule).Some? && Run(f, g, schedule).value.failed
  {
    BareReaches(f, g, u, v, schedule, 4);
    BareArrivesLate(f, g, u, v);
    RunOn(f, g, schedule[..4], 1, BareState(u, v, 4));
    assert schedule == schedule[..4] + [1];
  }

  /** `return a ?? x` on two values, even equal ones: a run that fails, although the program means `a`. */
  lemma {:induction false} BareRightFails(u: Value, v: Value)
    requires !u.Null? && !v.Null?
    ensures GenGraph(["a", "x"], Bare).Some?
    ensures var c := GenGraph(["a", "x"], Bare).value; Graph(c.nodes, c.output) == BareG
    ensures Program(BareFrame(u, v), ["a", "x"], Bare).ret == Some(Done(Some(u)))
    ensures var run := Run(BareFrame(u, v), BareG, [1, 0, 1, 1, 1]); run.Some? && run.value.failed
  {
    BareGraph(["a", "x"], Bare);
    BareMeans(BareFrame(u, v), u, v);
    BareStart(u, v);
    BareRun(BareFrame(u, v), BareG, u, v, [1, 0, 1, 1, 1]);
  }
}
