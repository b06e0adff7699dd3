/**
 What a RefineAsm program means, statement by statement, and the proof that the
 generated graph, evaluated in order, means the same.
 */
module CodegenCorrect {
  import opened Wrappers
  import opened Dataflow
  import opened Scheduler
  import opened Codegen

  // ---------------------------------------------------------------------------
  // Meaning of programs

  /** An enclosing `if` (polarity true) or `else` (polarity false) and what its condition evaluated to. */
  datatype Guard = Guard(condition: Status, polarity: bool)

  /** A null condition, or one that never fired, holds in neither branch. */
  predicate Holds(g: Guard) {
    g.condition == Done(Some(Bool(g.polarity)))
  }

  predicate AllHold(gs: seq<Guard>) {
    forall i :: 0 <= i < |gs| ==> Holds(gs[i])
  }

  /** Code runs iff all enclosing guards hold; a lone `if` may also wait for an effect without a value. */
  predicate Active(gs: seq<Guard>) {
    AllHold(gs) || (|gs| == 1 && EffectGuard(gs[0]))
  }

  predicate EffectGuard(g: Guard) {
    g.polarity && g.condition == Done(None)
  }

  predicate Yields(s: Status) {
    s.Done? && s.value.Some?
  }

  function FirstYield(args: seq<Status>): Status {
    if args == [] then Idle else if Yields(args[0]) then args[0] else FirstYield(args[1..])
  }

  predicate AllYield(args: seq<Status>) {
    forall i :: 0 <= i < |args| ==> args[i].Done? && args[i].value.Some?
  }

  function Values(args: seq<Status>): (r: seq<Value>)
    requires AllYield(args)
    ensures |r| == |args| && forall i :: 0 <= i < |args| ==> r[i] == args[i].value.value
  {
    if args == [] then [] else [args[0].value.value] + Values(args[1..])
  }

  function Meaning(f: Frame, on: bool, op: Op, typed: bool, args: seq<Status>): Status {
    if !on then Idle
    else if op.Select? then FirstYield(args)
    else if AllYield(args) then
      match RunNode(f, GraphNode(op, [], None, typed), Values(args))
      case Fail => Failed
      case Ok(v) => Done(v)
    else Idle
  }

  type Env = map<string, Status>

  /** `a ?? b` is `a` unless that is null, and `b` then. */
  function Eval(f: Frame, env: Env, gs: seq<Guard>, e: Expr): Status
    decreases e, 1
  {
    match e
    case Name(x) => if x in env then env[x] else Idle
    case Apply(op, args, swapped, typed) =>
      var vs := EvalArgs(f, env, gs, args);
      Meaning(f, Active(gs), op, typed, if swapped then Reverse(vs) else vs)
    case OrElse(left, right) =>
      var a := Eval(f, env, gs, left);
      if !AllHold(gs) || !Yields(a) then Idle
      else if a.value.value.Null? then
        var b := Eval(f, env, gs + [Guard(Done(Some(Bool(true))), true)], right);
        if Yields(b) then b else Idle
      else a
  }

  function EvalArgs(f: Frame, env: Env, gs: seq<Guard>, args: seq<Expr>): (r: seq<Status>)
    ensures |r| == |args|
    decreases args, 0
  {
    if args == [] then [] else [Eval(f, env, gs, args[0])] + EvalArgs(f, env, gs, args[1..])
  }

  /** Bindings so far, the returned status, and the status of each `Node` and `throw` statement. */
  datatype Src = Src(env: Env, ret: Option<Status>, log: seq<Status>)

  function Bind(env: Env, name: Option<string>, e: Expr, v: Status): Env {
    if name.None? || e.Name? then env else env[name.value := v]
  }

  function Exec(f: Frame, src: Src, gs: seq<Guard>, s: Stmt): Src
    decreases s, 1
  {
    match s
    case Return(value) => src.(ret := Some(Eval(f, src.env, gs, value)))
    case Node(name, value) =>
      var v := Eval(f, src.env, gs, value);
      src.(env := Bind(src.env, name, value, v), log := src.log + [v])
    case ThrowStmt(value) =>
      src.(log := src.log + [Meaning(f, Active(gs), Throw, false, [Eval(f, src.env, gs, value)])])
    case If(condition, ifBody, hasElse, elseBody) =>
      var c := Eval(f, src.env, gs, condition);
      var src' := ExecAll(f, src, gs + [Guard(c, true)], ifBody);
      if hasElse then ExecAll(f, src', gs + [Guard(c, false)], elseBody) else src'
  }

  function ExecAll(f: Frame, src: Src, gs: seq<Guard>, ss: seq<Stmt>): Src
    decreases ss, 0
  {
    if ss == [] then src else ExecAll(f, Exec(f, src, gs, ss[0]), gs, ss[1..])
  }

  // ---------------------------------------------------------------------------
  // Programs the lowering is right for

  /** The right operand of `??` is never a bare node name. */
  predicate Gated(e: Expr)
    decreases e, 1
  {
    match e
    case Name(_) => true
    case Apply(_, args, _, _) => GatedArgs(args)
    case OrElse(left, right) => Gated(left) && Gated(right) && !right.Name?
  }

  predicate GatedArgs(args: seq<Expr>)
    decreases args, 0
  {
    args == [] || (Gated(args[0]) && GatedArgs(args[1..]))
  }

  predicate GatedStmt(s: Stmt)
    decreases s, 1
  {
    match s
    case Return(value) => Gated(value)
    case Node(_, value) => Gated(value)
    case ThrowStmt(value) => Gated(value)
    case If(condition, ifBody, _, elseBody) => Gated(condition) && GatedStmts(ifBody) && GatedStmts(elseBody)
  }

  predicate GatedStmts(ss: seq<Stmt>)
    decreases ss, 0
  {
    ss == [] || (GatedStmt(ss[0]) && GatedStmts(ss[1..]))
  }

  /** No explicit `select`; those that `??` makes do not count. */
  predicate SelectFree(e: Expr)
    decreases e, 1
  {
    match e
    case Name(_) => true
    case Apply(op, args, _, _) => !op.Select? && SelectFreeArgs(args)
    case OrElse(left, right) => SelectFree(left) && SelectFree(right)
  }

  predicate SelectFreeArgs(args: seq<Expr>)
    decreases args, 0
  {
    args == [] || (SelectFree(args[0]) && SelectFreeArgs(args[1..]))
  }

  predicate SelectFreeStmt(s: Stmt)
    decreases s, 1
  {
    match s
    case Return(value) => SelectFree(value)
    case Node(_, value) => SelectFree(value)
    case ThrowStmt(value) => SelectFree(value)
    case If(condition, ifBody, _, elseBody) =>
      SelectFree(condition) && SelectFreeStmts(ifBody) && SelectFreeStmts(elseBody)
  }

  predicate SelectFreeStmts(ss: seq<Stmt>)
    decreases ss, 0
  {
    ss == [] || (SelectFreeStmt(ss[0]) && SelectFreeStmts(ss[1..]))
  }

  // ---------------------------------------------------------------------------
  // One pushed node

  function Gather(s: seq<Status>, edges: seq<nat>): (r: seq<Status>)
    ensures |r| == |edges| && forall i :: 0 <= i < |edges| ==> r[i] == At(s, edges[i])
  {
    if edges == [] then [] else [At(s, edges[0])] + Gather(s, edges[1..])
  }

  lemma {:induction false} FirstYieldGather(s: seq<Status>, edges: seq<nat>)
    ensures FirstYield(Gather(s, edges)) == (var v := FirstFired(s, edges); if v.Some? then Done(v) else Idle)
  {
    if edges != [] {
      FirstYieldGather(s, edges[1..]);
      assert Gather(s, edges)[1..] == Gather(s, edges[1..]);
    }
  }

  lemma {:induction false} NodeStatusMeaning(f: Frame, s: seq<Status>, n: GraphNode)
    ensures NodeStatus(f, s, n) == Meaning(f, PreHolds(s, n.pre), n.op, n.typed, Gather(s, n.inEdges))
  {
    FirstYieldGather(s, n.inEdges);
    var args := Gather(s, n.inEdges);
    assert AllFired(s, n.inEdges) <==> AllYield(args);
    if AllFired(s, n.inEdges) {
      assert Params(s, n.inEdges) == Values(args);
      assert RunNode(f, n, Values(args)) == RunNode(f, GraphNode(n.op, [], None, n.typed), Values(args));
    }
  }

  predicate Backward(n: GraphNode, k: nat) {
    (forall e <- n.inEdges :: e < k) && (n.pre.Some? ==> n.pre.value < k)
  }

  /** `s` is the in-order evaluation of a graph whose edges all point backwards. */
  ghost predicate Evaluated(f: Frame, nodes: seq<GraphNode>, s: seq<Status>) {
    Topological(nodes) && s == Statuses(f, nodes)
  }

  /** The status of a node pushed next. */
  function StatusOf(f: Frame, s: seq<Status>, n: GraphNode): Status {
    Meaning(f, PreHolds(s, n.pre), n.op, n.typed, Gather(s, n.inEdges))
  }

  /** Pushing a node adds one status and disturbs none. */
  lemma {:induction false} Pushed(f: Frame, nodes: seq<GraphNode>, s: seq<Status>, n: GraphNode)
    requires Evaluated(f, nodes, s) && Backward(n, |nodes|)
    ensures Evaluated(f, nodes + [n], s + [StatusOf(f, s, n)])
  {
    StatusesSnoc(f, nodes, n);
    NodeStatusMeaning(f, s, n);
  }

  /** A later node cannot make earlier `select`s ambiguous. */
  lemma {:induction false} PushedExclusive(nodes: seq<GraphNode>, s: seq<Status>, n: GraphNode, v: Status)
    requires |s| == |nodes| && Topological(nodes) && Backward(n, |nodes|) && SelectsExclusive(nodes, s)
    requires n.op.Select? && PreHolds(s, n.pre) ==> AtMostOneDone(s, n.inEdges)
    ensures SelectsExclusive(nodes + [n], s + [v])
  {
    var (s', nodes') := (s + [v], nodes + [n]);
    forall t | 0 <= t < |nodes'| && nodes'[t].op.Select? && PreHolds(s', nodes'[t].pre)
      ensures AtMostOneDone(s', nodes'[t].inEdges)
    {
      var edges := nodes'[t].inEdges;
      assert Backward(nodes'[t], |nodes|) by {
        if t < |nodes| { assert nodes'[t] == nodes[t]; }
      }
      forall p | 0 <= p < |edges| ensures At(s', edges[p]) == At(s, edges[p]) {
        assert edges[p] in edges;
      }
      assert PreHolds(s, nodes'[t].pre) && AtMostOneDone(s, edges);
    }
  }

  lemma {:induction false} AndMeaning(f: Frame, a: Status, b: Status)
    ensures var r := Meaning(f, true, And, true, [a, b]);
      r != Done(None) &&
      (r == Done(Some(Bool(true))) <==> a == Done(Some(Bool(true))) && b == Done(Some(Bool(true))))
  {
    var args := [a, b];
    if AllYield(args) {
      var ps := Values(args);
      assert Yields(args[0]) && Yields(args[1]);
      assert ps == [a.value.value, b.value.value];
      assert Null in ps <==> ps[0].Null? || ps[1].Null?;
    } else {
      assert Meaning(f, true, And, true, args) == Idle;
      assert !Yields(args[0]) || !Yields(args[1]);
    }
  }

  /** The status of `IsNull`, `Not` or `Nop` on one operand. */
  function UnaryStatus(on: bool, op: Op, a: Status): Status {
    if !on || !Yields(a) then Idle
    else var v := a.value.value;
         if op.IsNull? then Done(Some(Bool(v.Null?)))
         else if op.Nop? then a
         else if v.Null? then a else if v.Bool? then Done(Some(Bool(!v.b))) else Failed
  }

  lemma {:induction false} UnaryMeaning(f: Frame, on: bool, op: Op, a: Status)
    requires op.Not? || op.IsNull? || op.Nop?
    ensures Meaning(f, on, op, true, [a]) == UnaryStatus(on, op, a)
  {
    var args := [a];
    if Yields(a) {
      assert AllYield(args) && Values(args) == [a.value.value];
    } else {
      assert !Yields(args[0]);
    }
  }

  lemma {:induction false} SelectMeaning(f: Frame, on: bool, a: Status, b: Status)
    ensures Meaning(f, on, Select, true, [a, b]) == if !on then Idle else if Yields(a) then a else if Yields(b) then b else Idle
  {
    assert [a, b][1..] == [b] && [b][1..] == [];
    assert FirstYield([b]) == if Yields(b) then b else FirstYield([]);
  }

  // ---------------------------------------------------------------------------
  // The generator's invariant

  /** The innermost condition node stands for the conjunction of all enclosing guards. */
  predicate TokenOk(t: Status, gs: seq<Guard>) {
    (t == Done(Some(Bool(true))) <==> AllHold(gs)) && (t == Done(None) <==> |gs| == 1 && EffectGuard(gs[0]))
  }

  /** The statuses `s` of the graph built so far are those of the program's bindings and guards. */
  ghost predicate Agree(c: Context, s: seq<Status>, env: Env, gs: seq<Guard>) {
    |s| == |c.nodes| && env.Keys == c.names.Keys &&
    (forall x <- c.names :: c.names[x] < |s| && s[c.names[x]] == env[x]) &&
    (c.stack == [] <==> gs == []) &&
    (Top(c).Some? ==> Top(c).value < |s| && TokenOk(s[Top(c).value], gs))
  }

  /** Mentioning `Look(_)` unfolds the two predicates below; elsewhere they are atoms, which keeps proofs small. */
  predicate Look(k: int) {
    true
  }

  /** `s` is the in-order evaluation of the graph built so far, and agrees with the program so far. */
  ghost predicate Tracks(f: Frame, c: Context, s: seq<Status>, env: Env, gs: seq<Guard>) {
    forall k {:trigger Look(k)} :: Look(k) ==> Evaluated(f, c.nodes, s) && Agree(c, s, env, gs)
  }

  /** Generation only appends; if `exclusive`, it leaves no `select` with two completing candidates. */
  ghost predicate Grows(exclusive: bool, c: Context, s: seq<Status>, c': Context, s': seq<Status>) {
    forall k {:trigger Look(k)} :: Look(k) ==>
      c.nodes <= c'.nodes && s <= s' && c'.stack == c.stack && c'.output == c.output && c'.stmts == c.stmts &&
      (exclusive && SelectsExclusive(c.nodes, s) ==> SelectsExclusive(c'.nodes, s'))
  }

  lemma {:induction false} GrowsNothing(c: Context, s: seq<Status>)
    ensures Grows(true, c, s, c, s)
  {
  }

  lemma {:induction false} GrowsMore(x: bool, y: bool, c: Context, s: seq<Status>, c1: Context, s1: seq<Status>,
                                     c2: Context, s2: seq<Status>)
    requires Grows(x, c, s, c1, s1) && Grows(y, c1, s1, c2, s2)
    ensures Grows(x && y, c, s, c2, s2)
  {
    assert Look(0);
  }

  lemma {:induction false} GrowsAt(x: bool, c: Context, s: seq<Status>, c': Context, s': seq<Status>, i: nat)
    requires Grows(x, c, s, c', s') && i < |s|
    ensures i < |s'| && s'[i] == s[i]
  {
    assert Look(0);
  }

  lemma {:induction false} GrowsTop(x: bool, c: Context, s: seq<Status>, c': Context, s': seq<Status>)
    requires Grows(x, c, s, c', s')
    ensures Top(c') == Top(c)
  {
    assert Look(0);
  }

  lemma {:induction false} TracksTop(f: Frame, c: Context, s: seq<Status>, env: Env, gs: seq<Guard>)
    requires Tracks(f, c, s, env, gs)
    ensures Top(c).Some? ==> Top(c).value < |s|
  {
    assert Look(0);
  }

  lemma {:induction false} TracksSize(f: Frame, c: Context, s: seq<Status>, env: Env, gs: seq<Guard>)
    requires Tracks(f, c, s, env, gs)
    ensures |s| == |c.nodes|
  {
    assert Look(0);
  }

  lemma {:induction false} TracksEvaluated(f: Frame, c: Context, s: seq<Status>, env: Env, gs: seq<Guard>)
    requires Tracks(f, c, s, env, gs)
    ensures Evaluated(f, c.nodes, s)
  {
    assert Look(0);
  }

  lemma {:induction false} GrowsExclusive(c: Context, s: seq<Status>, c': Context, s': seq<Status>)
    requires Grows(true, c, s, c', s') && SelectsExclusive(c.nodes, s)
    ensures SelectsExclusive(c'.nodes, s')
  {
    assert Look(0);
  }

  /** A node's precondition holds iff the code around it runs. */
  lemma {:induction false} PreconditionIffActive(f: Frame, c: Context, s: seq<Status>, env: Env, gs: seq<Guard>)
    requires Tracks(f, c, s, env, gs)
    ensures PreHolds(s, Top(c)) <==> Active(gs)
  {
    assert Look(0);
    assert Agree(c, s, env, gs);
    if gs != [] { TokenActive(s[Top(c).value], gs); }
  }

  lemma {:induction false} TokenActive(t: Status, gs: seq<Guard>)
    requires gs != [] && TokenOk(t, gs)
    ensures t.Done? && Enables(t.value) <==> Active(gs)
  {
  }

  lemma {:induction false} AgreeGrow(c: Context, s: seq<Status>, c': Context, s': seq<Status>, env: Env, gs: seq<Guard>)
    requires Agree(c, s, env, gs) && s <= s' && |s'| == |c'.nodes|
    requires c'.stack == c.stack && c'.names == c.names
    ensures Agree(c', s', env, gs)
  {
  }

  lemma {:induction false} PushTracks(f: Frame, c: Context, s: seq<Status>, env: Env, gs: seq<Guard>, n: GraphNode,
                                      v: Status)
    requires Tracks(f, c, s, env, gs) && Backward(n, |c.nodes|) && v == StatusOf(f, s, n)
    requires n.op.Select? && PreHolds(s, n.pre) ==> AtMostOneDone(s, n.inEdges)
    ensures Tracks(f, Push(c, n), s + [v], env, gs) && Grows(true, c, s, Push(c, n), s + [v])
  {
    assert Look(0);
    Pushed(f, c.nodes, s, n);
    AgreeGrow(c, s, Push(c, n), s + [v], env, gs);
    if SelectsExclusive(c.nodes, s) { PushedExclusive(c.nodes, s, n, v); }
  }

  lemma {:induction false} PushUnary(f: Frame, c: Context, s: seq<Status>, env: Env, gs: seq<Guard>, op: Op, l: nat,
                                     pre: Option<nat>)
    requires Tracks(f, c, s, env, gs) && l < |s| && (pre.Some? ==> pre.value < |s|)
    requires op.Not? || op.IsNull? || op.Nop?
    ensures var n := GraphNode(op, [l], pre, true);
      var s' := s + [UnaryStatus(PreHolds(s, pre), op, s[l])];
      Tracks(f, Push(c, n), s', env, gs) && Grows(true, c, s, Push(c, n), s')
  {
    TracksSize(f, c, s, env, gs);
    assert Gather(s, [l]) == [s[l]];
    UnaryMeaning(f, PreHolds(s, pre), op, s[l]);
    PushTracks(f, c, s, env, gs, GraphNode(op, [l], pre, true), UnaryStatus(PreHolds(s, pre), op, s[l]));
  }

  // ---------------------------------------------------------------------------
  // Conditions

  /** A node's status stands for guard `g`. */
  predicate Stands(t: Status, g: Guard) {
    (t == Done(Some(Bool(true))) <==> Holds(g)) && (t == Done(None) <==> EffectGuard(g))
  }

  lemma {:induction false} AllHoldSnoc(gs: seq<Guard>, g: Guard)
    ensures AllHold(gs + [g]) <==> AllHold(gs) && Holds(g)
  {
    assert (gs + [g])[|gs|] == g;
    assert forall i :: 0 <= i < |gs| ==> (gs + [g])[i] == gs[i];
  }

  lemma {:induction false} TokenAnd(f: Frame, gs: seq<Guard>, g: Guard, t: Status, top: Status)
    requires gs != [] && TokenOk(top, gs) && Stands(t, g)
    ensures TokenOk(Meaning(f, true, And, true, [t, top]), gs + [g])
  {
    AndMeaning(f, t, top);
    AllHoldSnoc(gs, g);
  }

  lemma {:induction false} EnterTracks(f: Frame, c: Context, s: seq<Status>, env: Env, gs: seq<Guard>, t: nat, g: Guard)
    requires Tracks(f, c, s, env, gs) && t < |s| && TokenOk(s[t], gs + [g])
    ensures Tracks(f, Enter(c, t), s, env, gs + [g])
  {
    assert Look(0);
  }

  /** `generate_condition` adds one guard to the conjunction. */
  lemma {:induction false} ConditionTracks(f: Frame, c: Context, s: seq<Status>, env: Env, gs: seq<Guard>, p: nat,
                                           g: Guard)
    returns (s': seq<Status>)
    requires Tracks(f, c, s, env, gs) && p < |s| && Stands(s[p], g)
    ensures var (c', t) := Condition(c, p);
      t < |s'| && Grows(true, c, s, c', s') && Tracks(f, c', s', env, gs) && Tracks(f, Enter(c', t), s', env, gs + [g])
  {
    if c.stack == [] {
      s' := s;
      GrowsNothing(c, s);
      assert gs == [] by { assert Look(0); }
      assert gs + [g] == [g] && (AllHold([g]) <==> Holds(g)) by { AllHoldSnoc([], g); }
      EnterTracks(f, c, s, env, gs, p, g);
    } else {
      var top := c.stack[|c.stack| - 1];
      assert top < |s| == |c.nodes| && TokenOk(s[top], gs) && gs != [] by { assert Look(0); }
      var n := AndNode(p, top);
      assert Gather(s, [p, top]) == [s[p], s[top]];
      var v := Meaning(f, true, And, true, [s[p], s[top]]);
      PushTracks(f, c, s, env, gs, n, v);
      TokenAnd(f, gs, g, s[p], s[top]);
      s' := s + [v];
      EnterTracks(f, Push(c, n), s', env, gs, |c.nodes|, g);
    }
  }

  /** Leaving a branch restores the guards that were in force before it. */
  lemma {:induction false} LeaveTracks(f: Frame, x: bool, c: Context, s: seq<Status>, t: nat, c': Context,
                                       s': seq<Status>, env: Env, gs: seq<Guard>, env': Env, gs': seq<Guard>)
    requires Tracks(f, c, s, env, gs) && Tracks(f, c', s', env', gs') && Grows(x, Enter(c, t), s, c', s')
    ensures Tracks(f, Leave(c'), s', env', gs) && Grows(x, c, s, Leave(c'), s')
  {
    assert Look(0);
    assert Leave(c').stack == c.stack;
  }

  // ---------------------------------------------------------------------------
  // Expressions

  /** Code whose guards do not hold does nothing, except for naming a node. */
  lemma {:induction false} InactiveIdle(f: Frame, env: Env, gs: seq<Guard>, e: Expr)
    requires !Active(gs) && !e.Name?
    ensures Eval(f, env, gs, e) == Idle
  {
  }

  /** What `IsNull` makes of a status. */
  function NullTest(a: Status): Status {
    if Yields(a) then Done(Some(Bool(a.value.value.Null?))) else Idle
  }

  /** How `??` is put together from the statuses of its operands. */
  lemma {:induction false} OrElseValue(f: Frame, env: Env, gs: seq<Guard>, left: Expr, right: Expr, isNull: Status,
                                       b: Status, kept: Status)
    requires !right.Name?
    requires isNull == NullTest(Eval(f, env, gs, left))
    requires b == Eval(f, env, gs + [Guard(isNull, true)], right)
    requires kept == if Active(gs + [Guard(isNull, false)]) then Eval(f, env, gs, left) else Idle
    ensures Meaning(f, Active(gs), Select, true, [b, kept]) == Eval(f, env, gs, OrElse(left, right))
    ensures !(b.Done? && kept.Done?)
  {
    SelectMeaning(f, Active(gs), b, kept);
    AllHoldSnoc(gs, Guard(isNull, true));
    AllHoldSnoc(gs, Guard(isNull, false));
    if !Active(gs + [Guard(isNull, true)]) { InactiveIdle(f, env, gs + [Guard(isNull, true)], right); }
  }

  ghost predicate ExprOk(f: Frame, c: Context, s: seq<Status>, c': Context, s': seq<Status>, env: Env, gs: seq<Guard>,
                         name: Option<string>, e: Expr, i: nat) {
    var v := Eval(f, env, gs, e);
    Grows(SelectFree(e), c, s, c', s') && i < |s'| && s'[i] == v && Tracks(f, c', s', Bind(env, name, e, v), gs)
  }

  /** Pushing the node of an expression under its name. */
  lemma {:induction false} NamedPush(f: Frame, c: Context, s: seq<Status>, env: Env, gs: seq<Guard>,
                                     name: Option<string>, e: Expr, n: GraphNode, v: Status)
    requires Tracks(f, Push(c, n), s + [v], env, gs) && |s| == |c.nodes| && !e.Name? && PushNode(c, n, name).Some?
    ensures var (c', i) := PushNode(c, n, name).value;
      i == |s| && Tracks(f, c', s + [v], Bind(env, name, e, v), gs) && Grows(true, Push(c, n), s + [v], c', s + [v])
  {
    assert Look(0);
  }

  lemma {:induction false} GenExprCorrect(f: Frame, c: Context, s: seq<Status>, env: Env, gs: seq<Guard>,
                                          name: Option<string>, e: Expr)
    returns (s': seq<Status>)
    requires Tracks(f, c, s, env, gs) && Gated(e) && GenExpr(c, name, e).Some?
    ensures var (c', i) := GenExpr(c, name, e).value; ExprOk(f, c, s, c', s', env, gs, name, e, i)
    decreases e, 2
  {
    match e
    case Name(x) =>
      s' := s;
      GrowsNothing(c, s);
      assert Look(0);
    case Apply(op, args, swapped, typed) => s' := GenApplyCorrect(f, c, s, env, gs, name, e);
    case OrElse(left, right) => s' := GenOrElseCorrect(f, c, s, env, gs, name, left, right);
  }

  /** The pushed operator node has the status of the expression. */
  lemma {:induction false} ApplyStatus(f: Frame, c: Context, s: seq<Status>, env: Env, gs: seq<Guard>, e: Expr,
                                       idxs: seq<nat>, n: GraphNode)
    requires e.Apply? && Tracks(f, c, s, env, gs) && |idxs| == |e.args|
    requires forall i :: 0 <= i < |idxs| ==> idxs[i] < |s| && s[idxs[i]] == EvalArgs(f, env, gs, e.args)[i]
    requires n == GraphNode(e.op, InEdges(idxs, e.swapped), Top(c), e.typed)
    ensures StatusOf(f, s, n) == Eval(f, env, gs, e) && Backward(n, |c.nodes|)
  {
    TracksSize(f, c, s, env, gs);
    EdgesBackward(idxs, e.swapped, |c.nodes|);
    TracksTop(f, c, s, env, gs);
    PreconditionIffActive(f, c, s, env, gs);
    var vs := EvalArgs(f, env, gs, e.args);
    assert Gather(s, n.inEdges) == if e.swapped then Reverse(vs) else vs;
  }

  lemma {:induction false} GenApplyCorrect(f: Frame, c: Context, s: seq<Status>, env: Env, gs: seq<Guard>,
                                           name: Option<string>, e: Expr)
    returns (s': seq<Status>)
    requires Tracks(f, c, s, env, gs) && e.Apply? && Gated(e) && GenExpr(c, name, e).Some?
    ensures var (c', i) := GenExpr(c, name, e).value; ExprOk(f, c, s, c', s', env, gs, name, e, i)
    decreases e, 0
  {
    var s1 := GenArgsCorrect(f, c, s, env, gs, e.args);
    var (c1, idxs) := GenArgs(c, e.args).value;
    var n := GraphNode(e.op, InEdges(idxs, e.swapped), Top(c), e.typed);
    GrowsTop(SelectFreeArgs(e.args), c, s, c1, s1);
    ApplyStatus(f, c1, s1, env, gs, e, idxs, n);
    s' := GenPushCorrect(f, c, s, SelectFreeArgs(e.args), c1, s1, env, gs, name, e, n);
  }

  lemma {:induction false} GenPushCorrect(f: Frame, c: Context, s: seq<Status>, x: bool, c1: Context, s1: seq<Status>,
                                          env: Env, gs: seq<Guard>, name: Option<string>, e: Expr, n: GraphNode)
    returns (s': seq<Status>)
    requires Tracks(f, c1, s1, env, gs) && Grows(x, c, s, c1, s1) && !e.Name? && PushNode(c1, n, name).Some?
    requires Backward(n, |c1.nodes|) && StatusOf(f, s1, n) == Eval(f, env, gs, e)
    requires SelectFree(e) ==> x && (n.op.Select? && PreHolds(s1, n.pre) ==> AtMostOneDone(s1, n.inEdges))
    ensures var (c', i) := PushNode(c1, n, name).value; ExprOk(f, c, s, c', s', env, gs, name, e, i)
  {
    var v := Eval(f, env, gs, e);
    s' := s1 + [v];
    assert |s1| == |c1.nodes| && Tracks(f, Push(c1, n), s', env, gs) by {
      assert Look(0);
      Pushed(f, c1.nodes, s1, n);
      AgreeGrow(c1, s1, Push(c1, n), s', env, gs);
    }
    assert Grows(SelectFree(e), c1, s1, Push(c1, n), s') by {
      if SelectFree(e) {
        PushTracks(f, c1, s1, env, gs, n, v);
      }
    }
    NamedPush(f, c1, s1, env, gs, name, e, n, v);
    var (c', i) := PushNode(c1, n, name).value;
    GrowsMore(SelectFree(e), true, c1, s1, Push(c1, n), s', c', s');
    GrowsMore(x, SelectFree(e), c, s, c1, s1, c', s');
  }

  lemma {:induction false} EdgesBackward(idxs: seq<nat>, swapped: bool, k: nat)
    requires forall i :: 0 <= i < |idxs| ==> idxs[i] < k
    ensures forall e <- InEdges(idxs, swapped) :: e < k
  {
    var es := InEdges(idxs, swapped);
    forall e <- es ensures e < k {
      var i :| 0 <= i < |es| && es[i] == e;
    }
  }

  lemma {:induction false} GenArgsCorrect(f: Frame, c: Context, s: seq<Status>, env: Env, gs: seq<Guard>,
                                          args: seq<Expr>)
    returns (s': seq<Status>)
    requires Tracks(f, c, s, env, gs) && GatedArgs(args) && GenArgs(c, args).Some?
    ensures var (c', idxs) := GenArgs(c, args).value;
      Tracks(f, c', s', env, gs) && Grows(SelectFreeArgs(args), c, s, c', s') && |idxs| == |args| &&
      forall i :: 0 <= i < |idxs| ==> idxs[i] < |s'| && s'[idxs[i]] == EvalArgs(f, env, gs, args)[i]
    decreases args, 0
  {
    if args == [] {
      s' := s;
      GrowsNothing(c, s);
    } else {
      var s1 := GenExprCorrect(f, c, s, env, gs, None, args[0]);
      var (c1, i) := GenExpr(c, None, args[0]).value;
      s' := GenArgsCorrect(f, c1, s1, env, gs, args[1..]);
      var (c', rest) := GenArgs(c1, args[1..]).value;
      GrowsMore(SelectFree(args[0]), SelectFreeArgs(args[1..]), c, s, c1, s1, c', s');
      GrowsAt(SelectFreeArgs(args[1..]), c1, s1, c', s', i);
    }
  }

  /** The first half of `??`: the comparator, its negation, and the right operand under the first. */
  lemma {:induction false} GenOrElseCorrect(f: Frame, c: Context, s: seq<Status>, env: Env, gs: seq<Guard>,
                                            name: Option<string>, left: Expr, right: Expr)
    returns (s': seq<Status>)
    requires Tracks(f, c, s, env, gs) && Gated(OrElse(left, right)) && GenExpr(c, name, OrElse(left, right)).Some?
    ensures var (c', i) := GenExpr(c, name, OrElse(left, right)).value;
      ExprOk(f, c, s, c', s', env, gs, name, OrElse(left, right), i)
    decreases OrElse(left, right), 1
  {
    var (c', i) := GenExpr(c, name, OrElse(left, right)).value;
    var c1, s1, l := GenOrElseLeft(f, c, s, env, gs, name, left, right);
    s' := GenOrElseRest(f, c, s, c1, s1, env, gs, name, left, right, l, c', i);
  }

  lemma {:induction false} GenOrElseLeft(f: Frame, c: Context, s: seq<Status>, env: Env, gs: seq<Guard>,
                                         name: Option<string>, left: Expr, right: Expr)
    returns (c1: Context, s1: seq<Status>, l: nat)
    requires Tracks(f, c, s, env, gs) && Gated(left) && GenExpr(c, name, OrElse(left, right)).Some?
    ensures Tracks(f, c1, s1, env, gs) && Grows(SelectFree(left), c, s, c1, s1) && l < |s1| && s1[l] == Eval(f, env, gs, left)
    ensures GenRight(c1, l, right).Some? &&
      var (c5, onNull) := GenRight(c1, l, right).value;
      GenExpr(c, name, OrElse(left, right)) == KeepAndSelect(c5, name, Top(c), l, |c1.nodes| + 1, onNull)
    decreases OrElse(left, right), 0
  {
    OrElseGen(c, name, left, right);
    s1 := GenUnnamedCorrect(f, c, s, env, gs, left);
    c1, l := GenExpr(c, None, left).value.0, GenExpr(c, None, left).value.1;
  }

  /** An expression without a name binds nothing. */
  lemma {:induction false} GenUnnamedCorrect(f: Frame, c: Context, s: seq<Status>, env: Env, gs: seq<Guard>, e: Expr)
    returns (s': seq<Status>)
    requires Tracks(f, c, s, env, gs) && Gated(e) && GenExpr(c, None, e).Some?
    ensures var (c', i) := GenExpr(c, None, e).value;
      Tracks(f, c', s', env, gs) && Grows(SelectFree(e), c, s, c', s') && i < |s'| && s'[i] == Eval(f, env, gs, e)
    decreases e, 3
  {
    s' := GenExprCorrect(f, c, s, env, gs, None, e);
  }

  /** The three parts of a generated `??`. */
  lemma {:induction false} OrElseGen(c: Context, name: Option<string>, left: Expr, right: Expr)
    requires GenExpr(c, name, OrElse(left, right)).Some?
    ensures GenExpr(c, None, left).Some?
    ensures var (c1, l) := GenExpr(c, None, left).value;
      GenRight(c1, l, right).Some? &&
      var (c5, onNull) := GenRight(c1, l, right).value;
      GenExpr(c, name, OrElse(left, right)) == KeepAndSelect(c5, name, Top(c), l, |c1.nodes| + 1, onNull)
  {
  }

  lemma {:induction false} GenOrElseRest(f: Frame, c: Context, s: seq<Status>, c1: Context, s1: seq<Status>, env: Env,
                                         gs: seq<Guard>, name: Option<string>, left: Expr, right: Expr, l: nat,
                                         c': Context, i: nat)
    returns (s': seq<Status>)
    requires Tracks(f, c1, s1, env, gs) && Grows(SelectFree(left), c, s, c1, s1) && l < |s1| && s1[l] == Eval(f, env, gs, left)
    requires !right.Name? && Gated(right) && GenRight(c1, l, right).Some?
    requires var (c5, onNull) := GenRight(c1, l, right).value;
      KeepAndSelect(c5, name, Top(c), l, |c1.nodes| + 1, onNull) == Some((c', i))
    ensures ExprOk(f, c, s, c', s', env, gs, name, OrElse(left, right), i)
    decreases OrElse(left, right), 0
  {
    var s5 := GenRightCorrect(f, c1, s1, env, gs, l, right);
    var (c5, onNull) := GenRight(c1, l, right).value;
    GrowsMore(SelectFree(left), SelectFree(right), c, s, c1, s1, c5, s5);
    GrowsTop(SelectFree(left) && SelectFree(right), c, s, c5, s5);
    s' := GenKeepCorrect(f, c, s, c5, s5, env, gs, name, left, right, l, |c1.nodes| + 1, onNull);
  }

  lemma {:induction false} GenRightCorrect(f: Frame, c: Context, s: seq<Status>, env: Env, gs: seq<Guard>, l: nat,
                                           right: Expr)
    returns (s': seq<Status>)
    requires Tracks(f, c, s, env, gs) && l < |s| && Gated(right) && GenRight(c, l, right).Some?
    ensures var (c', i) := GenRight(c, l, right).value;
      Tracks(f, c', s', env, gs) && Grows(SelectFree(right), c, s, c', s') &&
      i < |s'| && s'[i] == Eval(f, env, gs + [Guard(NullTest(s[l]), true)], right) &&
      l < |s'| && s'[l] == s[l] && |c.nodes| + 1 < |s'| && s'[|c.nodes| + 1] == NegatedTest(s[l])
    decreases right, 3
  {
    TracksSize(f, c, s, env, gs);
    var s3 := GenTests(f, c, s, env, gs, l);
    var (c3, g) := (WithTests(c, l), Guard(NullTest(s[l]), true));
    var s4 := ConditionTracks(f, c3, s3, env, gs, |c.nodes|, g);
    var (c4, condition) := Condition(c3, |c.nodes|);
    s' := GenExprCorrect(f, Enter(c4, condition), s4, env, gs + [g], None, right);
    var (c5, onNull) := GenExpr(Enter(c4, condition), None, right).value;
    LeaveTracks(f, SelectFree(right), c4, s4, condition, c5, s', env, gs, env, gs + [g]);
    GrowsThrough(SelectFree(right), c, s, c3, s3, c4, s4, Leave(c5), s', l, |c.nodes| + 1);
  }

  lemma {:induction false} GrowsThrough(x: bool, c: Context, s: seq<Status>, c1: Context, s1: seq<Status>, c2: Context,
                                        s2: seq<Status>, c3: Context, s3: seq<Status>, i: nat, j: nat)
    requires Grows(true, c, s, c1, s1) && Grows(true, c1, s1, c2, s2) && Grows(x, c2, s2, c3, s3) && i < |s| && j < |s1|
    ensures Grows(x, c, s, c3, s3) && i < |s3| && s3[i] == s[i] && j < |s3| && s3[j] == s1[j]
  {
    GrowsMore(true, true, c, s, c1, s1, c2, s2);
    GrowsMore(true, x, c, s, c2, s2, c3, s3);
    GrowsMore(true, x, c1, s1, c2, s2, c3, s3);
    GrowsAt(x, c, s, c3, s3, i);
    GrowsAt(x, c1, s1, c3, s3, j);
  }

  function NegatedTest(a: Status): Status {
    if Yields(a) then Done(Some(Bool(!a.value.value.Null?))) else Idle
  }

  lemma {:induction false} GenTests(f: Frame, c: Context, s: seq<Status>, env: Env, gs: seq<Guard>, l: nat)
    returns (s': seq<Status>)
    requires Tracks(f, c, s, env, gs) && l < |s| == |c.nodes|
    ensures Tracks(f, WithTests(c, l), s', env, gs) && Grows(true, c, s, WithTests(c, l), s')
    ensures s' == s + [NullTest(s[l])] + [NegatedTest(s[l])]
  {
    var c1 := Push(c, GraphNode(IsNull, [l], None, true));
    var s1 := s + [NullTest(s[l])];
    PushUnary(f, c, s, env, gs, IsNull, l, None);
    PushUnary(f, c1, s1, env, gs, Not, |c.nodes|, None);
    s' := s1 + [NegatedTest(s[l])];
    GrowsMore(true, true, c, s, c1, s1, WithTests(c, l), s');
  }

  /** The second half of `??`: keep the left operand unless it is null, and select. */
  lemma {:induction false} GenKeepCorrect(f: Frame, c0: Context, s0: seq<Status>, c: Context, s: seq<Status>, env: Env,
                                          gs: seq<Guard>, name: Option<string>, left: Expr, right: Expr, l: nat,
                                          notComparator: nat, onNull: nat)
    returns (s': seq<Status>)
    requires !right.Name? && Tracks(f, c, s, env, gs) && Grows(SelectFree(OrElse(left, right)), c0, s0, c, s)
    requires l < |s| && notComparator < |s| && onNull < |s|
    requires s[l] == Eval(f, env, gs, left) && s[notComparator] == NegatedTest(s[l])
    requires s[onNull] == Eval(f, env, gs + [Guard(NullTest(s[l]), true)], right)
    requires KeepAndSelect(c, name, Top(c), l, notComparator, onNull).Some?
    ensures var (c', i) := KeepAndSelect(c, name, Top(c), l, notComparator, onNull).value;
      ExprOk(f, c0, s0, c', s', env, gs, name, OrElse(left, right), i)
  {
    var e := OrElse(left, right);
    var (c6, condition) := Condition(c, notComparator);
    var s7, kept := GenKept(f, c, s, env, gs, l, notComparator, onNull);
    var c7 := Push(c6, GraphNode(Nop, [l], Some(condition), true));
    GrowsMore(SelectFree(e), true, c0, s0, c, s, c7, s7);
    OrElseValue(f, env, gs, left, right, NullTest(s[l]), s[onNull], kept);
    PreconditionIffActive(f, c7, s7, env, gs);
    var choice := GraphNode(Select, [onNull, |c6.nodes|], Top(c), true);
    assert Gather(s7, choice.inEdges) == [s[onNull], kept];
    PairExclusive(s7, onNull, |c6.nodes|);
    GrowsTop(true, c, s, c7, s7);
    TracksTop(f, c7, s7, env, gs);
    s' := GenPushCorrect(f, c0, s0, SelectFree(e), c7, s7, env, gs, name, e, choice);
  }

  lemma {:induction false} PairExclusive(s: seq<Status>, a: nat, b: nat)
    requires !(At(s, a).Done? && At(s, b).Done?)
    ensures AtMostOneDone(s, [a, b])
  {
  }

  lemma {:induction false} GenKept(f: Frame, c: Context, s: seq<Status>, env: Env, gs: seq<Guard>, l: nat,
                                   notComparator: nat, onNull: nat)
    returns (s': seq<Status>, kept: Status)
    requires Tracks(f, c, s, env, gs) && l < |s| && notComparator < |s| && onNull < |s|
    requires s[notComparator] == NegatedTest(s[l])
    ensures var (c6, condition) := Condition(c, notComparator);
      var c7 := Push(c6, GraphNode(Nop, [l], Some(condition), true));
      Tracks(f, c7, s', env, gs) && Grows(true, c, s, c7, s') && onNull < |c6.nodes| && |s'| == |c6.nodes| + 1 &&
      s'[onNull] == s[onNull] && s'[|c6.nodes|] == kept
    ensures kept == if Active(gs + [Guard(NullTest(s[l]), false)]) then s[l] else Idle
  {
    var g := Guard(NullTest(s[l]), false);
    var s6 := ConditionTracks(f, c, s, env, gs, notComparator, g);
    var (c6, condition) := Condition(c, notComparator);
    GrowsAt(true, c, s, c6, s6, l);
    GrowsAt(true, c, s, c6, s6, onNull);
    PreconditionIffActive(f, Enter(c6, condition), s6, env, gs + [g]);
    TracksSize(f, c6, s6, env, gs);
    PushUnary(f, c6, s6, env, gs, Nop, l, Some(condition));
    kept := UnaryStatus(PreHolds(s6, Some(condition)), Nop, s[l]);
    s' := s6 + [kept];
    GrowsMore(true, true, c, s, c6, s6, Push(c6, GraphNode(Nop, [l], Some(condition), true)), s');
    AllHoldSnoc(gs, g);
  }
}
