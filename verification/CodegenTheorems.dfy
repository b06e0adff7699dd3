/**
 Correctness of the RefineAsm lowering for whole graphs, and what it gives to the
 scheduler: exclusive `select` candidates and backward edges.
 */
module CodegenTheorems {
  import opened Wrappers
  import opened Dataflow
  import opened Scheduler
  import opened Confluence
  import opened Codegen
  import opened CodegenCorrect

  // ---------------------------------------------------------------------------
  // Statements

  /** Bindings, return value and statement log all have the statuses the program says. */
  ghost predicate SrcOk(f: Frame, c: Context, s: seq<Status>, src: Src, gs: seq<Guard>) {
    Tracks(f, c, s, src.env, gs) && OutputOk(c, s, src) && LogOk(c, s, src)
  }

  ghost predicate OutputOk(c: Context, s: seq<Status>, src: Src) {
    (c.output.Some? <==> src.ret.Some?) &&
    (c.output.Some? ==> c.output.value < |s| && s[c.output.value] == src.ret.value)
  }

  ghost predicate LogOk(c: Context, s: seq<Status>, src: Src) {
    |c.stmts| == |src.log| && forall i :: 0 <= i < |c.stmts| ==> c.stmts[i] < |s| && s[c.stmts[i]] == src.log[i]
  }

  /** Like `Grows`, for generation that may also set the output and log statements. */
  ghost predicate Continues(exclusive: bool, c: Context, s: seq<Status>, c': Context, s': seq<Status>) {
    forall k {:trigger Look(k)} :: Look(k) ==>
      c.nodes <= c'.nodes && s <= s' && c'.stack == c.stack &&
      (exclusive && SelectsExclusive(c.nodes, s) ==> SelectsExclusive(c'.nodes, s'))
  }

  lemma {:induction false} ContinuesAt(x: bool, c: Context, s: seq<Status>, c': Context, s': seq<Status>, i: nat)
    requires Continues(x, c, s, c', s') && i < |s|
    ensures i < |s'| && s'[i] == s[i]
  {
    assert Look(0);
  }

  lemma {:induction false} ContinuesNodes(x: bool, c: Context, s: seq<Status>, c': Context, s': seq<Status>)
    requires Continues(x, c, s, c', s')
    ensures c.nodes <= c'.nodes
  {
    assert Look(0);
  }

  lemma {:induction false} ContinuesMore(x: bool, y: bool, c: Context, s: seq<Status>, c1: Context, s1: seq<Status>,
                                         c2: Context, s2: seq<Status>)
    requires Continues(x, c, s, c1, s1) && Continues(y, c1, s1, c2, s2)
    ensures Continues(x && y, c, s, c2, s2)
  {
    assert Look(0);
  }

  lemma {:induction false} GrowsContinues(x: bool, c: Context, s: seq<Status>, c': Context, s': seq<Status>)
    requires Grows(x, c, s, c', s')
    ensures Continues(x, c, s, c', s')
  {
    assert Look(0);
  }

  /** Growing the graph keeps the recorded output and statements. */
  lemma {:induction false} GrowsRecords(x: bool, c: Context, s: seq<Status>, c': Context, s': seq<Status>, src: Src)
    requires Grows(x, c, s, c', s') && OutputOk(c, s, src) && LogOk(c, s, src)
    ensures OutputOk(c', s', src) && LogOk(c', s', src)
  {
    assert Look(0);
  }

  /** Recording a node as output or statement is not generation. */
  lemma {:induction false} RecordTracks(f: Frame, c: Context, s: seq<Status>, env: Env, gs: seq<Guard>,
                                        output: Option<nat>, stmts: seq<nat>)
    requires Tracks(f, c, s, env, gs)
    ensures Tracks(f, c.(output := output, stmts := stmts), s, env, gs)
    ensures Continues(true, c, s, c.(output := output, stmts := stmts), s)
  {
    assert Look(0);
  }

  lemma {:induction false} GenStmtCorrect(f: Frame, c: Context, s: seq<Status>, src: Src, gs: seq<Guard>, stmt: Stmt)
    returns (s': seq<Status>)
    requires SrcOk(f, c, s, src, gs) && GatedStmt(stmt) && GenStmt(c, stmt).Some?
    ensures SrcOk(f, GenStmt(c, stmt).value, s', Exec(f, src, gs, stmt), gs)
    ensures Continues(SelectFreeStmt(stmt), c, s, GenStmt(c, stmt).value, s')
    decreases stmt, 1
  {
    match stmt
    case Return(value) =>
      s' := GenExprCorrect(f, c, s, src.env, gs, None, value);
      var (c1, i) := GenExpr(c, None, value).value;
      GrowsRecords(SelectFree(value), c, s, c1, s', src);
      GrowsContinues(SelectFree(value), c, s, c1, s');
      RecordTracks(f, c1, s', src.env, gs, Some(i), c1.stmts);
      ContinuesMore(SelectFree(value), true, c, s, c1, s', c1.(output := Some(i)), s');
    case Node(name, value) =>
      s' := GenExprCorrect(f, c, s, src.env, gs, name, value);
      var (c1, i) := GenExpr(c, name, value).value;
      GrowsRecords(SelectFree(value), c, s, c1, s', src);
      GrowsContinues(SelectFree(value), c, s, c1, s');
      RecordTracks(f, c1, s', Exec(f, src, gs, stmt).env, gs, c1.output, c1.stmts + [i]);
      ContinuesMore(SelectFree(value), true, c, s, c1, s', LogStmt(c1, i), s');
    case ThrowStmt(value) => s' := GenThrowCorrect(f, c, s, src, gs, value);
    case If(condition, ifBody, hasElse, elseBody) =>
      s' := GenIfCorrect(f, c, s, src, gs, condition, ifBody, hasElse, elseBody);
  }

  lemma {:induction false} GenThrowCorrect(f: Frame, c: Context, s: seq<Status>, src: Src, gs: seq<Guard>, value: Expr)
    returns (s': seq<Status>)
    requires SrcOk(f, c, s, src, gs) && Gated(value) && GenStmt(c, ThrowStmt(value)).Some?
    ensures SrcOk(f, GenStmt(c, ThrowStmt(value)).value, s', Exec(f, src, gs, ThrowStmt(value)), gs)
    ensures Continues(SelectFree(value), c, s, GenStmt(c, ThrowStmt(value)).value, s')
  {
    var s1 := GenExprCorrect(f, c, s, src.env, gs, None, value);
    var (c1, i) := GenExpr(c, None, value).value;
    var n := GraphNode(Throw, [i], Top(c1), false);
    var v := Meaning(f, Active(gs), Throw, false, [s1[i]]);
    PushThrow(f, c1, s1, src.env, gs, i);
    s' := s1 + [v];
    var c2 := Push(c1, n);
    GrowsMore(SelectFree(value), true, c, s, c1, s1, c2, s');
    GrowsRecords(SelectFree(value), c, s, c2, s', src);
    GrowsContinues(SelectFree(value), c, s, c2, s');
    RecordTracks(f, c2, s', src.env, gs, c2.output, c2.stmts + [|c1.nodes|]);
    ContinuesMore(SelectFree(value), true, c, s, c2, s', LogStmt(c2, |c1.nodes|), s');
  }

  lemma {:induction false} PushThrow(f: Frame, c: Context, s: seq<Status>, env: Env, gs: seq<Guard>, i: nat)
    requires Tracks(f, c, s, env, gs) && i < |s|
    ensures |s| == |c.nodes|
    ensures var (n, v) := (GraphNode(Throw, [i], Top(c), false), Meaning(f, Active(gs), Throw, false, [s[i]]));
      Tracks(f, Push(c, n), s + [v], env, gs) && Grows(true, c, s, Push(c, n), s + [v])
  {
    TracksSize(f, c, s, env, gs);
    TracksTop(f, c, s, env, gs);
    PreconditionIffActive(f, c, s, env, gs);
    assert Gather(s, [i]) == [s[i]];
    PushTracks(f, c, s, env, gs, GraphNode(Throw, [i], Top(c), false), Meaning(f, Active(gs), Throw, false, [s[i]]));
  }

  lemma {:induction false} GenIfCorrect(f: Frame, c: Context, s: seq<Status>, src: Src, gs: seq<Guard>, condition: Expr,
                                        ifBody: seq<Stmt>, hasElse: bool, elseBody: seq<Stmt>)
    returns (s': seq<Status>)
    requires var stmt := If(condition, ifBody, hasElse, elseBody);
      SrcOk(f, c, s, src, gs) && GatedStmt(stmt) && GenStmt(c, stmt).Some?
    ensures var stmt := If(condition, ifBody, hasElse, elseBody);
      SrcOk(f, GenStmt(c, stmt).value, s', Exec(f, src, gs, stmt), gs) &&
      Continues(SelectFreeStmt(stmt), c, s, GenStmt(c, stmt).value, s')
    decreases If(condition, ifBody, hasElse, elseBody), 0
  {
    var s1 := GenExprCorrect(f, c, s, src.env, gs, None, condition);
    var (c1, p) := GenExpr(c, None, condition).value;
    var v := s1[p];
    GrowsRecords(SelectFree(condition), c, s, c1, s1, src);
    GrowsContinues(SelectFree(condition), c, s, c1, s1);
    var s2 := GenBranchCorrect(f, c1, s1, src, gs, p, Guard(v, true), ifBody);
    var c2 := GenBranch(c1, p, ifBody).value;
    var src2 := ExecAll(f, src, gs + [Guard(v, true)], ifBody);
    ContinuesMore(SelectFree(condition), SelectFreeStmts(ifBody), c, s, c1, s1, c2, s2);
    s' := s2;
    if hasElse {
      TracksSize(f, c2, s2, src2.env, gs);
      ContinuesAt(SelectFreeStmts(ifBody), c1, s1, c2, s2, p);
      PushUnary(f, c2, s2, src2.env, gs, Not, p, None);
      var (c3, s3) := (Push(c2, GraphNode(Not, [p], None, true)), s2 + [UnaryStatus(true, Not, v)]);
      GrowsRecords(true, c2, s2, c3, s3, src2);
      GrowsContinues(true, c2, s2, c3, s3);
      s' := GenBranchCorrect(f, c3, s3, src2, gs, |c2.nodes|, Guard(v, false), elseBody);
      var c4 := GenBranch(c3, |c2.nodes|, elseBody).value;
      ContinuesMore(true, SelectFreeStmts(elseBody), c2, s2, c3, s3, c4, s');
      ContinuesMore(SelectFree(condition) && SelectFreeStmts(ifBody), SelectFreeStmts(elseBody), c, s, c2, s2, c4, s');
    }
    ContinuesLess(SelectFree(condition) && SelectFreeStmts(ifBody) && (hasElse ==> SelectFreeStmts(elseBody)),
                  SelectFreeStmt(If(condition, ifBody, hasElse, elseBody)), c, s,
                  GenStmt(c, If(condition, ifBody, hasElse, elseBody)).value, s');
  }

  lemma {:induction false} ContinuesLess(x: bool, y: bool, c: Context, s: seq<Status>, c': Context, s': seq<Status>)
    requires Continues(x, c, s, c', s') && (y ==> x)
    ensures Continues(y, c, s, c', s')
  {
    assert Look(0);
  }

  /** A branch runs under one more guard and leaves the others as they were. */
  lemma {:induction false} GenBranchCorrect(f: Frame, c: Context, s: seq<Status>, src: Src, gs: seq<Guard>, p: nat,
                                            g: Guard, body: seq<Stmt>)
    returns (s': seq<Status>)
    requires SrcOk(f, c, s, src, gs) && p < |s| && Stands(s[p], g) && GatedStmts(body) && GenBranch(c, p, body).Some?
    ensures SrcOk(f, GenBranch(c, p, body).value, s', ExecAll(f, src, gs + [g], body), gs)
    ensures Continues(SelectFreeStmts(body), c, s, GenBranch(c, p, body).value, s')
    decreases body, 1
  {
    var s1 := ConditionTracks(f, c, s, src.env, gs, p, g);
    var (c1, t) := Condition(c, p);
    GrowsRecords(true, c, s, c1, s1, src);
    GrowsContinues(true, c, s, c1, s1);
    s' := GenStmtsCorrect(f, Enter(c1, t), s1, src, gs + [g], body);
    var c2 := GenStmts(Enter(c1, t), body).value;
    LeaveSrc(f, SelectFreeStmts(body), c1, s1, t, c2, s', src.env, gs, ExecAll(f, src, gs + [g], body), gs + [g]);
    ContinuesMore(true, SelectFreeStmts(body), c, s, c1, s1, Leave(c2), s');
  }

  lemma {:induction false} LeaveSrc(f: Frame, x: bool, c: Context, s: seq<Status>, t: nat, c': Context, s': seq<Status>,
                                    env: Env, gs: seq<Guard>, src': Src, gs': seq<Guard>)
    requires Tracks(f, c, s, env, gs) && SrcOk(f, c', s', src', gs') && Continues(x, Enter(c, t), s, c', s')
    ensures SrcOk(f, Leave(c'), s', src', gs) && Continues(x, c, s, Leave(c'), s')
  {
    assert Look(0);
    assert Leave(c').stack == c.stack;
  }

  lemma {:induction false} GenStmtsCorrect(f: Frame, c: Context, s: seq<Status>, src: Src, gs: seq<Guard>,
                                           ss: seq<Stmt>)
    returns (s': seq<Status>)
    requires SrcOk(f, c, s, src, gs) && GatedStmts(ss) && GenStmts(c, ss).Some?
    ensures SrcOk(f, GenStmts(c, ss).value, s', ExecAll(f, src, gs, ss), gs)
    ensures Continues(SelectFreeStmts(ss), c, s, GenStmts(c, ss).value, s')
    decreases ss, 0
  {
    if ss == [] {
      s' := s;
    } else {
      var s1 := GenStmtCorrect(f, c, s, src, gs, ss[0]);
      var c1 := GenStmt(c, ss[0]).value;
      s' := GenStmtsCorrect(f, c1, s1, Exec(f, src, gs, ss[0]), gs, ss[1..]);
      ContinuesMore(SelectFreeStmt(ss[0]), SelectFreeStmts(ss[1..]), c, s, c1, s1, GenStmts(c1, ss[1..]).value, s');
    }
  }

  // ---------------------------------------------------------------------------
  // Whole graphs

  /** Parameter `i` is the `i`-th argument of the call. */
  function ParamEnv(f: Frame, params: seq<string>, k: nat): Env
    requires k <= |params|
  {
    if k == 0 then map[]
    else ParamEnv(f, params, k - 1)[params[k - 1] := if k - 1 < |f.params| then Done(Some(f.params[k - 1])) else Failed]
  }

  /** The meaning of a graph body on the arguments in `f`. */
  function Program(f: Frame, params: seq<string>, body: seq<Stmt>): Src {
    ExecAll(f, Src(ParamEnv(f, params, |params|), None, []), [], body)
  }

  lemma {:induction false} GenParamsCorrect(f: Frame, params: seq<string>, k: nat) returns (s: seq<Status>)
    requires k <= |params| && GenParams(params, k).Some?
    ensures SrcOk(f, GenParams(params, k).value, s, Src(ParamEnv(f, params, k), None, []), [])
    ensures SelectsExclusive(GenParams(params, k).value.nodes, s)
  {
    if k == 0 {
      s := [];
    } else {
      var s1 := GenParamsCorrect(f, params, k - 1);
      var c := GenParams(params, k - 1).value;
      var env := ParamEnv(f, params, k - 1);
      var n := GraphNode(LoadParam(k - 1), [], None, true);
      var v := if k - 1 < |f.params| then Done(Some(f.params[k - 1])) else Failed;
      LoadParamMeaning(f, k - 1);
      assert Gather(s1, []) == [];
      assert |s1| == |c.nodes| && c.stack == [] && env.Keys == c.names.Keys by { assert Look(0); }
      PushTracks(f, c, s1, env, [], n, v);
      s := s1 + [v];
      NameParam(f, Push(c, n), s, env, params[k - 1], |s1|);
      assert SelectsExclusive(Push(c, n).nodes, s) by { assert Look(0); }
    }
  }

  /** Naming the last node binds its status. */
  lemma {:induction false} NameParam(f: Frame, c: Context, s: seq<Status>, env: Env, x: string, i: nat)
    requires Tracks(f, c, s, env, []) && i < |s|
    ensures Tracks(f, c.(names := c.names[x := i]), s, env[x := s[i]], [])
  {
    assert Look(0);
    assert Agree(c.(names := c.names[x := i]), s, env[x := s[i]], []);
  }

  lemma {:induction false} LoadParamMeaning(f: Frame, i: nat)
    ensures Meaning(f, true, LoadParam(i), true, []) == if i < |f.params| then Done(Some(f.params[i])) else Failed
  {
    assert AllYield([]) && Values([]) == [];
  }

  /**
   Lowering preserves meaning. For every graph body whose `??` right operands are not bare names, the generated
   graph evaluated in order gives every named node, the returned node and every statement the status that the
   program gives them; all its edges point backwards; and without explicit `select` no `select` is ambiguous.
   */
  lemma {:induction false} LoweringPreservesMeaning(f: Frame, params: seq<string>, body: seq<Stmt>)
    requires GatedStmts(body) && GenGraph(params, body).Some?
    ensures var (c, src) := (GenGraph(params, body).value, Program(f, params, body));
      var s := Statuses(f, c.nodes);
      Topological(c.nodes) &&
      c.names.Keys == src.env.Keys && (forall x <- c.names :: At(s, c.names[x]) == src.env[x]) &&
      OutputOk(c, s, src) && LogOk(c, s, src) &&
      (SelectFreeStmts(body) ==> SelectsExclusive(c.nodes, s))
  {
    var s0 := GenParamsCorrect(f, params, |params|);
    var c0 := GenParams(params, |params|).value;
    var src0 := Src(ParamEnv(f, params, |params|), None, []);
    var s := GenStmtsCorrect(f, c0, s0, src0, [], body);
    assert Look(0);
  }

  /**
   From source to execution: a generated graph with distinct sources returns, in every completion order, the value the
   program returns, or fails in every order if some node fails.
   */
  lemma {:induction false} EveryScheduleRunsTheProgram(f: Frame, params: seq<string>, body: seq<Stmt>,
                                                       schedule: seq<nat>)
    requires GatedStmts(body) && SelectFreeStmts(body) && GenGraph(params, body).Some?
    requires var c := GenGraph(params, body).value;
      var g := Graph(c.nodes, c.output);
      WellFormed(g.nodes) && Run(f, g, schedule).Some? && Finished(Run(f, g, schedule).value)
    ensures var c := GenGraph(params, body).value;
      var (ret, st) := (Program(f, params, body).ret, Run(f, Graph(c.nodes, c.output), schedule).value);
      st.failed == GraphFails(c.nodes, Statuses(f, c.nodes)) &&
      (!st.failed ==> st.ret == if ret.Some? && ret.value.Done? then ret.value.value else None)
  {
    LoweringPreservesMeaning(f, params, body);
    var c := GenGraph(params, body).value;
    ExclusiveOrderly(c.nodes, Statuses(f, c.nodes));
    AnyScheduleRefinesInOrder(f, Graph(c.nodes, c.output), schedule);
  }
}
