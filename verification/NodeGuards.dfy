/**
 The guards of every node the RefineAsm generator pushes, read off the program text, and
 what they say about the precondition the node was given.
 */
module NodeGuards {
  import opened Wrappers
  import opened Dataflow
  import opened Scheduler
  import opened Confluence
  import opened Codegen
  import opened CodegenCorrect
  import opened CodegenTheorems

  // ---------------------------------------------------------------------------
  // Labels

  /** The guards around the code a node comes from; `None` for a node that waits for no guard. */
  type Label = Option<seq<Guard>>

  function Under(gs: seq<Guard>): Label {
    if gs == [] then None else Some(gs)
  }

  /** The conjunction node of a nested condition. */
  function AndLabel(gs: seq<Guard>): seq<Label> {
    if gs == [] then [] else [None]
  }

  /** One label for every node of an expression, in the order the nodes are pushed. */
  function ExprLabels(f: Frame, env: Env, gs: seq<Guard>, e: Expr): seq<Label>
    decreases e, 1
  {
    match e
    case Name(_) => []
    case Apply(_, args, _, _) => ArgsLabels(f, env, gs, args) + [Under(gs)]
    case OrElse(left, right) =>
      var isNull := NullTest(Eval(f, env, gs, left));
      ExprLabels(f, env, gs, left) + [None, None] +
      (AndLabel(gs) + ExprLabels(f, env, gs + [Guard(isNull, true)], right)) +
      (AndLabel(gs) + [Some(gs + [Guard(isNull, false)])]) + [Under(gs)]
  }

  function ArgsLabels(f: Frame, env: Env, gs: seq<Guard>, args: seq<Expr>): seq<Label>
    decreases args, 0
  {
    if args == [] then [] else ExprLabels(f, env, gs, args[0]) + ArgsLabels(f, env, gs, args[1..])
  }

  function StmtLabels(f: Frame, src: Src, gs: seq<Guard>, s: Stmt): seq<Label>
    decreases s, 1
  {
    match s
    case Return(value) => ExprLabels(f, src.env, gs, value)
    case Node(_, value) => ExprLabels(f, src.env, gs, value)
    case ThrowStmt(value) => ExprLabels(f, src.env, gs, value) + [Under(gs)]
    case If(condition, ifBody, hasElse, elseBody) =>
      var v := Eval(f, src.env, gs, condition);
      var taken := ExprLabels(f, src.env, gs, condition) + BranchLabels(f, src, gs, Guard(v, true), ifBody);
      if !hasElse then taken
      else taken + [None] +
           BranchLabels(f, ExecAll(f, src, gs + [Guard(v, true)], ifBody), gs, Guard(v, false), elseBody)
  }

  function BranchLabels(f: Frame, src: Src, gs: seq<Guard>, g: Guard, body: seq<Stmt>): seq<Label>
    decreases body, 1
  {
    AndLabel(gs) + StmtsLabels(f, src, gs + [g], body)
  }

  function StmtsLabels(f: Frame, src: Src, gs: seq<Guard>, ss: seq<Stmt>): seq<Label>
    decreases ss, 0
  {
    if ss == [] then [] else StmtLabels(f, src, gs, ss[0]) + StmtsLabels(f, Exec(f, src, gs, ss[0]), gs, ss[1..])
  }

  /** The parameters, and then the body. */
  function GraphLabels(f: Frame, params: seq<string>, body: seq<Stmt>): seq<Label> {
    seq(|params|, _ => None) + StmtsLabels(f, Src(ParamEnv(f, params, |params|), None, []), [], body)
  }

  // ---------------------------------------------------------------------------
  // Labelled stretches of a graph

  /** The node has a precondition iff it is labelled, and that holds iff the labelled code runs. */
  predicate LabelOk(pre: Option<nat>, s: seq<Status>, l: Label) {
    (pre.Some? <==> l.Some?) && (l.Some? ==> (PreHolds(s, pre) <==> Active(l.value)))
  }

  ghost predicate LabelsOk(f: Frame, nodes: seq<GraphNode>, nodes': seq<GraphNode>, labels: seq<Label>) {
    nodes <= nodes' && Topological(nodes') && |nodes'| == |nodes| + |labels| &&
    forall i :: |nodes| <= i < |nodes'| ==> LabelOk(nodes'[i].pre, Statuses(f, nodes'), labels[i - |nodes|])
  }

  /** An atom for `LabelsOk`, which `Look(_)` unfolds. */
  ghost predicate Labelled(f: Frame, nodes: seq<GraphNode>, nodes': seq<GraphNode>, labels: seq<Label>) {
    forall k {:trigger Look(k)} :: Look(k) ==> LabelsOk(f, nodes, nodes', labels)
  }

  lemma {:induction false} LabelsUnfold(f: Frame, nodes: seq<GraphNode>, nodes': seq<GraphNode>, labels: seq<Label>)
    requires Labelled(f, nodes, nodes', labels)
    ensures LabelsOk(f, nodes, nodes', labels)
  {
    assert Look(0);
  }

  lemma {:induction false} LabelledNothing(f: Frame, c: Context, s: seq<Status>, env: Env, gs: seq<Guard>)
    requires Tracks(f, c, s, env, gs)
    ensures Labelled(f, c.nodes, c.nodes, [])
  {
    assert Look(0);
  }

  /** More nodes change nothing about the preconditions of earlier ones. */
  lemma {:induction false} LabelKept(f: Frame, nodes: seq<GraphNode>, nodes': seq<GraphNode>, i: nat, l: Label)
    requires nodes <= nodes' && Topological(nodes') && i < |nodes| && LabelOk(nodes[i].pre, Statuses(f, nodes), l)
    ensures LabelOk(nodes'[i].pre, Statuses(f, nodes'), l)
  {
    StatusesPrefix(f, nodes', |nodes|);
    assert nodes'[..|nodes|] == nodes && nodes'[i] == nodes[i];
    var (s, s') := (Statuses(f, nodes), Statuses(f, nodes'));
    assert s == s'[..|nodes|];
    if nodes[i].pre.Some? { assert At(s, nodes[i].pre.value) == At(s', nodes[i].pre.value); }
  }

  lemma {:induction false} LabelledMore(f: Frame, nodes: seq<GraphNode>, nodes1: seq<GraphNode>, nodes2: seq<GraphNode>,
                                        one: seq<Label>, two: seq<Label>)
    requires Labelled(f, nodes, nodes1, one) && Labelled(f, nodes1, nodes2, two)
    ensures Labelled(f, nodes, nodes2, one + two)
  {
    assert Look(0);
    var (labels, s) := (one + two, Statuses(f, nodes2));
    forall i | |nodes| <= i < |nodes2| ensures LabelOk(nodes2[i].pre, s, labels[i - |nodes|]) {
      if i < |nodes1| {
        LabelKept(f, nodes1, nodes2, i, one[i - |nodes|]);
      } else {
        assert labels[i - |nodes|] == two[i - |nodes1|];
      }
    }
  }

  lemma {:induction false} LabelledPush(f: Frame, c: Context, s: seq<Status>, c': Context, s': seq<Status>, env: Env,
                                        gs: seq<Guard>, env': Env, gs': seq<Guard>, n: GraphNode, l: Label)
    requires Tracks(f, c, s, env, gs) && Tracks(f, c', s', env', gs') && c'.nodes == c.nodes + [n]
    requires LabelOk(n.pre, s, l) && (n.pre.Some? ==> n.pre.value < |s|)
    ensures Labelled(f, c.nodes, c'.nodes, [l])
  {
    assert Look(0);
    StatusesPrefix(f, c'.nodes, |c.nodes|);
    assert c'.nodes[..|c.nodes|] == c.nodes;
    if n.pre.Some? { assert At(s, n.pre.value) == At(s', n.pre.value); }
  }

  /** A node enabled by the innermost condition. */
  lemma {:induction false} UnderOk(f: Frame, c: Context, s: seq<Status>, env: Env, gs: seq<Guard>)
    requires Tracks(f, c, s, env, gs)
    ensures LabelOk(Top(c), s, Under(gs)) && (Top(c).Some? ==> Top(c).value < |s|)
  {
    PreconditionIffActive(f, c, s, env, gs);
    TracksTop(f, c, s, env, gs);
    assert Top(c).None? <==> gs == [] by { assert Look(0); }
  }

  lemma {:induction false} ConditionLabelled(f: Frame, c: Context, s: seq<Status>, c': Context, s': seq<Status>, env: Env,
                                             gs: seq<Guard>, p: nat)
    requires Tracks(f, c, s, env, gs) && c' == Condition(c, p).0 && Tracks(f, c', s', env, gs)
    ensures Labelled(f, c.nodes, c'.nodes, AndLabel(gs))
  {
    assert c.stack == [] <==> gs == [] by { assert Look(0); }
    if gs == [] {
      LabelledNothing(f, c, s, env, gs);
    } else {
      LabelledPush(f, c, s, c', s', env, gs, env, gs, AndNode(p, c.stack[|c.stack| - 1]), None);
    }
  }

  // ---------------------------------------------------------------------------
  // Expressions

  lemma {:induction false} ExprLabelled(f: Frame, c: Context, s: seq<Status>, env: Env, gs: seq<Guard>, name: Option<string>,
                                        e: Expr)
    requires Tracks(f, c, s, env, gs) && Gated(e) && GenExpr(c, name, e).Some?
    ensures Labelled(f, c.nodes, GenExpr(c, name, e).value.0.nodes, ExprLabels(f, env, gs, e))
    decreases e, 2
  {
    match e
    case Name(x) => LabelledNothing(f, c, s, env, gs);
    case Apply(op, args, swapped, typed) =>
      ArgsLabelled(f, c, s, env, gs, args);
      var s1 := GenArgsCorrect(f, c, s, env, gs, args);
      var (c1, idxs) := GenArgs(c, args).value;
      GrowsTop(SelectFreeArgs(args), c, s, c1, s1);
      UnderOk(f, c1, s1, env, gs);
      var s2 := GenExprCorrect(f, c, s, env, gs, name, e);
      var c2 := GenExpr(c, name, e).value.0;
      LabelledPush(f, c1, s1, c2, s2, env, gs, Bind(env, name, e, Eval(f, env, gs, e)), gs,
                   GraphNode(op, InEdges(idxs, swapped), Top(c), typed), Under(gs));
      LabelledMore(f, c.nodes, c1.nodes, c2.nodes, ArgsLabels(f, env, gs, args), [Under(gs)]);
    case OrElse(left, right) => OrElseLabelled(f, c, s, env, gs, name, left, right);
  }

  lemma {:induction false} ArgsLabelled(f: Frame, c: Context, s: seq<Status>, env: Env, gs: seq<Guard>, args: seq<Expr>)
    requires Tracks(f, c, s, env, gs) && GatedArgs(args) && GenArgs(c, args).Some?
    ensures Labelled(f, c.nodes, GenArgs(c, args).value.0.nodes, ArgsLabels(f, env, gs, args))
    decreases args, 0
  {
    if args == [] {
      LabelledNothing(f, c, s, env, gs);
    } else {
      ExprLabelled(f, c, s, env, gs, None, args[0]);
      var s1 := GenUnnamedCorrect(f, c, s, env, gs, args[0]);
      var c1 := GenExpr(c, None, args[0]).value.0;
      ArgsLabelled(f, c1, s1, env, gs, args[1..]);
      LabelledMore(f, c.nodes, c1.nodes, GenArgs(c1, args[1..]).value.0.nodes, ExprLabels(f, env, gs, args[0]),
                   ArgsLabels(f, env, gs, args[1..]));
    }
  }

  /** The labels of a `??` up to its right operand. */
  function TriedLabels(f: Frame, env: Env, gs: seq<Guard>, left: Expr, right: Expr): seq<Label> {
    var isNull := NullTest(Eval(f, env, gs, left));
    ExprLabels(f, env, gs, left) +
    ([None, None] + (AndLabel(gs) + ExprLabels(f, env, gs + [Guard(isNull, true)], right)))
  }

  /** And the rest. */
  function KeptLabels(gs: seq<Guard>, a: Status): seq<Label> {
    AndLabel(gs) + [Some(gs + [Guard(NullTest(a), false)])] + [Under(gs)]
  }

  lemma {:induction false} OrElseLabels(f: Frame, env: Env, gs: seq<Guard>, left: Expr, right: Expr)
    ensures ExprLabels(f, env, gs, OrElse(left, right)) ==
            TriedLabels(f, env, gs, left, right) + KeptLabels(gs, Eval(f, env, gs, left))
  {
  }

  lemma {:induction false} OrElseLabelled(f: Frame, c: Context, s: seq<Status>, env: Env, gs: seq<Guard>,
                                          name: Option<string>, left: Expr, right: Expr)
    requires Tracks(f, c, s, env, gs) && Gated(OrElse(left, right)) && GenExpr(c, name, OrElse(left, right)).Some?
    ensures Labelled(f, c.nodes, GenExpr(c, name, OrElse(left, right)).value.0.nodes,
                     ExprLabels(f, env, gs, OrElse(left, right)))
    decreases OrElse(left, right), 1
  {
    var e := OrElse(left, right);
    OrElseGen(c, name, left, right);
    var (c1, l) := GenExpr(c, None, left).value;
    var (c5, onNull) := GenRight(c1, l, right).value;
    var s5 := TriedLabelled(f, c, s, env, gs, left, right);
    var s' := GenExprCorrect(f, c, s, env, gs, name, e);
    var c' := GenExpr(c, name, e).value.0;
    KeepLabelled(f, c5, s5, c', s', env, gs, Bind(env, name, e, Eval(f, env, gs, e)), name, l, |c1.nodes| + 1, onNull);
    LabelledMore(f, c.nodes, c5.nodes, c'.nodes, TriedLabels(f, env, gs, left, right),
                 KeptLabels(gs, Eval(f, env, gs, left)));
    OrElseLabels(f, env, gs, left, right);
  }

  lemma {:induction false} TriedLabelled(f: Frame, c: Context, s: seq<Status>, env: Env, gs: seq<Guard>, left: Expr,
                                         right: Expr)
    returns (s5: seq<Status>)
    requires Tracks(f, c, s, env, gs) && Gated(left) && Gated(right) && GenExpr(c, None, left).Some?
    requires var (c1, l) := GenExpr(c, None, left).value; GenRight(c1, l, right).Some?
    ensures var (c1, l) := GenExpr(c, None, left).value;
      var (c5, onNull) := GenRight(c1, l, right).value;
      Tracks(f, c5, s5, env, gs) && Top(c5) == Top(c) && l < |s5| && s5[l] == Eval(f, env, gs, left) &&
      |c1.nodes| + 1 < |s5| && s5[|c1.nodes| + 1] == NegatedTest(s5[l]) && onNull < |s5| &&
      Labelled(f, c.nodes, c5.nodes, TriedLabels(f, env, gs, left, right))
    decreases OrElse(left, right), 0
  {
    ExprLabelled(f, c, s, env, gs, None, left);
    var s1 := GenUnnamedCorrect(f, c, s, env, gs, left);
    var (c1, l) := GenExpr(c, None, left).value;
    GrowsTop(SelectFree(left), c, s, c1, s1);
    RightLabelled(f, c1, s1, env, gs, l, right);
    s5 := GenRightCorrect(f, c1, s1, env, gs, l, right);
    var c5 := GenRight(c1, l, right).value.0;
    GrowsTop(SelectFree(right), c1, s1, c5, s5);
    LabelledMore(f, c.nodes, c1.nodes, c5.nodes, ExprLabels(f, env, gs, left),
                 [None, None] + (AndLabel(gs) + ExprLabels(f, env, gs + [Guard(NullTest(s1[l]), true)], right)));
  }

  /** The two test nodes of a `??` wait for nothing; its right operand waits for the null test too. */
  lemma {:induction false} RightLabelled(f: Frame, c: Context, s: seq<Status>, env: Env, gs: seq<Guard>, l: nat, right: Expr)
    requires Tracks(f, c, s, env, gs) && l < |s| && Gated(right) && GenRight(c, l, right).Some?
    ensures Labelled(f, c.nodes, GenRight(c, l, right).value.0.nodes,
                     [None, None] + (AndLabel(gs) + ExprLabels(f, env, gs + [Guard(NullTest(s[l]), true)], right)))
    decreases right, 3
  {
    TracksSize(f, c, s, env, gs);
    var s3 := GenTests(f, c, s, env, gs, l);
    var (c3, g) := (WithTests(c, l), Guard(NullTest(s[l]), true));
    TestsLabelled(f, c, s, env, gs, l, s3);
    var s4 := ConditionTracks(f, c3, s3, env, gs, |c.nodes|, g);
    var (c4, condition) := Condition(c3, |c.nodes|);
    ConditionLabelled(f, c3, s3, c4, s4, env, gs, |c.nodes|);
    ExprLabelled(f, Enter(c4, condition), s4, env, gs + [g], None, right);
    var c5 := GenExpr(Enter(c4, condition), None, right).value.0;
    LabelledMore(f, c3.nodes, c4.nodes, c5.nodes, AndLabel(gs), ExprLabels(f, env, gs + [g], right));
    LabelledMore(f, c.nodes, c3.nodes, c5.nodes, [None, None], AndLabel(gs) + ExprLabels(f, env, gs + [g], right));
  }

  lemma {:induction false} TestsLabelled(f: Frame, c: Context, s: seq<Status>, env: Env, gs: seq<Guard>, l: nat,
                                         s': seq<Status>)
    requires Tracks(f, c, s, env, gs) && l < |s| && Tracks(f, WithTests(c, l), s', env, gs)
    ensures Labelled(f, c.nodes, WithTests(c, l).nodes, [None, None])
  {
    PushUnary(f, c, s, env, gs, IsNull, l, None);
    var (n, s1) := (GraphNode(IsNull, [l], None, true), s + [UnaryStatus(true, IsNull, s[l])]);
    LabelledPush(f, c, s, Push(c, n), s1, env, gs, env, gs, n, None);
    LabelledPush(f, Push(c, n), s1, WithTests(c, l), s', env, gs, env, gs, GraphNode(Not, [|c.nodes|], None, true), None);
    var free: seq<Label> := [None];
    LabelledMore(f, c.nodes, Push(c, n).nodes, WithTests(c, l).nodes, free, free);
    assert free + free == [None, None];
  }

  /** The kept left operand waits for the negated test; the `select` is where the whole expression is. */
  lemma {:induction false} KeepLabelled(f: Frame, c: Context, s: seq<Status>, c': Context, s': seq<Status>, env: Env,
                                        gs: seq<Guard>, env': Env, name: Option<string>, l: nat, notComparator: nat,
                                        onNull: nat)
    requires Tracks(f, c, s, env, gs) && l < |s| && notComparator < |s| && onNull < |s|
    requires s[notComparator] == NegatedTest(s[l]) && Tracks(f, c', s', env', gs)
    requires KeepAndSelect(c, name, Top(c), l, notComparator, onNull).Some?
    requires KeepAndSelect(c, name, Top(c), l, notComparator, onNull).value.0 == c'
    ensures Labelled(f, c.nodes, c'.nodes, KeptLabels(gs, s[l]))
  {
    var g := Guard(NullTest(s[l]), false);
    var s6 := ConditionTracks(f, c, s, env, gs, notComparator, g);
    var (c6, condition) := Condition(c, notComparator);
    ConditionLabelled(f, c, s, c6, s6, env, gs, notComparator);
    UnderOk(f, Enter(c6, condition), s6, env, gs + [g]);
    var s7, kept := GenKept(f, c, s, env, gs, l, notComparator, onNull);
    var n := GraphNode(Nop, [l], Some(condition), true);
    var c7 := Push(c6, n);
    LabelledPush(f, c6, s6, c7, s7, env, gs, env, gs, n, Some(gs + [g]));
    LabelledMore(f, c.nodes, c6.nodes, c7.nodes, AndLabel(gs), [Some(gs + [g])]);
    GrowsTop(true, c, s, c7, s7);
    UnderOk(f, c7, s7, env, gs);
    LabelledPush(f, c7, s7, c', s', env, gs, env', gs, GraphNode(Select, [onNull, |c6.nodes|], Top(c), true), Under(gs));
    LabelledMore(f, c.nodes, c7.nodes, c'.nodes, AndLabel(gs) + [Some(gs + [g])], [Under(gs)]);
  }

  // ---------------------------------------------------------------------------
  // Statements

  lemma {:induction false} StmtLabelled(f: Frame, c: Context, s: seq<Status>, src: Src, gs: seq<Guard>, stmt: Stmt)
    requires SrcOk(f, c, s, src, gs) && GatedStmt(stmt) && GenStmt(c, stmt).Some?
    ensures Labelled(f, c.nodes, GenStmt(c, stmt).value.nodes, StmtLabels(f, src, gs, stmt))
    decreases stmt, 1
  {
    match stmt
    case Return(value) => ExprLabelled(f, c, s, src.env, gs, None, value);
    case Node(name, value) => ExprLabelled(f, c, s, src.env, gs, name, value);
    case ThrowStmt(value) =>
      ExprLabelled(f, c, s, src.env, gs, None, value);
      var s1 := GenUnnamedCorrect(f, c, s, src.env, gs, value);
      var (c1, i) := GenExpr(c, None, value).value;
      UnderOk(f, c1, s1, src.env, gs);
      PushThrow(f, c1, s1, src.env, gs, i);
      var n := GraphNode(Throw, [i], Top(c1), false);
      LabelledPush(f, c1, s1, Push(c1, n), s1 + [Meaning(f, Active(gs), Throw, false, [s1[i]])], src.env, gs, src.env, gs, n,
                   Under(gs));
      LabelledMore(f, c.nodes, c1.nodes, Push(c1, n).nodes, ExprLabels(f, src.env, gs, value), [Under(gs)]);
    case If(condition, ifBody, hasElse, elseBody) =>
      IfLabelled(f, c, s, src, gs, condition, ifBody, hasElse, elseBody);
  }

  lemma {:induction false} IfLabelled(f: Frame, c: Context, s: seq<Status>, src: Src, gs: seq<Guard>, condition: Expr,
                                      ifBody: seq<Stmt>, hasElse: bool, elseBody: seq<Stmt>)
    requires var stmt := If(condition, ifBody, hasElse, elseBody);
      SrcOk(f, c, s, src, gs) && GatedStmt(stmt) && GenStmt(c, stmt).Some?
    ensures var stmt := If(condition, ifBody, hasElse, elseBody);
      Labelled(f, c.nodes, GenStmt(c, stmt).value.nodes, StmtLabels(f, src, gs, stmt))
    decreases If(condition, ifBody, hasElse, elseBody), 0
  {
    ExprLabelled(f, c, s, src.env, gs, None, condition);
    var c1, s1, p, c2, s2 := TakenTracks(f, c, s, src, gs, condition, ifBody);
    var v := Eval(f, src.env, gs, condition);
    BranchLabelled(f, c1, s1, src, gs, p, Guard(v, true), ifBody);
    var taken := BranchLabels(f, src, gs, Guard(v, true), ifBody);
    LabelledMore(f, c.nodes, c1.nodes, c2.nodes, ExprLabels(f, src.env, gs, condition), taken);
    if hasElse {
      var src2 := ExecAll(f, src, gs + [Guard(v, true)], ifBody);
      ElseLabelled(f, c2, s2, src2, gs, p, v, elseBody);
      var c3 := Push(c2, GraphNode(Not, [p], None, true));
      var other := [None] + BranchLabels(f, src2, gs, Guard(v, false), elseBody);
      var c4 := GenBranch(c3, |c2.nodes|, elseBody).value;
      LabelledMore(f, c.nodes, c2.nodes, c4.nodes, ExprLabels(f, src.env, gs, condition) + taken, other);
      assert ExprLabels(f, src.env, gs, condition) + taken + other ==
             StmtLabels(f, src, gs, If(condition, ifBody, hasElse, elseBody));
    }
  }

  /** The contexts between the parts of an `if`. */
  lemma {:induction false} TakenTracks(f: Frame, c: Context, s: seq<Status>, src: Src, gs: seq<Guard>, condition: Expr,
                                       ifBody: seq<Stmt>)
    returns (c1: Context, s1: seq<Status>, p: nat, c2: Context, s2: seq<Status>)
    requires SrcOk(f, c, s, src, gs) && Gated(condition) && GatedStmts(ifBody) && GenExpr(c, None, condition).Some?
    requires var (c1, p) := GenExpr(c, None, condition).value; GenBranch(c1, p, ifBody).Some?
    ensures GenExpr(c, None, condition) == Some((c1, p)) && GenBranch(c1, p, ifBody) == Some(c2)
    ensures SrcOk(f, c1, s1, src, gs) && p < |s1| && s1[p] == Eval(f, src.env, gs, condition)
    ensures SrcOk(f, c2, s2, ExecAll(f, src, gs + [Guard(s1[p], true)], ifBody), gs) && p < |s2| && s2[p] == s1[p]
  {
    s1 := GenUnnamedCorrect(f, c, s, src.env, gs, condition);
    c1, p := GenExpr(c, None, condition).value.0, GenExpr(c, None, condition).value.1;
    GrowsRecords(SelectFree(condition), c, s, c1, s1, src);
    s2 := GenBranchCorrect(f, c1, s1, src, gs, p, Guard(s1[p], true), ifBody);
    c2 := GenBranch(c1, p, ifBody).value;
    ContinuesAt(SelectFreeStmts(ifBody), c1, s1, c2, s2, p);
  }

  lemma {:induction false} NegatedTracks(f: Frame, c: Context, s: seq<Status>, src: Src, gs: seq<Guard>, p: nat)
    returns (s': seq<Status>)
    requires SrcOk(f, c, s, src, gs) && p < |s|
    ensures SrcOk(f, Push(c, GraphNode(Not, [p], None, true)), s', src, gs)
    ensures |s| == |c.nodes| && s' == s + [UnaryStatus(true, Not, s[p])] && Stands(s'[|s|], Guard(s[p], false))
  {
    TracksSize(f, c, s, src.env, gs);
    PushUnary(f, c, s, src.env, gs, Not, p, None);
    s' := s + [UnaryStatus(true, Not, s[p])];
    GrowsRecords(true, c, s, Push(c, GraphNode(Not, [p], None, true)), s', src);
  }

  lemma {:induction false} ElseLabelled(f: Frame, c: Context, s: seq<Status>, src: Src, gs: seq<Guard>, p: nat, v: Status,
                                        body: seq<Stmt>)
    requires SrcOk(f, c, s, src, gs) && p < |s| && s[p] == v && GatedStmts(body)
    requires GenBranch(Push(c, GraphNode(Not, [p], None, true)), |c.nodes|, body).Some?
    ensures Labelled(f, c.nodes, GenBranch(Push(c, GraphNode(Not, [p], None, true)), |c.nodes|, body).value.nodes,
                     [None] + BranchLabels(f, src, gs, Guard(v, false), body))
    decreases body, 2
  {
    var s3 := NegatedTracks(f, c, s, src, gs, p);
    var n := GraphNode(Not, [p], None, true);
    var c3 := Push(c, n);
    LabelledPush(f, c, s, c3, s3, src.env, gs, src.env, gs, n, None);
    BranchLabelled(f, c3, s3, src, gs, |c.nodes|, Guard(v, false), body);
    LabelledMore(f, c.nodes, c3.nodes, GenBranch(c3, |c.nodes|, body).value.nodes, [None],
                 BranchLabels(f, src, gs, Guard(v, false), body));
  }

  lemma {:induction false} BranchLabelled(f: Frame, c: Context, s: seq<Status>, src: Src, gs: seq<Guard>, p: nat, g: Guard,
                                          body: seq<Stmt>)
    requires SrcOk(f, c, s, src, gs) && p < |s| && Stands(s[p], g) && GatedStmts(body) && GenBranch(c, p, body).Some?
    ensures Labelled(f, c.nodes, GenBranch(c, p, body).value.nodes, BranchLabels(f, src, gs, g, body))
    decreases body, 1
  {
    var s1 := ConditionTracks(f, c, s, src.env, gs, p, g);
    var (c1, t) := Condition(c, p);
    ConditionLabelled(f, c, s, c1, s1, src.env, gs, p);
    GrowsRecords(true, c, s, c1, s1, src);
    StmtsLabelled(f, Enter(c1, t), s1, src, gs + [g], body);
    LabelledMore(f, c.nodes, c1.nodes, GenStmts(Enter(c1, t), body).value.nodes, AndLabel(gs),
                 StmtsLabels(f, src, gs + [g], body));
  }

  lemma {:induction false} StmtsLabelled(f: Frame, c: Context, s: seq<Status>, src: Src, gs: seq<Guard>, ss: seq<Stmt>)
    requires SrcOk(f, c, s, src, gs) && GatedStmts(ss) && GenStmts(c, ss).Some?
    ensures Labelled(f, c.nodes, GenStmts(c, ss).value.nodes, StmtsLabels(f, src, gs, ss))
    decreases ss, 0
  {
    if ss == [] {
      LabelledNothing(f, c, s, src.env, gs);
    } else {
      StmtLabelled(f, c, s, src, gs, ss[0]);
      var s1 := GenStmtCorrect(f, c, s, src, gs, ss[0]);
      var (c1, src1) := (GenStmt(c, ss[0]).value, Exec(f, src, gs, ss[0]));
      StmtsLabelled(f, c1, s1, src1, gs, ss[1..]);
      LabelledMore(f, c.nodes, c1.nodes, GenStmts(c1, ss[1..]).value.nodes, StmtLabels(f, src, gs, ss[0]),
                   StmtsLabels(f, src1, gs, ss[1..]));
    }
  }

  // ---------------------------------------------------------------------------
  // Whole graphs

  lemma {:induction false} ParamsFree(params: seq<string>, k: nat)
    requires k <= |params| && GenParams(params, k).Some?
    ensures |GenParams(params, k).value.nodes| == k
    ensures forall i :: 0 <= i < k ==> GenParams(params, k).value.nodes[i].pre.None?
  {
    if k > 0 { ParamsFree(params, k - 1); }
  }

  /**
   Every node of a generated graph has a precondition if and only if its label names guards, and that precondition
   holds if and only if the code it comes from runs: every enclosing `if` condition fired true and every enclosing
   `else` condition fired false.
   */
  lemma {:induction false} EveryNodeGuarded(f: Frame, params: seq<string>, body: seq<Stmt>)
    requires GatedStmts(body) && GenGraph(params, body).Some?
    ensures var (nodes, labels) := (GenGraph(params, body).value.nodes, GraphLabels(f, params, body));
      |nodes| == |labels| && forall i :: 0 <= i < |nodes| ==> LabelOk(nodes[i].pre, Statuses(f, nodes), labels[i])
  {
    BodyGuarded(f, params, body);
    ParamsFree(params, |params|);
    var (c0, nodes) := (GenParams(params, |params|).value, GenGraph(params, body).value.nodes);
    ParamsThenBody(f, c0.nodes, nodes, StmtsLabels(f, Src(ParamEnv(f, params, |params|), None, []), [], body));
  }

  lemma {:induction false} BodyGuarded(f: Frame, params: seq<string>, body: seq<Stmt>)
    requires GatedStmts(body) && GenGraph(params, body).Some?
    ensures GenParams(params, |params|).Some?
    ensures LabelsOk(f, GenParams(params, |params|).value.nodes, GenGraph(params, body).value.nodes,
                     StmtsLabels(f, Src(ParamEnv(f, params, |params|), None, []), [], body))
  {
    var s0 := GenParamsCorrect(f, params, |params|);
    var c0 := GenParams(params, |params|).value;
    var src0 := Src(ParamEnv(f, params, |params|), None, []);
    StmtsLabelled(f, c0, s0, src0, [], body);
    LabelsUnfold(f, c0.nodes, GenGraph(params, body).value.nodes, StmtsLabels(f, src0, [], body));
  }

  lemma {:induction false} ParamsThenBody(f: Frame, params: seq<GraphNode>, nodes: seq<GraphNode>, labels: seq<Label>)
    requires LabelsOk(f, params, nodes, labels) && forall i :: 0 <= i < |params| ==> params[i].pre.None?
    ensures var all := seq(|params|, _ => None) + labels;
      |nodes| == |all| && forall i :: 0 <= i < |nodes| ==> LabelOk(nodes[i].pre, Statuses(f, nodes), all[i])
  {
    var all := seq(|params|, _ => None) + labels;
    forall i | 0 <= i < |nodes| ensures LabelOk(nodes[i].pre, Statuses(f, nodes), all[i]) {
      if i < |params| { assert nodes[i] == params[i]; } else { assert all[i] == labels[i - |params|]; }
    }
  }

  // ---------------------------------------------------------------------------
  // Branches

  /** Every guarded node is at least under `gs`. */
  predicate AllUnder(gs: seq<Guard>, labels: seq<Label>) {
    forall i :: 0 <= i < |labels| && labels[i].Some? ==> gs <= labels[i].value
  }

  lemma {:induction false} AllUnderMore(gs: seq<Guard>, one: seq<Label>, two: seq<Label>)
    requires AllUnder(gs, one) && AllUnder(gs, two)
    ensures AllUnder(gs, one + two)
  {
  }

  lemma {:induction false} AllUnderOuter(gs: seq<Guard>, g: Guard, labels: seq<Label>)
    requires AllUnder(gs + [g], labels)
    ensures AllUnder(gs, labels)
  {
    forall i | 0 <= i < |labels| && labels[i].Some? ensures gs <= labels[i].value {
      assert gs + [g] <= labels[i].value;
    }
  }

  lemma {:induction false} ExprUnder(f: Frame, env: Env, gs: seq<Guard>, e: Expr)
    ensures AllUnder(gs, ExprLabels(f, env, gs, e))
    decreases e, 1
  {
    match e
    case Name(_) =>
    case Apply(_, args, _, _) => ArgsUnder(f, env, gs, args);
    case OrElse(left, right) =>
      var g := Guard(NullTest(Eval(f, env, gs, left)), true);
      ExprUnder(f, env, gs, left);
      ExprUnder(f, env, gs + [g], right);
      AllUnderOuter(gs, g, ExprLabels(f, env, gs + [g], right));
  }

  lemma {:induction false} ArgsUnder(f: Frame, env: Env, gs: seq<Guard>, args: seq<Expr>)
    ensures AllUnder(gs, ArgsLabels(f, env, gs, args))
    decreases args, 0
  {
    if args != [] {
      ExprUnder(f, env, gs, args[0]);
      ArgsUnder(f, env, gs, args[1..]);
    }
  }

  lemma {:induction false} StmtUnder(f: Frame, src: Src, gs: seq<Guard>, s: Stmt)
    ensures AllUnder(gs, StmtLabels(f, src, gs, s))
    decreases s, 1
  {
    match s
    case Return(value) => ExprUnder(f, src.env, gs, value);
    case Node(_, value) => ExprUnder(f, src.env, gs, value);
    case ThrowStmt(value) => ExprUnder(f, src.env, gs, value);
    case If(condition, ifBody, hasElse, elseBody) =>
      var v := Eval(f, src.env, gs, condition);
      var src2 := ExecAll(f, src, gs + [Guard(v, true)], ifBody);
      ExprUnder(f, src.env, gs, condition);
      BranchUnder(f, src, gs, Guard(v, true), ifBody);
      AllUnderOuter(gs, Guard(v, true), BranchLabels(f, src, gs, Guard(v, true), ifBody));
      BranchUnder(f, src2, gs, Guard(v, false), elseBody);
      AllUnderOuter(gs, Guard(v, false), BranchLabels(f, src2, gs, Guard(v, false), elseBody));
  }

  lemma {:induction false} BranchUnder(f: Frame, src: Src, gs: seq<Guard>, g: Guard, body: seq<Stmt>)
    ensures AllUnder(gs + [g], BranchLabels(f, src, gs, g, body))
    decreases body, 1
  {
    StmtsUnder(f, src, gs + [g], body);
  }

  lemma {:induction false} StmtsUnder(f: Frame, src: Src, gs: seq<Guard>, ss: seq<Stmt>)
    ensures AllUnder(gs, StmtsLabels(f, src, gs, ss))
    decreases ss, 0
  {
    if ss != [] {
      StmtUnder(f, src, gs, ss[0]);
      StmtsUnder(f, Exec(f, src, gs, ss[0]), gs, ss[1..]);
      AllUnderMore(gs, StmtLabels(f, src, gs, ss[0]), StmtsLabels(f, Exec(f, src, gs, ss[0]), gs, ss[1..]));
    }
  }

  /** Code under a condition and code under its negation do not both run. */
  lemma {:induction false} GuardsExclude(gs: seq<Guard>, v: Status, one: seq<Guard>, two: seq<Guard>)
    requires gs + [Guard(v, true)] <= one && gs + [Guard(v, false)] <= two
    ensures !(Active(one) && Active(two))
  {
    assert one[|gs|] == Guard(v, true) && two[|gs|] == Guard(v, false);
    assert AllHold(one) ==> Holds(one[|gs|]);
    assert AllHold(two) ==> Holds(two[|gs|]);
  }

  /** Where the nodes of an `if` with an `else` are: its branches are on the two sides of the negation. */
  datatype Branches = Branches(first: nat, notNode: nat, end: nat)

  function BranchesOf(c: Context, condition: Expr, ifBody: seq<Stmt>, elseBody: seq<Stmt>): Branches
    requires GenStmt(c, If(condition, ifBody, true, elseBody)).Some?
  {
    var (c1, p) := GenExpr(c, None, condition).value;
    Branches(|c1.nodes|, |GenBranch(c1, p, ifBody).value.nodes|,
             |GenStmt(c, If(condition, ifBody, true, elseBody)).value.nodes|)
  }

  /**
   The two branches of one `if`, wherever it stands and whatever they contain: of a node pushed for the one and a node
   pushed for the other, both with a precondition, at most one does anything in any graph that goes on from there.
   */
  lemma {:induction false} OppositeBranchesExclude(f: Frame, c: Context, s: seq<Status>, src: Src, gs: seq<Guard>,
                                                   condition: Expr, ifBody: seq<Stmt>, elseBody: seq<Stmt>,
                                                   nodes: seq<GraphNode>, i: nat, j: nat)
    requires var stmt := If(condition, ifBody, true, elseBody);
      SrcOk(f, c, s, src, gs) && GatedStmt(stmt) && GenStmt(c, stmt).Some? && GenStmt(c, stmt).value.nodes <= nodes &&
      Topological(nodes)
    requires var b := BranchesOf(c, condition, ifBody, elseBody); b.first <= i < b.notNode < j < b.end <= |nodes|
    requires nodes[i].pre.Some? && nodes[j].pre.Some?
    ensures Statuses(f, nodes)[i] == Idle || Statuses(f, nodes)[j] == Idle
  {
    var c1, s1, p, c2, s2 := TakenTracks(f, c, s, src, gs, condition, ifBody);
    var v := Eval(f, src.env, gs, condition);
    var src2 := ExecAll(f, src, gs + [Guard(v, true)], ifBody);
    var s3 := NegatedTracks(f, c2, s2, src2, gs, p);
    var c3 := Push(c2, GraphNode(Not, [p], None, true));
    assert c2.nodes <= nodes by {
      var s4 := GenBranchCorrect(f, c3, s3, src2, gs, |c2.nodes|, Guard(v, false), elseBody);
      ContinuesNodes(SelectFreeStmts(elseBody), c3, s3, GenBranch(c3, |c2.nodes|, elseBody).value, s4);
    }
    BranchLabelled(f, c1, s1, src, gs, p, Guard(v, true), ifBody);
    BranchUnder(f, src, gs, Guard(v, true), ifBody);
    var one := GuardedNode(f, c1.nodes, c2.nodes, BranchLabels(f, src, gs, Guard(v, true), ifBody),
                           gs + [Guard(v, true)], nodes, i);
    BranchLabelled(f, c3, s3, src2, gs, |c2.nodes|, Guard(v, false), elseBody);
    BranchUnder(f, src2, gs, Guard(v, false), elseBody);
    var two := GuardedNode(f, c3.nodes, GenBranch(c3, |c2.nodes|, elseBody).value.nodes,
                           BranchLabels(f, src2, gs, Guard(v, false), elseBody), gs + [Guard(v, false)], nodes, j);
    GuardsExclude(gs, v, one, two);
  }

  /** A node whose guards do not hold stays idle. */
  lemma {:induction false} GuardedNode(f: Frame, from: seq<GraphNode>, to: seq<GraphNode>, labels: seq<Label>,
                                       gs: seq<Guard>, nodes: seq<GraphNode>, i: nat)
    returns (own: seq<Guard>)
    requires Labelled(f, from, to, labels) && AllUnder(gs, labels) && to <= nodes && Topological(nodes)
    requires |from| <= i < |to| && nodes[i].pre.Some?
    ensures gs <= own && (!Active(own) ==> Statuses(f, nodes)[i] == Idle)
  {
    LabelsUnfold(f, from, to, labels);
    assert to[i] == nodes[i];
    var l := labels[i - |from|];
    own := l.value;
    LabelKept(f, to, nodes, i, l);
    StatusEquation(f, nodes, i);
  }

  /** And so no completion order runs both. */
  lemma {:induction false} NoRunTakesBothBranches(f: Frame, c: Context, s: seq<Status>, src: Src, gs: seq<Guard>,
                                                  condition: Expr, ifBody: seq<Stmt>, elseBody: seq<Stmt>, g: Graph,
                                                  schedule: seq<nat>, i: nat, j: nat)
    requires var stmt := If(condition, ifBody, true, elseBody);
      SrcOk(f, c, s, src, gs) && GatedStmt(stmt) && GenStmt(c, stmt).Some? && GenStmt(c, stmt).value.nodes <= g.nodes
    requires Deterministic(f, g) && Run(f, g, schedule).Some? && !Run(f, g, schedule).value.failed
    requires var b := BranchesOf(c, condition, ifBody, elseBody); b.first <= i < b.notNode < j < b.end <= |g.nodes|
    requires g.nodes[i].pre.Some? && g.nodes[j].pre.Some?
    ensures !(i in Run(f, g, schedule).value.done && j in Run(f, g, schedule).value.done)
  {
    OppositeBranchesExclude(f, c, s, src, gs, condition, ifBody, elseBody, g.nodes, i, j);
    AnyScheduleRefinesInOrder(f, g, schedule);
  }

  /**
   The exception: the null test of a `??` has no precondition, so two such tests on a node `x` from outside, in opposite
   branches of any `if`, both run whenever `x` yields something.
   */
  lemma {:induction false} NullTestsIgnoreBranches(f: Frame, c: Context, s: seq<Status>, src: Src, gs: seq<Guard>,
                                                   condition: Expr, x: string, one: Expr, two: Expr)
    returns (i: nat, j: nat)
    requires SrcOk(f, c, s, src, gs) && x in src.env && Yields(src.env[x]) && Gated(condition)
    requires Gated(one) && Gated(two) && !one.Name? && !two.Name?
    requires GenStmt(c, If(condition, [Node(None, OrElse(Name(x), one))], true, [Node(None, OrElse(Name(x), two))])).Some?
    ensures var (ifBody, elseBody) := ([Node(None, OrElse(Name(x), one))], [Node(None, OrElse(Name(x), two))]);
      var (c', b) := (GenStmt(c, If(condition, ifBody, true, elseBody)).value, BranchesOf(c, condition, ifBody, elseBody));
      b.first <= i < b.notNode < j < b.end <= |c'.nodes| &&
      Statuses(f, c'.nodes)[i].Done? && Statuses(f, c'.nodes)[j].Done?
  {
    var (ifBody, elseBody) := ([Node(None, OrElse(Name(x), one))], [Node(None, OrElse(Name(x), two))]);
    TestBody(f, c, src, gs, x, one);
    TestBody(f, c, src, gs, x, two);
    var c1, s1, p, c2, s2 := TakenTracks(f, c, s, src, gs, condition, ifBody);
    i := TestRuns(f, c1, s1, src, gs, p, Guard(s1[p], true), x, one);
    var src2 := ExecAll(f, src, gs + [Guard(s1[p], true)], ifBody);
    TestBody(f, c, src, gs + [Guard(s1[p], true)], x, one);
    var s3 := NegatedTracks(f, c2, s2, src2, gs, p);
    var c3 := Push(c2, GraphNode(Not, [p], None, true));
    j := TestRuns(f, c3, s3, src2, gs, |c2.nodes|, Guard(s1[p], false), x, two);
    var s4 := GenBranchCorrect(f, c3, s3, src2, gs, |c2.nodes|, Guard(s1[p], false), elseBody);
    var c4 := GenBranch(c3, |c2.nodes|, elseBody).value;
    ContinuesNodes(SelectFreeStmts(elseBody), c3, s3, c4, s4);
    assert c2.nodes <= c4.nodes;
    StatusKept(f, c2.nodes, c4.nodes, i);
  }

  lemma {:induction false} StatusKept(f: Frame, nodes: seq<GraphNode>, nodes': seq<GraphNode>, i: nat)
    requires nodes <= nodes' && i < |nodes|
    ensures Statuses(f, nodes')[i] == Statuses(f, nodes)[i]
  {
    StatusesPrefix(f, nodes', |nodes|);
    assert nodes'[..|nodes|] == nodes;
  }

  /** A body that is one unnamed `x ?? right`. */
  lemma {:induction false} TestBody(f: Frame, c: Context, src: Src, gs: seq<Guard>, x: string, right: Expr)
    ensures var (body, e) := ([Node(None, OrElse(Name(x), right))], OrElse(Name(x), right));
      (Gated(right) && !right.Name? ==> GatedStmts(body)) && ExecAll(f, src, gs, body).env == src.env &&
      (GenStmts(c, body).Some? ==>
         GenExpr(c, None, e).Some? && GenStmts(c, body).value.nodes == GenExpr(c, None, e).value.0.nodes)
  {
    var (body, e) := ([Node(None, OrElse(Name(x), right))], OrElse(Name(x), right));
    assert body[1..] == [] && body[0] == Node(None, e);
    assert Gated(Name(x)) && GatedStmts(body[1..]) && (GatedStmts(body) <==> GatedStmt(body[0]));
    assert GatedStmt(body[0]) <==> Gated(e);
    var next := Exec(f, src, gs, body[0]);
    assert ExecAll(f, next, gs, body[1..]) == next;
    if GenExpr(c, None, e).Some? {
      var c' := GenStmt(c, body[0]).value;
      assert c'.nodes == GenExpr(c, None, e).value.0.nodes && GenStmts(c', body[1..]) == Some(c');
    } else {
      assert GenStmt(c, body[0]).None?;
    }
  }

  /** Inside one branch. */
  lemma {:induction false} TestRuns(f: Frame, c: Context, s: seq<Status>, src: Src, gs: seq<Guard>, p: nat, g: Guard,
                                    x: string, right: Expr)
    returns (i: nat)
    requires SrcOk(f, c, s, src, gs) && p < |s| && Stands(s[p], g) && x in src.env && Yields(src.env[x])
    requires Gated(right) && !right.Name? && GenBranch(c, p, [Node(None, OrElse(Name(x), right))]).Some?
    ensures var c' := GenBranch(c, p, [Node(None, OrElse(Name(x), right))]).value;
      |c.nodes| <= i < |c'.nodes| && Statuses(f, c'.nodes)[i].Done?
  {
    var s1 := ConditionTracks(f, c, s, src.env, gs, p, g);
    var (c1, t) := Condition(c, p);
    TestBody(f, Enter(c1, t), src, gs, x, right);
    i := TestDone(f, Enter(c1, t), s1, src.env, gs + [g], x, right);
    assert |c.nodes| <= |c1.nodes| by { assert Look(0); }
  }

  /** The negated test of `x ?? right` is done if `x` yields something, whatever the guards. */
  lemma {:induction false} TestDone(f: Frame, c: Context, s: seq<Status>, env: Env, gs: seq<Guard>, x: string, right: Expr)
    returns (i: nat)
    requires Tracks(f, c, s, env, gs) && x in env && Yields(env[x]) && Gated(right) && !right.Name?
    requires GenExpr(c, None, OrElse(Name(x), right)).Some?
    ensures var c' := GenExpr(c, None, OrElse(Name(x), right)).value.0;
      |c.nodes| <= i < |c'.nodes| && Statuses(f, c'.nodes)[i].Done?
  {
    OrElseGen(c, None, Name(x), right);
    var l := c.names[x];
    assert l < |s| && s[l] == env[x] by { assert Look(0); }
    var s5 := GenRightCorrect(f, c, s, env, gs, l, right);
    var (c5, onNull) := GenRight(c, l, right).value;
    i := |c.nodes| + 1;
    var (c6, condition) := Condition(c5, i);
    var s7, kept := GenKept(f, c5, s5, env, gs, l, i, onNull);
    var c7 := Push(c6, GraphNode(Nop, [l], Some(condition), true));
    GrowsAt(true, c5, s5, c7, s7, i);
    var s8 := GenExprCorrect(f, c, s, env, gs, None, OrElse(Name(x), right));
    var c8 := GenExpr(c, None, OrElse(Name(x), right)).value.0;
    TracksEvaluated(f, c7, s7, env, gs);
    StatusKept(f, c7.nodes, c8.nodes, i);
  }
}
