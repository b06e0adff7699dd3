/**
 A program whose outcome depends on the completion order: `if c { return select a b; }`
 with two values `a` and `b`.
 */
module ConditionalSelect {
  import opened Wrappers
  import opened Dataflow
  import opened Scheduler
  import opened Confluence
  import opened RunParts
  import opened SelectConflict
  import opened Codegen
  import opened CodegenCorrect
  import opened CodegenTheorems

  const Names: seq<string> := ["c", "a", "b"]

  const Choice: Expr := Apply(Select, [Name("a"), Name("b")], false, true)

  const Body: seq<Stmt> := [If(Name("c"), [Return(Choice)], false, [])]

  const Nodes: seq<GraphNode> := [
    GraphNode(LoadParam(0), [], None, true), GraphNode(LoadParam(1), [], None, true),
    GraphNode(LoadParam(2), [], None, true), GraphNode(Select, [1, 2], Some(0), true)]

  function Arguments(u: Value, v: Value): Frame {
    Frame([], (code, ps) => Fail, [Bool(true), u, v], 0)
  }

  // ---------------------------------------------------------------------------
  // The graph and the meaning of the program

  const AfterParams: Context := Context(Nodes[..3], map["c" := 0, "a" := 1, "b" := 2], [], None, [])

  lemma {:induction false} NamesDiffer()
    ensures "a" != "c" && "b" != "c" && "b" != "a"
  {
    assert "a"[0] != "c"[0] && "b"[0] != "c"[0] && "b"[0] != "a"[0];
  }

  lemma {:induction false} ParamsGenerated(params: seq<string>)
    requires params == Names
    ensures GenParams(params, 3) == Some(AfterParams)
  {
    NamesDiffer();
    var c1 := Context(Nodes[..1], map["c" := 0], [], None, []);
    var c2 := Context(Nodes[..2], map["c" := 0, "a" := 1], [], None, []);
    assert GenParams(params, 0) == Some(Context([], map[], [], None, []));
    assert GenParams(params, 1) == Some(c1) by { assert [] + [Nodes[0]] == Nodes[..1]; }
    assert GenParams(params, 2) == Some(c2) by { assert Nodes[..1] + [Nodes[1]] == Nodes[..2]; }
    assert GenParams(params, 3) == Some(AfterParams) by { assert Nodes[..2] + [Nodes[2]] == Nodes[..3]; }
  }

  lemma {:induction false} ChoiceGenerated(c: Context)
    requires c == Enter(AfterParams, 0)
    ensures GenExpr(c, None, Choice) == Some((c.(nodes := Nodes), 3))
  {
    var args := [Name("a"), Name("b")];
    assert args[1..] == [Name("b")] && args[1..][1..] == [];
    assert GenArgs(c, args[1..][1..]) == Some((c, []));
    assert GenArgs(c, args[1..]) == Some((c, [2])) by { assert [2] + [] == [2]; }
    assert GenArgs(c, args) == Some((c, [1, 2])) by { assert [1] + [2] == [1, 2]; }
    assert Top(c) == Some(0) && Nodes[..3] + [Nodes[3]] == Nodes;
  }

  lemma {:induction false} BranchGenerated(c: Context, inner: seq<Stmt>)
    requires c == AfterParams && inner == [Return(Choice)]
    ensures GenBranch(c, 0, inner) == Some(c.(nodes := Nodes, output := Some(3)))
  {
    ChoiceGenerated(Enter(c, 0));
    assert inner[1..] == [];
    var c' := Enter(c, 0).(nodes := Nodes, output := Some(3));
    assert GenStmts(c', inner[1..]) == Some(c');
    assert GenStmts(Enter(c, 0), inner) == Some(c');
    assert [0][..0] == [] && Leave(c') == c.(nodes := Nodes, output := Some(3));
  }

  lemma {:induction false} Generated(params: seq<string>, body: seq<Stmt>, inner: seq<Stmt>)
    requires params == Names && inner == [Return(Choice)] && body == [If(Name("c"), inner, false, [])]
    ensures GenGraph(params, body).Some?
    ensures var c := GenGraph(params, body).value; c.nodes == Nodes && c.output == Some(3)
  {
    ParamsGenerated(params);
    BranchGenerated(AfterParams, inner);
    assert body[1..] == [];
    var c' := AfterParams.(nodes := Nodes, output := Some(3));
    assert GenStmt(AfterParams, body[0]) == Some(c');
    assert GenStmts(c', body[1..]) == Some(c');
  }

  /** The program returns its first choice. */
  lemma {:induction false} Means(f: Frame, u: Value, v: Value, params: seq<string>, body: seq<Stmt>)
    requires f == Arguments(u, v) && params == Names && body == Body
    ensures Program(f, params, body).ret == Some(Done(Some(u)))
  {
    NamesDiffer();
    assert ParamEnv(f, params, 0) == map[];
    assert ParamEnv(f, params, 1)["c"] == Done(Some(Bool(true)));
    assert ParamEnv(f, params, 2)["a"] == Done(Some(u));
    var env := ParamEnv(f, params, 3);
    assert env["c"] == Done(Some(Bool(true))) && env["a"] == Done(Some(u)) && env["b"] == Done(Some(v));
    var (src, gs, inner) := (Src(env, None, []), [Guard(Done(Some(Bool(true))), true)], [Return(Choice)]);
    ChoiceMeans(f, env, gs, u, v);
    assert inner[1..] == [] && body[1..] == [] && [] + gs == gs;
    var src' := src.(ret := Some(Done(Some(u))));
    assert ExecAll(f, src, gs, inner) == ExecAll(f, src', gs, inner[1..]) == src';
    assert Exec(f, src, [], body[0]) == src';
    assert ExecAll(f, src, [], body) == ExecAll(f, src', [], body[1..]) == src';
  }

  lemma {:induction false} ChoiceMeans(f: Frame, env: Env, gs: seq<Guard>, u: Value, v: Value)
    requires gs == [Guard(Done(Some(Bool(true))), true)]
    requires "a" in env && env["a"] == Done(Some(u)) && "b" in env && env["b"] == Done(Some(v))
    ensures Eval(f, env, gs, Choice) == Done(Some(u))
  {
    var args := [Name("a"), Name("b")];
    assert args[1..] == [Name("b")] && args[1..][1..] == [];
    assert EvalArgs(f, env, gs, args[1..][1..]) == [];
    assert EvalArgs(f, env, gs, args) == [env["a"], env["b"]];
    SelectMeaning(f, true, env["a"], env["b"]);
  }

  // ---------------------------------------------------------------------------
  // Two completion orders

  const G: Graph := Graph(Nodes, Some(3))

  function Record(d: seq<Option<Value>>, on: bool): Board {
    Board([[], [], [], d], [true, true, true, on])
  }

  /** The fire items of a source: only the `select` has sources. */
  lemma {:induction false} RowOf(nodes: seq<GraphNode>, src: nat)
    requires nodes == Nodes
    ensures Row(nodes, src, 4) == NodeItems(nodes[3], 3, src)
  {
    assert Row(nodes, src, 0) == [];
    assert Row(nodes, src, 1) == [] && Row(nodes, src, 2) == [] && Row(nodes, src, 3) == [];
  }

  lemma {:induction false} SelectItems(nodes: seq<GraphNode>)
    requires nodes == Nodes
    ensures Row(nodes, 0, 4) == [FireItem(3, Precondition)] && Row(nodes, 1, 4) == [FireItem(3, ParamDep(0))]
    ensures Row(nodes, 2, 4) == [FireItem(3, ParamDep(1))] && Row(nodes, 3, 4) == []
  {
    var edges := nodes[3].inEdges;
    forall src: nat | src < 4 ensures Row(nodes, src, 4) == NodeItems(nodes[3], 3, src) { RowOf(nodes, src); }
    forall src: nat
      ensures ParamItems(edges, 3, src, 2) ==
              (if src == 1 then [FireItem(3, ParamDep(0))] else []) + (if src == 2 then [FireItem(3, ParamDep(1))] else [])
    {
      assert ParamItems(edges, 3, src, 0) == [];
      assert ParamItems(edges, 3, src, 1) == if src == 1 then [FireItem(3, ParamDep(0))] else [];
    }
  }

  function Start(u: Value, v: Value): Sched {
    Sched(Record([None, None], false), [Future(0, Ok(Some(Bool(true)))), Future(1, Ok(Some(u))), Future(2, Ok(Some(v)))], None,
          [], false)
  }

  lemma {:induction false} Starts(f: Frame, g: Graph, u: Value, v: Value)
    requires f == Arguments(u, v) && g == G
    ensures Init(f, g) == Start(u, v)
  {
    var (nodes, b) := (g.nodes, InitialBoard(g.nodes));
    assert b.deps == [b.deps[0], b.deps[1], b.deps[2], b.deps[3]] && b.pre == [b.pre[0], b.pre[1], b.pre[2], b.pre[3]];
    assert Blank(2) == [None, None];
    assert InitialFutures(f, nodes, 0) == [];
    assert InitialFutures(f, nodes, 1) == [Future(0, Ok(Some(Bool(true))))];
    assert InitialFutures(f, nodes, 2) == [Future(0, Ok(Some(Bool(true)))), Future(1, Ok(Some(u)))];
    assert InitialFutures(f, nodes, 3) == Start(u, v).futures;
    assert InitialFutures(f, nodes, 4) == InitialFutures(f, nodes, 3);
  }

  // The candidates first

  function Late1(u: Value, v: Value): Sched {
    Sched(Record([Some(u), None], false), [Future(0, Ok(Some(Bool(true)))), Future(2, Ok(Some(v)))], None, [1], false)
  }

  function Late2(u: Value, v: Value): Sched {
    Sched(Record([Some(u), Some(v)], false), [Future(0, Ok(Some(Bool(true))))], None, [1, 2], false)
  }

  function Late3(u: Value, v: Value): Sched {
    Sched(Record([], true), [Future(3, Ok(Some(u)))], None, [1, 2, 0], false)
  }

  function Late4(u: Value, v: Value): Sched {
    Sched(Record([], true), [], Some(u), [1, 2, 0, 3], false)
  }

  lemma {:induction false} LateFirst(f: Frame, g: Graph, u: Value, v: Value)
    requires g == G
    ensures Complete(f, g, Start(u, v), 1) == Late1(u, v)
  {
    var (st, to, item) := (Start(u, v), Late1(u, v), FireItem(3, ParamDep(0)));
    assert Row(g.nodes, 1, 4) == [item] by { SelectItems(g.nodes); }
    assert st.futures[..1] + st.futures[2..] == to.futures;
    assert st.board.deps[3 := [Some(u), None]] == to.board.deps && [None, None][0 := Some(u)] == [Some(u), None];
    PassesOne(f, g, st, 1, item, u, to.board, to);
  }

  lemma {:induction false} LateSecond(f: Frame, g: Graph, u: Value, v: Value)
    requires g == G
    ensures Complete(f, g, Late1(u, v), 1) == Late2(u, v)
  {
    var (st, to, item) := (Late1(u, v), Late2(u, v), FireItem(3, ParamDep(1)));
    assert Row(g.nodes, 2, 4) == [item] by { SelectItems(g.nodes); }
    assert st.futures[..1] + st.futures[2..] == to.futures;
    assert st.board.deps[3 := [Some(u), Some(v)]] == to.board.deps && [Some(u), None][1 := Some(v)] == [Some(u), Some(v)];
    PassesOne(f, g, st, 1, item, v, to.board, to);
  }

  lemma {:induction false} LateThird(f: Frame, g: Graph, u: Value, v: Value)
    requires g == G
    ensures Complete(f, g, Late2(u, v), 0) == Late3(u, v)
  {
    var (st, to, item, b) := (Late2(u, v), Late3(u, v), FireItem(3, Precondition), Record([Some(u), Some(v)], true));
    assert Row(g.nodes, 0, 4) == [item] by { SelectItems(g.nodes); }
    assert st.futures[..0] + st.futures[1..] == [] && [] + [Future(3, Ok(Some(u)))] == to.futures;
    assert st.board.pre[3 := true] == b.pre && b.deps[3 := []] == to.board.deps;
    assert FireOne(f, g.nodes, b, [], item) == Some((to.board, to.futures));
    PassesOne(f, g, st, 0, item, Bool(true), b, to);
  }

  lemma {:induction false} LateLast(f: Frame, g: Graph, u: Value, v: Value)
    requires g == G
    ensures Complete(f, g, Late3(u, v), 0) == Late4(u, v)
  {
    var st := Late3(u, v);
    assert Row(g.nodes, 3, 4) == [] by { SelectItems(g.nodes); }
    assert st.futures[..0] + st.futures[1..] == [];
  }

  // The precondition first

  function Early1(u: Value, v: Value): Sched {
    Sched(Record([None, None], true), [Future(1, Ok(Some(u))), Future(2, Ok(Some(v)))], None, [0], false)
  }

  function Early2(u: Value, v: Value): Sched {
    Sched(Record([], true), [Future(2, Ok(Some(v))), Future(3, Ok(Some(u)))], None, [0, 1], false)
  }

  lemma {:induction false} EarlyFirst(f: Frame, g: Graph, u: Value, v: Value)
    requires g == G
    ensures Complete(f, g, Start(u, v), 0) == Early1(u, v)
  {
    var (st, to, item) := (Start(u, v), Early1(u, v), FireItem(3, Precondition));
    assert Row(g.nodes, 0, 4) == [item] by { SelectItems(g.nodes); }
    assert st.futures[..0] + st.futures[1..] == to.futures;
    assert st.board.pre[3 := true] == to.board.pre;
    FirstSomeNone([None, None]);
    PassesOne(f, g, st, 0, item, Bool(true), to.board, to);
  }

  lemma {:induction false} EarlySecond(f: Frame, g: Graph, u: Value, v: Value)
    requires g == G
    ensures Complete(f, g, Early1(u, v), 0) == Early2(u, v)
  {
    var (st, to, item, b) := (Early1(u, v), Early2(u, v), FireItem(3, ParamDep(0)), Record([Some(u), None], true));
    assert Row(g.nodes, 1, 4) == [item] by { SelectItems(g.nodes); }
    var rest := [Future(2, Ok(Some(v)))];
    assert st.futures[..0] + st.futures[1..] == rest && rest + [Future(3, Ok(Some(u)))] == to.futures;
    assert st.board.deps[3 := [Some(u), None]] == b.deps && [None, None][0 := Some(u)] == [Some(u), None];
    assert b.deps[3 := []] == to.board.deps;
    assert FireOne(f, g.nodes, b, rest, item) == Some((to.board, to.futures));
    PassesOne(f, g, st, 0, item, u, b, to);
  }

  lemma {:induction false} EarlyLast(f: Frame, g: Graph, u: Value, v: Value)
    requires g == G
    ensures Complete(f, g, Early2(u, v), 0).failed
  {
    var (st, item) := (Early2(u, v), FireItem(3, ParamDep(1)));
    assert Row(g.nodes, 2, 4) == [item] by { SelectItems(g.nodes); }
    assert DeliverOne(st.board, item, Some(v)) == None;
  }

  lemma {:induction false} LateRun(f: Frame, g: Graph, u: Value, v: Value, schedule: seq<nat>)
    requires f == Arguments(u, v) && g == G && schedule == [1, 1, 0, 0]
    ensures Run(f, g, schedule) == Some(Late4(u, v))
  {
    LateHalf(f, g, u, v, schedule);
    LateThird(f, g, u, v);
    RunOn(f, g, schedule[..2], 0, Late2(u, v));
    assert schedule[..2] + [0] == schedule[..3];
    LateLast(f, g, u, v);
    RunOn(f, g, schedule[..3], 0, Late3(u, v));
    assert schedule[..3] + [0] == schedule;
  }

  lemma {:induction false} LateHalf(f: Frame, g: Graph, u: Value, v: Value, schedule: seq<nat>)
    requires f == Arguments(u, v) && g == G && |schedule| >= 2 && schedule[0] == 1 && schedule[1] == 1
    ensures Run(f, g, schedule[..2]) == Some(Late2(u, v))
  {
    Starts(f, g, u, v);
    LateFirst(f, g, u, v);
    RunOn(f, g, [], 1, Start(u, v));
    LateSecond(f, g, u, v);
    RunOn(f, g, [] + [1], 1, Late1(u, v));
    assert [] + [1] + [1] == schedule[..2];
  }

  lemma {:induction false} EarlyRun(f: Frame, g: Graph, u: Value, v: Value)
    requires f == Arguments(u, v) && g == G
    ensures Run(f, g, [0, 0, 0]).Some? && Run(f, g, [0, 0, 0]).value.failed
  {
    Starts(f, g, u, v);
    EarlyFirst(f, g, u, v);
    RunOn(f, g, [], 0, Start(u, v));
    EarlySecond(f, g, u, v);
    RunOn(f, g, [] + [0], 0, Early1(u, v));
    EarlyLast(f, g, u, v);
    RunOn(f, g, [] + [0] + [0], 0, Early2(u, v));
    assert [] + [0] + [0] + [0] == [0, 0, 0];
  }

  /**
   The graph of `if c { return select a b; }`, the value the program means when `c` is true, a completion order that
   returns it and one that fails.
   */
  lemma {:induction false} OrderDecides(u: Value, v: Value)
    ensures GenGraph(Names, Body).Some?
    ensures var c := GenGraph(Names, Body).value; Graph(c.nodes, c.output) == G
    ensures Program(Arguments(u, v), Names, Body).ret == Some(Done(Some(u)))
    ensures Succeeds(Arguments(u, v), G, [1, 1, 0, 0]) && Run(Arguments(u, v), G, [1, 1, 0, 0]).value.ret == Some(u)
    ensures var run := Run(Arguments(u, v), G, [0, 0, 0]); run.Some? && run.value.failed
  {
    Generated(Names, Body, [Return(Choice)]);
    Means(Arguments(u, v), u, v, Names, Body);
    LateRun(Arguments(u, v), G, u, v, [1, 1, 0, 0]);
    EarlyRun(Arguments(u, v), G, u, v);
  }
}
