/**
 When the code generator accepts a graph: read from left to right, every name is bound
 before it is used, no name is bound twice, and there is at most one `return`.
 */
module ScriptScopes {
  import opened Wrappers
  import opened Dataflow
  import opened Codegen

  // ---------------------------------------------------------------------------
  // The names of a program, in the order of its text

  datatype Mention = Use(x: string) | Bind(x: string) | Returns

  function OfExpr(e: Expr): seq<Mention>
    decreases e, 1
  {
    match e
    case Name(x) => [Use(x)]
    case Apply(_, args, _, _) => OfArgs(args)
    case OrElse(left, right) => OfExpr(left) + OfExpr(right)
  }

  function OfArgs(args: seq<Expr>): seq<Mention>
    decreases args, 0
  {
    if args == [] then [] else OfExpr(args[0]) + OfArgs(args[1..])
  }

  /** A statement's name is bound after its expression; giving a bare name another name binds nothing. */
  function Binding(name: Option<string>, e: Expr): seq<Mention> {
    if name.Some? && !e.Name? then [Bind(name.value)] else []
  }

  function OfStmt(s: Stmt): seq<Mention>
    decreases s, 1
  {
    match s
    case Return(value) => OfExpr(value) + [Returns]
    case Node(name, value) => OfExpr(value) + Binding(name, value)
    case ThrowStmt(value) => OfExpr(value)
    case If(condition, ifBody, hasElse, elseBody) =>
      OfExpr(condition) + OfStmts(ifBody) + if hasElse then OfStmts(elseBody) else []
  }

  function OfStmts(ss: seq<Stmt>): seq<Mention>
    decreases ss, 0
  {
    if ss == [] then [] else OfStmt(ss[0]) + OfStmts(ss[1..])
  }

  function OfParams(params: seq<string>): seq<Mention> {
    seq(|params|, i requires 0 <= i < |params| => Bind(params[i]))
  }

  function OfGraph(params: seq<string>, body: seq<Stmt>): seq<Mention> {
    OfParams(params) + OfStmts(body)
  }

  /** Bound before use, bound once, at most one `return`. */
  predicate WellScoped(text: seq<Mention>) {
    (forall i :: 0 <= i < |text| && text[i].Use? ==> exists j :: 0 <= j < i && text[j] == Bind(text[i].x)) &&
    (forall i, j :: 0 <= i < j < |text| && text[i] == text[j] ==> text[i].Use?)
  }

  // ---------------------------------------------------------------------------
  // Reading the text

  datatype Scope = Scope(names: set<string>, returned: bool)

  function Read(sc: Scope, m: Mention): Option<Scope> {
    match m
    case Use(x) => if x in sc.names then Some(sc) else None
    case Bind(x) => if x in sc.names then None else Some(sc.(names := sc.names + {x}))
    case Returns => if sc.returned then None else Some(sc.(returned := true))
  }

  function Scan(sc: Scope, text: seq<Mention>): Option<Scope> {
    if text == [] then Some(sc) else
    match Scan(sc, text[..|text| - 1])
    case None => None
    case Some(sc') => Read(sc', text[|text| - 1])
  }

  lemma {:induction false} ScanConcat(sc: Scope, a: seq<Mention>, b: seq<Mention>)
    ensures Scan(sc, a + b) == match Scan(sc, a) case None => None case Some(sc') => Scan(sc', b)
    decreases |b|
  {
    if b == [] {
      assert a + b == a;
    } else {
      var init := b[..|b| - 1];
      assert (a + b)[..|a + b| - 1] == a + init && (a + b)[|a + b| - 1] == b[|b| - 1];
      ScanConcat(sc, a, init);
    }
  }

  /** The names and the `return` of a text. */
  ghost function ScopeOf(text: seq<Mention>): Scope {
    Scope(set i | 0 <= i < |text| && text[i].Bind? :: text[i].x, Returns in text)
  }

  lemma {:induction false} ScopeSnoc(init: seq<Mention>, m: Mention)
    ensures var sc := ScopeOf(init);
      ScopeOf(init + [m]) == Scope(if m.Bind? then sc.names + {m.x} else sc.names, sc.returned || m == Returns)
  {
    var text := init + [m];
    forall x ensures x in ScopeOf(text).names <==> x in ScopeOf(init).names || m == Bind(x) {
      if x in ScopeOf(init).names {
        var i :| 0 <= i < |init| && init[i].Bind? && init[i].x == x;
        assert text[i] == init[i];
      }
      if m == Bind(x) { assert text[|init|] == m; }
    }
  }

  lemma {:induction false} ScopeHas(text: seq<Mention>, x: string)
    ensures x in ScopeOf(text).names <==> Bind(x) in text
  {
    if Bind(x) in text {
      var i :| 0 <= i < |text| && text[i] == Bind(x);
      assert text[i].Bind?;
    }
  }

  /** The last mention of a well-scoped text: a name bound before, or something new. */
  lemma {:induction false} ScopedSnoc(init: seq<Mention>, m: Mention)
    ensures WellScoped(init + [m]) <==> WellScoped(init) && if m.Use? then Bind(m.x) in init else m !in init
  {
    var text := init + [m];
    assert text[|init|] == m && forall i :: 0 <= i < |init| ==> text[i] == init[i];
    if WellScoped(text) {
      forall i | 0 <= i < |init| && init[i].Use? ensures exists j :: 0 <= j < i && init[j] == Bind(init[i].x) {
        assert text[i] == init[i];
        var j :| 0 <= j < i && text[j] == Bind(text[i].x);
        assert init[j] == Bind(init[i].x);
      }
      if m.Use? {
        var j :| 0 <= j < |init| && text[j] == Bind(text[|init|].x);
        assert init[j] == Bind(m.x);
      } else {
        forall i | 0 <= i < |init| ensures init[i] != m { assert text[i] == init[i]; }
      }
    }
    if WellScoped(init) && if m.Use? then Bind(m.x) in init else m !in init {
      forall i | 0 <= i < |text| && text[i].Use? ensures exists j :: 0 <= j < i && text[j] == Bind(text[i].x) {
        var j :| 0 <= j < i && j < |init| && init[j] == Bind(text[i].x);
        assert text[j] == Bind(text[i].x);
      }
      forall i, j | 0 <= i < j < |text| && text[i] == text[j] ensures text[i].Use? {
        assert j == |init| ==> init[i] == m;
      }
    }
  }

  /** Reading goes through exactly if the text is well scoped. */
  lemma {:induction false} ScanMeansScoped(text: seq<Mention>)
    ensures Scan(Scope({}, false), text) == if WellScoped(text) then Some(ScopeOf(text)) else None
  {
    if text == [] {
      assert ScopeOf(text) == Scope({}, false);
    } else {
      var (init, m) := (text[..|text| - 1], text[|text| - 1]);
      assert text == init + [m];
      ScanMeansScoped(init);
      ScopedSnoc(init, m);
      ScopeSnoc(init, m);
      if !m.Returns? { ScopeHas(init, m.x); }
    }
  }

  // ---------------------------------------------------------------------------
  // Generation reads the text

  function InScope(c: Context): Scope {
    Scope(c.names.Keys, c.output.Some?)
  }

  /** Generation succeeds exactly if the text is read, and leaves the same scope. */
  predicate Follows(r: Option<Context>, sc: Option<Scope>) {
    r.Some? == sc.Some? && (r.Some? ==> InScope(r.value) == sc.value)
  }

  function ContextOf<T>(r: Option<(Context, T)>): Option<Context> {
    if r.None? then None else Some(r.value.0)
  }

  lemma {:induction false} PushFollows(c: Context, n: GraphNode, name: Option<string>)
    ensures Follows(ContextOf(PushNode(c, n, name)),
                    if name.None? then Some(InScope(c)) else Read(InScope(c), Bind(name.value)))
  {
  }

  lemma {:induction false} ReadOne(sc: Scope, m: Mention)
    ensures Scan(sc, [m]) == Read(sc, m) && Scan(sc, []) == Some(sc)
  {
    assert [m][..0] == [];
  }

  lemma {:induction false} ExprFollows(c: Context, name: Option<string>, e: Expr)
    ensures Follows(ContextOf(GenExpr(c, name, e)), Scan(InScope(c), OfExpr(e) + Binding(name, e)))
    decreases e, 1
  {
    ScanConcat(InScope(c), OfExpr(e), Binding(name, e));
    match e
    case Name(x) =>
      ReadOne(InScope(c), Use(x));
      if x in c.names { assert Scan(InScope(c), []) == Some(InScope(c)); }
    case Apply(op, args, swapped, typed) =>
      ArgsFollow(c, args);
      if GenArgs(c, args).Some? {
        var (c', idxs) := GenArgs(c, args).value;
        BindFollows(c', GraphNode(op, InEdges(idxs, swapped), Top(c), typed), name, e);
      }
    case OrElse(left, right) =>
      OperandsFollow(c, left, right);
      if GenExpr(c, None, left).Some? {
        var (c1, l) := GenExpr(c, None, left).value;
        if GenRight(c1, l, right).Some? {
          var (c2, onNull) := GenRight(c1, l, right).value;
          KeepFollows(c2, name, Top(c), l, |c1.nodes| + 1, onNull, e);
        }
      }
  }

  lemma {:induction false} BindFollows(c: Context, n: GraphNode, name: Option<string>, e: Expr)
    requires !e.Name?
    ensures Follows(ContextOf(PushNode(c, n, name)), Scan(InScope(c), Binding(name, e)))
  {
    PushFollows(c, n, name);
    if name.Some? { ReadOne(InScope(c), Bind(name.value)); } else { ReadOne(InScope(c), Returns); }
  }

  lemma {:induction false} ArgsFollow(c: Context, args: seq<Expr>)
    ensures Follows(ContextOf(GenArgs(c, args)), Scan(InScope(c), OfArgs(args)))
    decreases args, 0
  {
    if args != [] {
      ExprFollows(c, None, args[0]);
      assert OfExpr(args[0]) + Binding(None, args[0]) == OfExpr(args[0]);
      ScanConcat(InScope(c), OfExpr(args[0]), OfArgs(args[1..]));
      if GenExpr(c, None, args[0]).Some? { ArgsFollow(GenExpr(c, None, args[0]).value.0, args[1..]); }
    }
  }

  /** Conditions and unnamed nodes do not touch the scope. */
  lemma {:induction false} ConditionScope(c: Context, p: nat)
    ensures InScope(Enter(Condition(c, p).0, Condition(c, p).1)) == InScope(c)
  {
  }

  lemma {:induction false} RightFollows(c: Context, l: nat, right: Expr)
    ensures Follows(ContextOf(GenRight(c, l, right)), Scan(InScope(c), OfExpr(right)))
    decreases right, 2
  {
    var (c', condition) := Condition(WithTests(c, l), |c.nodes|);
    ConditionScope(WithTests(c, l), |c.nodes|);
    ExprFollows(Enter(c', condition), None, right);
    assert OfExpr(right) + Binding(None, right) == OfExpr(right);
  }

  /** The operands of `??`, one after the other. */
  lemma {:induction false} OperandsFollow(c: Context, left: Expr, right: Expr)
    ensures match GenExpr(c, None, left)
      case None => Scan(InScope(c), OfExpr(left) + OfExpr(right)).None?
      case Some((c1, l)) => Follows(ContextOf(GenRight(c1, l, right)), Scan(InScope(c), OfExpr(left) + OfExpr(right)))
    decreases OrElse(left, right), 0
  {
    ScanConcat(InScope(c), OfExpr(left), OfExpr(right));
    ExprFollows(c, None, left);
    assert OfExpr(left) + Binding(None, left) == OfExpr(left);
    if GenExpr(c, None, left).Some? { RightFollows(GenExpr(c, None, left).value.0, GenExpr(c, None, left).value.1, right); }
  }

  lemma {:induction false} KeepFollows(c: Context, name: Option<string>, precondition: Option<nat>, l: nat,
                                       notComparator: nat, onNull: nat, e: Expr)
    requires !e.Name?
    ensures Follows(ContextOf(KeepAndSelect(c, name, precondition, l, notComparator, onNull)),
                    Scan(InScope(c), Binding(name, e)))
  {
    var (c', condition) := Condition(c, notComparator);
    var kept := Push(c', GraphNode(Nop, [l], Some(condition), true));
    BindFollows(kept, GraphNode(Select, [onNull, |c'.nodes|], precondition, true), name, e);
  }

  lemma {:induction false} StmtFollows(c: Context, s: Stmt)
    ensures Follows(GenStmt(c, s), Scan(InScope(c), OfStmt(s)))
    decreases s, 1
  {
    match s
    case Return(value) =>
      ExprFollows(c, None, value);
      assert OfExpr(value) + Binding(None, value) == OfExpr(value);
      ScanConcat(InScope(c), OfExpr(value), [Returns]);
      if GenExpr(c, None, value).Some? { ReadOne(InScope(GenExpr(c, None, value).value.0), Returns); }
    case Node(name, value) => ExprFollows(c, name, value);
    case ThrowStmt(value) =>
      ExprFollows(c, None, value);
      assert OfExpr(value) + Binding(None, value) == OfExpr(value);
    case If(condition, ifBody, hasElse, elseBody) => IfFollows(c, condition, ifBody, hasElse, elseBody);
  }

  lemma {:induction false} IfFollows(c: Context, condition: Expr, ifBody: seq<Stmt>, hasElse: bool, elseBody: seq<Stmt>)
    ensures Follows(GenStmt(c, If(condition, ifBody, hasElse, elseBody)),
                    Scan(InScope(c), OfStmt(If(condition, ifBody, hasElse, elseBody))))
    decreases If(condition, ifBody, hasElse, elseBody), 0
  {
    var otherwise := if hasElse then OfStmts(elseBody) else [];
    ExprFollows(c, None, condition);
    assert OfExpr(condition) + Binding(None, condition) == OfExpr(condition);
    ScanConcat(InScope(c), OfExpr(condition), OfStmts(ifBody));
    ScanConcat(InScope(c), OfExpr(condition) + OfStmts(ifBody), otherwise);
    if GenExpr(c, None, condition).Some? {
      var (c1, p) := GenExpr(c, None, condition).value;
      BranchFollows(c1, p, ifBody);
      if GenBranch(c1, p, ifBody).Some? {
        var c2 := GenBranch(c1, p, ifBody).value;
        if hasElse {
          BranchFollows(Push(c2, GraphNode(Not, [p], None, true)), |c2.nodes|, elseBody);
        } else {
          assert Scan(InScope(c2), []) == Some(InScope(c2));
        }
      }
    }
  }

  lemma {:induction false} BranchFollows(c: Context, p: nat, body: seq<Stmt>)
    ensures Follows(GenBranch(c, p, body), Scan(InScope(c), OfStmts(body)))
    decreases body, 1
  {
    var (c', condition) := Condition(c, p);
    ConditionScope(c, p);
    StmtsFollow(Enter(c', condition), body);
  }

  lemma {:induction false} StmtsFollow(c: Context, ss: seq<Stmt>)
    ensures Follows(GenStmts(c, ss), Scan(InScope(c), OfStmts(ss)))
    decreases ss, 0
  {
    if ss != [] {
      StmtFollows(c, ss[0]);
      ScanConcat(InScope(c), OfStmt(ss[0]), OfStmts(ss[1..]));
      if GenStmt(c, ss[0]).Some? { StmtsFollow(GenStmt(c, ss[0]).value, ss[1..]); }
    }
  }

  lemma {:induction false} ParamsFollow(params: seq<string>, k: nat)
    requires k <= |params|
    ensures Follows(GenParams(params, k), Scan(Scope({}, false), OfParams(params[..k])))
  {
    if k == 0 {
      assert OfParams(params[..k]) == [];
    } else {
      ParamsFollow(params, k - 1);
      var text := OfParams(params[..k]);
      assert text[..k - 1] == OfParams(params[..k - 1]) && text[k - 1] == Bind(params[k - 1]);
      if GenParams(params, k - 1).Some? {
        PushFollows(GenParams(params, k - 1).value, GraphNode(LoadParam(k - 1), [], None, true), Some(params[k - 1]));
      }
    }
  }

  /**
   A graph is generated if and only if its text is well scoped; then the names of the generated graph are exactly those
   that the text binds, and it has an output exactly if the text has a `return`.
   */
  lemma {:induction false} GeneratesExactlyIf(params: seq<string>, body: seq<Stmt>)
    ensures GenGraph(params, body).Some? <==> WellScoped(OfGraph(params, body))
    ensures GenGraph(params, body).Some? ==>
      (forall x :: x in GenGraph(params, body).value.names <==> Bind(x) in OfGraph(params, body)) &&
      (GenGraph(params, body).value.output.Some? <==> Returns in OfGraph(params, body))
  {
    var text := OfGraph(params, body);
    ParamsFollow(params, |params|);
    assert params[..|params|] == params;
    ScanConcat(Scope({}, false), OfParams(params), OfStmts(body));
    ScanMeansScoped(text);
    if GenParams(params, |params|).Some? { StmtsFollow(GenParams(params, |params|).value, body); }
    if GenGraph(params, body).Some? {
      forall x ensures x in ScopeOf(text).names <==> Bind(x) in text { ScopeHas(text, x); }
    }
  }
}
