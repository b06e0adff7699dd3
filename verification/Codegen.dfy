/**
 The RefineAsm code generator: statements and expressions become graph nodes; `if`,
 `else` and `??` become preconditions and `select`.
 */
module Codegen {
  import opened Wrappers
  import opened Dataflow

  /**
   `Apply` covers every operator expression. Arguments are generated left to right; `swapped` operators
   (set and table writes, point reads) list their in-edges in reverse.
   */
  datatype Expr =
    | Name(x: string)
    | Apply(op: Op, args: seq<Expr>, swapped: bool, typed: bool)
    | OrElse(left: Expr, right: Expr)

  datatype Stmt =
    | Return(value: Expr)
    | If(condition: Expr, ifBody: seq<Stmt>, hasElse: bool, elseBody: seq<Stmt>)
    | Node(name: Option<string>, value: Expr)
    | ThrowStmt(value: Expr)

  /** `stmts` logs the node of every `Node` and `throw` statement, in program order. */
  datatype Context = Context(nodes: seq<GraphNode>, names: map<string, nat>, stack: seq<nat>, output: Option<nat>,
                             stmts: seq<nat>)

  function Top(c: Context): Option<nat> {
    if c.stack == [] then None else Some(c.stack[|c.stack| - 1])
  }

  /** `push_node`; a name may be given only once. */
  function PushNode(c: Context, n: GraphNode, name: Option<string>): Option<(Context, nat)> {
    var c' := c.(nodes := c.nodes + [n]);
    if name.None? then Some((c', |c.nodes|))
    else if name.value in c.names then None
    else Some((c'.(names := c.names[name.value := |c.nodes|]), |c.nodes|))
  }

  /** Push a node that carries no name, which cannot fail. */
  function Push(c: Context, n: GraphNode): Context {
    c.(nodes := c.nodes + [n])
  }

  function AndNode(a: nat, b: nat): GraphNode {
    GraphNode(And, [a, b], None, true)
  }

  /** `generate_condition`: conjoin with the innermost enclosing condition. */
  function Condition(c: Context, condition: nat): (Context, nat) {
    if c.stack == [] then (c, condition)
    else (Push(c, AndNode(condition, c.stack[|c.stack| - 1])), |c.nodes|)
  }

  function Enter(c: Context, condition: nat): Context {
    c.(stack := c.stack + [condition])
  }

  function Leave(c: Context): Context {
    if c.stack == [] then c else c.(stack := c.stack[..|c.stack| - 1])
  }

  function Reverse<T>(xs: seq<T>): (r: seq<T>)
    ensures |r| == |xs| && forall i :: 0 <= i < |xs| ==> r[i] == xs[|xs| - 1 - i]
  {
    if xs == [] then [] else Reverse(xs[1..]) + [xs[0]]
  }

  function InEdges(idxs: seq<nat>, swapped: bool): seq<nat> {
    if swapped then Reverse(idxs) else idxs
  }

  /** `generate_expr`; a bare node name is a lookup and registers no name of its own. */
  function GenExpr(c: Context, name: Option<string>, e: Expr): Option<(Context, nat)>
    decreases e, 1
  {
    match e
    case Name(x) => if x in c.names then Some((c, c.names[x])) else None
    case Apply(op, args, swapped, typed) =>
      (match GenArgs(c, args)
       case None => None
       case Some((c', idxs)) => PushNode(c', GraphNode(op, InEdges(idxs, swapped), Top(c), typed), name))
    case OrElse(left, right) =>
      match GenExpr(c, None, left)
      case None => None
      case Some((c1, l)) =>
        match GenRight(c1, l, right)
        case None => None
        case Some((c2, onNull)) => KeepAndSelect(c2, name, Top(c), l, |c1.nodes| + 1, onNull)
  }

  /** The null test on the left operand of `??` and its negation. */
  function WithTests(c: Context, l: nat): Context {
    Push(Push(c, GraphNode(IsNull, [l], None, true)), GraphNode(Not, [|c.nodes|], None, true))
  }

  /** The right operand of `??`, generated under the null test of the left one. */
  function GenRight(c: Context, l: nat, right: Expr): Option<(Context, nat)>
    decreases right, 2
  {
    var (c', condition) := Condition(WithTests(c, l), |c.nodes|);
    match GenExpr(Enter(c', condition), None, right)
    case None => None
    case Some((c'', onNull)) => Some((Leave(c''), onNull))
  }

  /** The last nodes of `??`: keep the left operand if it is not null, and select. */
  function KeepAndSelect(c: Context, name: Option<string>, precondition: Option<nat>, l: nat, notComparator: nat,
                         onNull: nat): Option<(Context, nat)>
  {
    var (c', condition) := Condition(c, notComparator);
    PushNode(Push(c', GraphNode(Nop, [l], Some(condition), true)),
             GraphNode(Select, [onNull, |c'.nodes|], precondition, true), name)
  }

  function GenArgs(c: Context, args: seq<Expr>): Option<(Context, seq<nat>)>
    decreases args, 0
  {
    if args == [] then Some((c, [])) else
    match GenExpr(c, None, args[0])
    case None => None
    case Some((c', i)) =>
      match GenArgs(c', args[1..])
      case None => None
      case Some((c'', rest)) => Some((c'', [i] + rest))
  }

  function LogStmt(c: Context, i: nat): Context {
    c.(stmts := c.stmts + [i])
  }

  /** `generate_stmt`. */
  function GenStmt(c: Context, s: Stmt): Option<Context>
    decreases s, 1
  {
    match s
    case Return(value) =>
      (match GenExpr(c, None, value)
       case None => None
       case Some((c', i)) => if c'.output.Some? then None else Some(c'.(output := Some(i))))
    case Node(name, value) =>
      (match GenExpr(c, name, value)
       case None => None
       case Some((c', i)) => Some(LogStmt(c', i)))
    case ThrowStmt(value) =>
      (match GenExpr(c, None, value)
       case None => None
       case Some((c', i)) => Some(LogStmt(Push(c', GraphNode(Throw, [i], Top(c'), false)), |c'.nodes|)))
    case If(condition, ifBody, hasElse, elseBody) =>
      match GenExpr(c, None, condition)
      case None => None
      case Some((c1, p)) =>
        match GenBranch(c1, p, ifBody)
        case None => None
        case Some(c2) =>
          if !hasElse then Some(c2)
          else GenBranch(Push(c2, GraphNode(Not, [p], None, true)), |c2.nodes|, elseBody)
  }

  /** A branch body, generated under one more condition. */
  function GenBranch(c: Context, p: nat, body: seq<Stmt>): Option<Context>
    decreases body, 1
  {
    var (c', condition) := Condition(c, p);
    match GenStmts(Enter(c', condition), body)
    case None => None
    case Some(c'') => Some(Leave(c''))
  }

  function GenStmts(c: Context, ss: seq<Stmt>): Option<Context>
    decreases ss, 0
  {
    if ss == [] then Some(c) else
    match GenStmt(c, ss[0])
    case None => None
    case Some(c') => GenStmts(c', ss[1..])
  }

  /** The parameters come first, one named node each. */
  function GenParams(params: seq<string>, k: nat): Option<Context>
    requires k <= |params|
  {
    if k == 0 then Some(Context([], map[], [], None, [])) else
    match GenParams(params, k - 1)
    case None => None
    case Some(c) =>
      match PushNode(c, GraphNode(LoadParam(k - 1), [], None, true), Some(params[k - 1]))
      case None => None
      case Some((c', _)) => Some(c')
  }

  function GenGraph(params: seq<string>, body: seq<Stmt>): Option<Context> {
    match GenParams(params, |params|)
    case None => None
    case Some(c) => GenStmts(c, body)
  }

  /** The generator object: one graph under construction. */
  class GraphContext {
    var nodes: seq<GraphNode>
    var names: map<string, nat>
    var conditionStack: seq<nat>
    var output: Option<nat>
    ghost var stmts: seq<nat>

    ghost function State(): Context
      reads this
    {
      Context(nodes, names, conditionStack, output, stmts)
    }

    constructor ()
      ensures State() == Context([], map[], [], None, [])
    {
      nodes, names, conditionStack, output, stmts := [], map[], [], None, [];
    }

    method Append(node: GraphNode, name: Option<string>) returns (r: Option<nat>)
      modifies this
      ensures match PushNode(old(State()), node, name)
        case None => r.None?
        case Some((c, i)) => r == Some(i) && State() == c
    {
      var index := |nodes|;
      nodes := nodes + [node];
      if name.Some? {
        if name.value in names { return None; }
        names := names[name.value := index];
      }
      r := Some(index);
    }

    method GenerateCondition(condition: nat) returns (r: nat)
      modifies this
      ensures (State(), r) == Condition(old(State()), condition)
    {
      if conditionStack == [] { return condition; }
      r := |nodes|;
      nodes := nodes + [AndNode(condition, conditionStack[|conditionStack| - 1])];
    }

    method PopCondition()
      modifies this
      ensures State() == Leave(old(State()))
    {
      if conditionStack != [] { conditionStack := conditionStack[..|conditionStack| - 1]; }
    }

    method GenerateExpr(name: Option<string>, e: Expr) returns (r: Option<nat>)
      modifies this
      ensures match GenExpr(old(State()), name, e)
        case None => r.None?
        case Some((c, i)) => r == Some(i) && State() == c
      decreases e, 1
    {
      var precondition := if conditionStack == [] then None else Some(conditionStack[|conditionStack| - 1]);
      match e {
        case Name(x) =>
          r := if x in names then Some(names[x]) else None;
        case Apply(op, args, swapped, typed) =>
          var idxs := GenerateArgs(args);
          if idxs.None? { return None; }
          r := Append(GraphNode(op, InEdges(idxs.value, swapped), precondition, typed), name);
        case OrElse(left, right) =>
          var l := GenerateExpr(None, left);
          if l.None? { return None; }
          var notComparator, onNull := GenerateRight(l.value, right);
          if onNull.None? { return None; }
          var condition := GenerateCondition(notComparator);
          var onNotNull := Append(GraphNode(Nop, [l.value], Some(condition), true), None);
          r := Append(GraphNode(Select, [onNull.value, onNotNull.value], precondition, true), name);
      }
    }

    /** The null test of a `??` and the right operand under it. */
    method GenerateRight(l: nat, right: Expr) returns (notComparator: nat, onNull: Option<nat>)
      modifies this
      ensures notComparator == |old(nodes)| + 1
      ensures match GenRight(old(State()), l, right)
        case None => onNull.None?
        case Some((c, i)) => onNull == Some(i) && State() == c
      decreases right, 2
    {
      var comparator := Append(GraphNode(IsNull, [l], None, true), None);
      var negation := Append(GraphNode(Not, [comparator.value], None, true), None);
      notComparator := negation.value;
      var condition := GenerateCondition(comparator.value);
      conditionStack := conditionStack + [condition];
      onNull := GenerateExpr(None, right);
      if onNull.Some? { PopCondition(); }
    }

    method GenerateArgs(args: seq<Expr>) returns (r: Option<seq<nat>>)
      modifies this
      ensures match GenArgs(old(State()), args)
        case None => r.None?
        case Some((c, idxs)) => r == Some(idxs) && State() == c
      decreases args, 0
    {
      if args == [] { return Some([]); }
      var i := GenerateExpr(None, args[0]);
      if i.None? { return None; }
      var rest := GenerateArgs(args[1..]);
      if rest.None? { return None; }
      r := Some([i.value] + rest.value);
    }

    method GenerateStmt(s: Stmt) returns (ok: bool)
      modifies this
      ensures match GenStmt(old(State()), s)
        case None => !ok
        case Some(c) => ok && State() == c
      decreases s, 1
    {
      ok := true;
      match s {
        case Return(value) =>
          var i := GenerateExpr(None, value);
          if i.None? || output.Some? { return false; }
          output := i;
        case Node(name, value) =>
          var i := GenerateExpr(name, value);
          if i.None? { return false; }
          stmts := stmts + [i.value];
        case ThrowStmt(value) =>
          var x := GenerateExpr(None, value);
          if x.None? { return false; }
          var precondition := if conditionStack == [] then None else Some(conditionStack[|conditionStack| - 1]);
          var i := Append(GraphNode(Throw, [x.value], precondition, false), None);
          stmts := stmts + [i.value];
        case If(condition, ifBody, hasElse, elseBody) =>
          var p := GenerateExpr(None, condition);
          if p.None? { return false; }
          ok := GenerateBranch(p.value, ifBody);
          if ok && hasElse {
            var notP := Append(GraphNode(Not, [p.value], None, true), None);
            ok := GenerateBranch(notP.value, elseBody);
          }
      }
    }

    method GenerateBranch(p: nat, body: seq<Stmt>) returns (ok: bool)
      modifies this
      ensures match GenBranch(old(State()), p, body)
        case None => !ok
        case Some(c) => ok && State() == c
      decreases body, 1
    {
      var condition := GenerateCondition(p);
      conditionStack := conditionStack + [condition];
      ok := GenerateStmts(body);
      if ok { PopCondition(); }
    }

    method GenerateStmts(ss: seq<Stmt>) returns (ok: bool)
      modifies this
      ensures match GenStmts(old(State()), ss)
        case None => !ok
        case Some(c) => ok && State() == c
      decreases ss, 0
    {
      if ss == [] { return true; }
      ok := GenerateStmt(ss[0]);
      if ok { ok := GenerateStmts(ss[1..]); }
    }
  }
}
