/**
 Laws of the operators that the scheduler itself evaluates: logic with nulls, calls up to
 the nesting limit, and reductions over lists.
 */
module NodeLaws {
  import opened Wrappers
  import opened Dataflow

  // ---------------------------------------------------------------------------
  // Logic with nulls

  function Unary(f: Frame, op: Op, x: Value): Outcome {
    RunNode(f, GraphNode(op, [], None, true), [x])
  }

  function Binary(f: Frame, op: Op, x: Value, y: Value): Outcome {
    RunNode(f, GraphNode(op, [], None, true), [x, y])
  }

  predicate Logical(x: Value) {
    x.Null? || x.Bool?
  }

  /** `And` of logical values: true is neutral, false beats true, null beats both, and order does not matter. */
  lemma {:induction false} AndLaws(f: Frame, x: Value, y: Value)
    requires Logical(x) && Logical(y)
    ensures Binary(f, And, Bool(true), x) == Ok(Some(x))
    ensures Binary(f, And, Bool(false), x) == Ok(Some(if x.Null? then Null else Bool(false)))
    ensures Binary(f, And, Null, x) == Ok(Some(Null))
    ensures Binary(f, And, x, y) == Binary(f, And, y, x)
  {
    assert Null in [Null, x] && (Null in [x, y] <==> Null in [y, x]);
    assert Null in [Bool(true), x] <==> x.Null?;
    assert Null in [Bool(false), x] <==> x.Null?;
  }

  /** Negation is its own inverse, and `Or` is `And` seen through it, nulls included. */
  lemma {:induction false} DeMorgan(f: Frame, x: Value, y: Value)
    requires Logical(x) && Logical(y)
    ensures Unary(f, Not, x).Ok? && Unary(f, Not, x).value.Some? && Unary(f, Not, y).Ok? && Unary(f, Not, y).value.Some?
    ensures Unary(f, Not, Unary(f, Not, x).value.value) == Ok(Some(x)) && (x.Bool? ==> Unary(f, Not, x) != Ok(Some(x)))
    ensures Binary(f, Or, x, y).Ok? && Binary(f, Or, x, y).value.Some?
    ensures Unary(f, Not, Binary(f, Or, x, y).value.value) ==
            Binary(f, And, Unary(f, Not, x).value.value, Unary(f, Not, y).value.value)
  {
    var (u, v) := (Unary(f, Not, x).value.value, Unary(f, Not, y).value.value);
    assert (Null in [x] <==> x.Null?) && (Null in [y] <==> y.Null?);
    assert (Null in [u] <==> u.Null?) && (Null in [u, v] <==> u.Null? || v.Null?);
    assert Null in [x, y] <==> x.Null? || y.Null?;
    var w := Binary(f, Or, x, y).value.value;
    assert Null in [w] <==> w.Null?;
  }

  /**
   Null in, null out: every operator but the null test, `nop`, `reduce`, `throw` and the map writers yields null, and an
   effect node yields nothing, if any parameter is null.
   */
  lemma {:induction false} NullAbsorbs(f: Frame, n: GraphNode, ps: seq<Value>, i: nat)
    requires i < |ps| && ps[i] == Null
    requires !n.op.IsNull? && !n.op.Nop? && !n.op.Reduce? && !n.op.Throw? && (n.op.Prim? ==> n.op.chained)
    ensures RunNode(f, n, ps) == Ok(if n.typed then Some(Null) else None)
  {
    assert ps[i] in ps;
  }

  /** A `throw` that is reached fails its graph. */
  lemma {:induction false} ThrowEndsGraph(f: Frame, g: Graph, t: nat)
    requires Topological(g.nodes) && t < |g.nodes| && g.nodes[t].op.Throw?
    requires PreHolds(Statuses(f, g.nodes), g.nodes[t].pre) && AllFired(Statuses(f, g.nodes), g.nodes[t].inEdges)
    ensures GraphOutcome(f, g) == Fail
  {
    StatusEquation(f, g.nodes, t);
  }

  // ---------------------------------------------------------------------------
  // Calls

  /** Graph `i` of a chain hands its parameter on to graph `i + 1`; the last one returns it. */
  function Link(i: nat, n: nat): Graph {
    if i + 1 < n then
      Graph([GraphNode(LoadParam(0), [], None, true), GraphNode(Call(i + 1), [0], None, true)], Some(1))
    else
      Graph([GraphNode(LoadParam(0), [], None, true)], Some(0))
  }

  function Chain(n: nat): seq<Graph> {
    seq(n, i requires 0 <= i => Link(i, n))
  }

  lemma {:induction false} LoadsParam(f: Frame, x: Value, n: GraphNode)
    requires f.params == [x] && n == GraphNode(LoadParam(0), [], None, true)
    ensures Statuses(f, [n]) == [Done(Some(x))]
  {
    StatusesSnoc(f, [], n);
    assert [] + [n] == [n];
    assert Params([], []) == [] && AllFired([], []);
    assert NodeStatus(f, [], n) == Done(Some(x));
  }

  lemma {:induction false} LastLink(f: Frame, x: Value, i: nat, n: nat)
    requires f.params == [x] && i + 1 >= n
    ensures GraphOutcome(f, Link(i, n)) == Ok(Some(x))
  {
    LoadsParam(f, x, Link(i, n).nodes[0]);
  }

  lemma {:induction false} InnerLink(f: Frame, x: Value, i: nat, n: nat)
    requires f.params == [x] && !x.Null? && i + 1 < n
    ensures var r := Execute(f.script, f.prim, i + 1, [x], f.depth);
      r == Ok(Some(x)) || r == Fail ==> GraphOutcome(f, Link(i, n)) == r
  {
    var (load, call) := (Link(i, n).nodes[0], Link(i, n).nodes[1]);
    var s := [Done(Some(x))];
    LoadsParam(f, x, load);
    StatusesSnoc(f, [load], call);
    assert [load] + [call] == Link(i, n).nodes;
    assert Params(s, [0]) == [x] && Null !in [x];
    var status := NodeStatus(f, s, call);
    assert s + [status] == [Done(Some(x)), status];
  }

  /** A chain of calls hands the value through if it is at most 128 graphs deep, and fails otherwise. */
  lemma {:induction false} NestingLimit(prim: PrimFn, x: Value, i: nat, n: nat, depth: nat)
    requires !x.Null? && i < n
    ensures Execute(Chain(n), prim, i, [x], depth) == if depth + (n - i) <= 128 then Ok(Some(x)) else Fail
    decreases n - i
  {
    if depth < 128 {
      var f := Frame(Chain(n), prim, [x], depth + 1);
      assert Chain(n)[i] == Link(i, n);
      if i + 1 < n {
        NestingLimit(prim, x, i + 1, n, depth + 1);
        InnerLink(f, x, i, n);
      } else {
        LastLink(f, x, i, n);
      }
    }
  }

  // ---------------------------------------------------------------------------
  // Reductions over lists

  function ReduceStep(f: Frame, g: nat, param: Value, acc: Value, item: Value): Outcome {
    Execute(f.script, f.prim, g, [param, acc, item], f.depth)
  }

  predicate GoesOn(f: Frame, g: nat, param: Value, acc: Value, item: Value, next: Value) {
    !next.Null? && ReduceStep(f, g, param, acc, item) == Ok(Some(next))
  }

  /**
   `accs[i]` is the accumulator when item `i` is reached, each the graph's result on the one before; the reduction ends
   after the last item, at the first item where the graph gives null, or with the first failure.
   */
  predicate Reduces(f: Frame, g: nat, param: Value, items: seq<Value>, accs: seq<Value>, r: Outcome) {
    0 < |accs| <= |items| + 1 &&
    (forall i :: 0 <= i < |accs| - 1 ==> GoesOn(f, g, param, accs[i], items[i], accs[i + 1])) &&
    var n := |accs| - 1;
    if n == |items| then r == Ok(Some(accs[n]))
    else
      match ReduceStep(f, g, param, accs[n], items[n])
      case Ok(Some(v)) => v.Null? && r == Ok(Some(accs[n]))
      case Ok(None) => r == Fail
      case Fail => r == Fail
  }

  /** `Reduce` over a list is that reduction, from the given start. */
  lemma {:induction false} ListReduces(f: Frame, g: nat, param: Value, acc: Value, items: seq<Value>)
    returns (accs: seq<Value>)
    ensures 0 < |accs| && accs[0] == acc && Reduces(f, g, param, items, accs, ReduceList(f, g, param, acc, items))
    decreases |items|
  {
    accs := [acc];
    if items != [] {
      var out := ReduceStep(f, g, param, acc, items[0]);
      if out.Ok? && out.value.Some? && !out.value.value.Null? {
        var rest := ListReduces(f, g, param, out.value.value, items[1..]);
        accs := [acc] + rest;
        forall i | 0 <= i < |accs| - 1 ensures GoesOn(f, g, param, accs[i], items[i], accs[i + 1]) {
          assert accs[i + 1] == rest[i];
          if i > 0 { assert accs[i] == rest[i - 1] && accs[i + 1] == rest[i] && items[i] == items[1..][i - 1]; }
        }
        assert |accs| - 1 < |items| ==> items[|accs| - 1] == items[1..][|rest| - 1];
        assert accs[|accs| - 1] == rest[|rest| - 1];
      }
    }
  }

  /** The node itself: null gives null, a list is reduced, anything else fails. */
  lemma {:induction false} ReduceNode(f: Frame, g: nat, param: Value, acc: Value, x: Value)
    returns (accs: seq<Value>)
    ensures var r := RunNode(f, GraphNode(Reduce(g), [], None, true), [param, acc, x]);
      match x
      case Null => r == Ok(Some(Null))
      case List(items) => 0 < |accs| && accs[0] == acc && Reduces(f, g, param, items, accs, r)
      case _ => r == Fail
  {
    accs := [];
    if x.List? { accs := ListReduces(f, g, param, acc, x.items); }
  }
}
