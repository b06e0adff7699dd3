/**
 Scripts whose graphs all come from the RefineAsm generator: the executor's loop runs them
 with an outcome that no completion order can change.
 */
module LoweredScripts {
  import opened Wrappers
  import opened Dataflow
  import opened Scheduler
  import opened Confluence
  import opened Executor
  import opened Codegen
  import opened CodegenCorrect
  import opened CodegenTheorems

  /** The graph is the lowering of a body without explicit `select`, and no node of it names a source twice. */
  ghost predicate LoweredFrom(g: Graph, params: seq<string>, body: seq<Stmt>) {
    GatedStmts(body) && SelectFreeStmts(body) && GenGraph(params, body).Some? &&
    g == Graph(GenGraph(params, body).value.nodes, GenGraph(params, body).value.output) && WellFormed(g.nodes)
  }

  ghost predicate Lowered(script: seq<Graph>) {
    forall i :: 0 <= i < |script| ==> exists params, body :: LoweredFrom(script[i], params, body)
  }

  /** Whatever they are called with, the graphs of a lowered script are order independent. */
  lemma {:induction false} LoweredIsDeterministic(script: seq<Graph>, prim: PrimFn)
    requires Lowered(script)
    ensures ScriptDeterministic(script, prim) && ScriptWellFormed(script)
  {
    forall g, args, depth: nat | 0 <= g < |script| ensures Deterministic(Frame(script, prim, args, depth), script[g]) {
      var params, body :| LoweredFrom(script[g], params, body);
      LoweringPreservesMeaning(Frame(script, prim, args, depth), params, body);
      ExclusiveOrderly(script[g].nodes, Statuses(Frame(script, prim, args, depth), script[g].nodes));
    }
  }

  /** What a call of a lowered graph comes to. */
  lemma {:induction false} LoweredCall(script: seq<Graph>, prim: PrimFn, gi: nat, args: seq<Value>, depth: nat,
                                       params: seq<string>, body: seq<Stmt>)
    requires gi < |script| && depth < MAX_RECURSION_DEPTH && LoweredFrom(script[gi], params, body)
    ensures var (f, g) := (Frame(script, prim, args, depth + 1), script[gi]);
      var ret := Program(f, params, body).ret;
      Execute(script, prim, gi, args, depth) ==
      if GraphFails(g.nodes, Statuses(f, g.nodes)) then Fail
      else Ok(if ret.Some? && ret.value.Done? then ret.value.value else None)
  {
    LoweringPreservesMeaning(Frame(script, prim, args, depth + 1), params, body);
  }

  /** The scheduler's loop on a lowered script. */
  method RunLowered(script: seq<Graph>, prim: PrimFn, gi: nat, args: seq<Value>, depth: nat) returns (r: Outcome)
    requires Lowered(script)
    ensures r == Execute(script, prim, gi, args, depth)
  {
    LoweredIsDeterministic(script, prim);
    r := RecursivelyRunGraph(script, prim, gi, args, depth);
  }
}
