/**
 What generated plans look like: the planner's recursion is bounded, its output conforms
 to the schema, and regenerating a plan is an exact conformance check.
 */
module PlannerProperties {
  import opened Wrappers
  import opened Schemas
  import opened StoragePlans
  import opened Planner

  // ---------------------------------------------------------------------------
  // Recursive types are found

  /** The type mentions table `t`, possibly as the member of a set. */
  predicate Mentions(ty: FieldType, t: string) {
    match ty
    case Table(name) => name == t
    case SetOf(member) => Mentions(member, t)
    case Primitive(_) => false
  }

  predicate MentionsAny(fields: seq<Field>, t: string) {
    exists f <- fields :: Mentions(f.ty, t)
  }

  /** A branch of the schema below `ty`: each table is mentioned by a field of the one before. */
  ghost predicate Branch(s: Schema, ty: FieldType, ts: seq<string>) {
    ts != [] && Mentions(ty, ts[0]) &&
    forall i :: 0 <= i < |ts| - 1 ==> ts[i] in s.types && MentionsAny(s.types[ts[i]], ts[i + 1])
  }

  /** The last table of the branch is the first one to occur a second time. */
  ghost predicate FirstRepeat(path: set<string>, ts: seq<string>) {
    ts != [] && (forall i, j :: 0 <= i < j < |ts| - 1 ==> ts[i] != ts[j]) &&
    (forall i :: 0 <= i < |ts| - 1 ==> ts[i] !in path) &&
    (ts[|ts| - 1] in path || ts[|ts| - 1] in ts[..|ts| - 1])
  }

  /** Every type that is the first to repeat on a branch is collected as recursive. */
  lemma {:induction false} RepeatsAreCollected(s: Schema, path: set<string>, ty: FieldType, ts: seq<string>)
    requires Collect(s, path, ty).Success? && Branch(s, ty, ts) && FirstRepeat(path, ts)
    ensures ts[|ts| - 1] in Collect(s, path, ty).value.recursive
    decreases s.types.Keys - path, 0, ty
  {
    match ty
    case SetOf(member) => RepeatsAreCollected(s, path, member, ts);
    case Primitive(_) =>
    case Table(t) =>
      if t !in path {
        assert |ts| > 1;
        var rest := ts[1..];
        assert MentionsAny(s.types[t], ts[1]);
        forall i | 0 <= i < |rest| - 1
          ensures rest[i] in s.types && MentionsAny(s.types[rest[i]], rest[i + 1]) && rest[i] !in path + {t}
        {
          assert rest[i] == ts[i + 1] && rest[i + 1] == ts[i + 2];
        }
        assert rest[|rest| - 1] == ts[|ts| - 1];
        if ts[|ts| - 1] != t && ts[|ts| - 1] !in path {
          var i :| 0 <= i < |ts| - 1 && ts[i] == ts[|ts| - 1];
          assert rest[i - 1] == ts[i] && rest[i - 1] in rest[..|rest| - 1];
        }
        RepeatsAreCollectedIn(s, path + {t}, s.types[t], rest);
      }
  }

  lemma {:induction false} RepeatsAreCollectedIn(s: Schema, path: set<string>, fields: seq<Field>, ts: seq<string>)
    requires CollectFields(s, path, fields).Success? && ts != [] && MentionsAny(fields, ts[0])
    requires forall i :: 0 <= i < |ts| - 1 ==> ts[i] in s.types && MentionsAny(s.types[ts[i]], ts[i + 1])
    requires FirstRepeat(path, ts)
    ensures ts[|ts| - 1] in CollectFields(s, path, fields).value.recursive
    decreases s.types.Keys - path, 1, |fields|
  {
    if Mentions(fields[0].ty, ts[0]) {
      RepeatsAreCollected(s, path, fields[0].ty, ts);
    } else {
      var f :| f in fields && Mentions(f.ty, ts[0]);
      assert f in fields[1..];
      RepeatsAreCollectedIn(s, path, fields[1..], ts);
    }
  }

  /** Nothing else is: a collected type is the first to repeat on some branch. */
  lemma {:induction false} CollectedRepeats(s: Schema, path: set<string>, ty: FieldType, t: string)
    returns (ts: seq<string>)
    requires Collect(s, path, ty).Success? && t in Collect(s, path, ty).value.recursive
    ensures Branch(s, ty, ts) && FirstRepeat(path, ts) && ts[|ts| - 1] == t
    decreases s.types.Keys - path, 0, ty
  {
    match ty
    case SetOf(member) => ts := CollectedRepeats(s, path, member, t);
    case Table(name) =>
      if name in path {
        ts := [name];
      } else {
        var rest := CollectedRepeatsIn(s, path + {name}, s.types[name], t);
        ts := [name] + rest;
        assert rest[|rest| - 1] == ts[|ts| - 1];
        assert forall i :: 1 <= i < |ts| ==> ts[i] == rest[i - 1];
        if t in rest[..|rest| - 1] {
          var i :| 0 <= i < |rest| - 1 && rest[i] == t;
          assert ts[i + 1] == t && ts[i + 1] in ts[..|ts| - 1];
        } else if t == name {
          assert ts[0] in ts[..|ts| - 1];
        }
      }
  }

  lemma {:induction false} CollectedRepeatsIn(s: Schema, path: set<string>, fields: seq<Field>, t: string)
    returns (ts: seq<string>)
    requires CollectFields(s, path, fields).Success? && t in CollectFields(s, path, fields).value.recursive
    ensures ts != [] && MentionsAny(fields, ts[0]) && FirstRepeat(path, ts) && ts[|ts| - 1] == t
    ensures forall i :: 0 <= i < |ts| - 1 ==> ts[i] in s.types && MentionsAny(s.types[ts[i]], ts[i + 1])
    decreases s.types.Keys - path, 1, |fields|
  {
    if t in Collect(s, path, fields[0].ty).value.recursive {
      ts := CollectedRepeats(s, path, fields[0].ty, t);
    } else {
      ts := CollectedRepeatsIn(s, path, fields[1..], t);
      var f :| f in fields[1..] && Mentions(f.ty, ts[0]);
      assert f in fields;
    }
  }

  // ---------------------------------------------------------------------------
  // Conformance

  /**
   The node is laid out for the type: tables are flattened with one child per field, except that a table already on
   the branch (in `stack`) is a reference to its ancestor's key; sets hold their member's layout; primitives are leaves.
   */
  predicate Fits(s: Schema, recursive: set<string>, stack: map<string, Key>, ty: FieldType, n: StorageNode)
    decreases n
  {
    match ty
    case Primitive(_) => n == StorageNode(n.key, false, None, None, [])
    case SetOf(member) =>
      !n.flattened && n.reference.None? && n.set_.Some? && n.children == [] && Fits(s, recursive, stack, member, n.set_.value)
    case Table(t) =>
      if t in stack then n == StorageNode(n.key, false, Some(stack[t]), None, [])
      else
        t in s.types && n.flattened && n.reference.None? && n.set_.None? && |n.children| == |s.types[t]| &&
        var stack' := if t in recursive then stack[t := n.key] else stack;
        forall i :: 0 <= i < |n.children| ==>
          n.children[i].name == s.types[t][i].name && Fits(s, recursive, stack', s.types[t][i].ty, n.children[i].node)
  }

  predicate FitsAll(s: Schema, recursive: set<string>, stack: map<string, Key>, fields: seq<Field>, children: seq<Child>) {
    |children| == |fields| &&
    forall i :: 0 <= i < |children| ==>
      children[i].name == fields[i].name && Fits(s, recursive, stack, fields[i].ty, children[i].node)
  }

  /** One top-level node per export, each laid out for its type. */
  predicate PlanFits(s: Schema, recursive: set<string>, plan: Plan) {
    |plan| == |s.exports| &&
    forall i :: 0 <= i < |plan| ==>
      plan[i].name == s.exports[i].name && Fits(s, recursive, map[], s.exports[i].ty, plan[i].node)
  }

  /** Whatever the old plan and the random keys, generated nodes conform. */
  lemma {:induction false} GeneratedFits(cx: Inputs, st: State, stack: map<string, Key>, path: set<string>,
                                         ty: FieldType, prior: Option<OldPoint>)
    requires Covered(cx, path, ty) && stack.Keys == path * cx.recursive
    requires GenField(cx, st, stack, path, ty, prior).Success?
    ensures Fits(cx.schema, cx.recursive, stack, ty, GenField(cx, st, stack, path, ty, prior).value.0)
    decreases cx.schema.types.Keys - path, 0, ty
  {
    match ty
    case Primitive(_) =>
    case SetOf(member) => GeneratedFits(cx, st, stack, path, member, MemberPoint(prior, member));
    case Table(t) =>
      if t !in stack {
        var (key, st') := KeyFor(st, prior).value;
        GeneratedFitsAll(cx, st', PushType(cx, stack, t, key), path + {t}, cx.schema.types[t], prior);
      }
  }

  lemma {:induction false} GeneratedFitsAll(cx: Inputs, st: State, stack: map<string, Key>, path: set<string>,
                                            fields: seq<Field>, prior: Option<OldPoint>)
    requires CoveredFields(cx, path, fields) && stack.Keys == path * cx.recursive
    requires GenFields(cx, st, stack, path, fields, prior).Success?
    ensures FitsAll(cx.schema, cx.recursive, stack, fields, GenFields(cx, st, stack, path, fields, prior).value.0)
    decreases cx.schema.types.Keys - path, 1, |fields|
  {
    if fields != [] {
      var p := SubPoint(cx.prior, prior, fields[0]);
      GeneratedFits(cx, st, stack, path, fields[0].ty, p);
      var (node, st') := GenField(cx, st, stack, path, fields[0].ty, p).value;
      GeneratedFitsAll(cx, st', stack, path, fields[1..], prior);
    }
  }

  lemma {:induction false} GeneratedExportsFit(cx: Inputs, st: State, oldPlan: Plan, exports: seq<Export>)
    requires CoveredExports(cx, exports) && GenExports(cx, st, oldPlan, exports).Success?
    ensures var plan := GenExports(cx, st, oldPlan, exports).value.0;
      |plan| == |exports| &&
      forall i :: 0 <= i < |plan| ==>
        plan[i].name == exports[i].name && Fits(cx.schema, cx.recursive, map[], exports[i].ty, plan[i].node)
    decreases exports
  {
    if exports != [] {
      var p := ExportPoint(oldPlan, cx.prior, exports[0]);
      GeneratedFits(cx, st, map[], {}, exports[0].ty, p);
      GeneratedExportsFit(cx, GenField(cx, st, map[], {}, exports[0].ty, p).value.1, oldPlan, exports[1..]);
    }
  }

  /** Every generated plan conforms to the schema it was generated for. */
  lemma {:induction false} GeneratedPlanFits(oldPlan: Plan, prior: Schema, s: Schema, candidates: seq<Key>)
    requires GeneratePlan(oldPlan, prior, s, candidates).Success?
    ensures CollectExports(s, s.exports).Success?
    ensures PlanFits(s, CollectExports(s, s.exports).value.recursive, GeneratePlan(oldPlan, prior, s, candidates).value)
  {
    var cx := InputsFor(prior, s, CollectExports(s, s.exports).value);
    CollectedExports(cx, s.exports);
    GeneratedExportsFit(cx, State(KeysOf(oldPlan), candidates), oldPlan, s.exports);
  }

  // ---------------------------------------------------------------------------
  // Bounded nesting

  /** The most table layouts nested in one another on a branch of the plan. */
  function TableDepth(n: StorageNode): nat
    decreases n, 1
  {
    (if n.flattened then 1 else 0) +
    Max(if n.set_.Some? then TableDepth(n.set_.value) else 0, TableDepthAll(n.children))
  }

  function TableDepthAll(children: seq<Child>): nat
    decreases children, 0
  {
    if children == [] then 0 else Max(TableDepth(children[0].node), TableDepthAll(children[1..]))
  }

  function Max(a: nat, b: nat): nat {
    if a < b then b else a
  }

  /** No type is expanded twice on one branch, so tables nest at most as deep as there are types. */
  lemma {:induction false} NestingBounded(cx: Inputs, st: State, stack: map<string, Key>, path: set<string>,
                                          ty: FieldType, prior: Option<OldPoint>)
    requires Covered(cx, path, ty) && stack.Keys == path * cx.recursive
    requires GenField(cx, st, stack, path, ty, prior).Success?
    ensures TableDepth(GenField(cx, st, stack, path, ty, prior).value.0) <= |cx.schema.types.Keys - path|
    decreases cx.schema.types.Keys - path, 0, ty
  {
    match ty
    case Primitive(_) =>
    case SetOf(member) => NestingBounded(cx, st, stack, path, member, MemberPoint(prior, member));
    case Table(t) =>
      if t !in stack { TableNestingBounded(cx, st, stack, path, t, prior); }
  }

  lemma {:induction false} TableNestingBounded(cx: Inputs, st: State, stack: map<string, Key>, path: set<string>,
                                               t: string, prior: Option<OldPoint>)
    requires Covered(cx, path, Table(t)) && stack.Keys == path * cx.recursive && t !in stack
    requires GenField(cx, st, stack, path, Table(t), prior).Success?
    ensures TableDepth(GenField(cx, st, stack, path, Table(t), prior).value.0) <= |cx.schema.types.Keys - path|
    decreases cx.schema.types.Keys - path, 0, Table(t), 0
  {
    var (key, st') := KeyFor(st, prior).value;
    var stack' := PushType(cx, stack, t, key);
    NestingBoundedAll(cx, st', stack', path + {t}, cx.schema.types[t], prior);
    OneFewer(cx.schema.types.Keys, path, t);
    TableDepthOf(key, GenFields(cx, st', stack', path + {t}, cx.schema.types[t], prior).value.0);
  }

  lemma {:induction false} TableDepthOf(key: Key, children: seq<Child>)
    ensures TableDepth(StorageNode(key, true, None, None, children)) == 1 + TableDepthAll(children)
  {
  }

  lemma {:induction false} OneFewer(types: set<string>, path: set<string>, t: string)
    requires t in types && t !in path
    ensures |types - path| == |types - (path + {t})| + 1
  {
    assert types - path == (types - (path + {t})) + {t};
  }

  lemma {:induction false} NestingBoundedAll(cx: Inputs, st: State, stack: map<string, Key>, path: set<string>,
                                             fields: seq<Field>, prior: Option<OldPoint>)
    requires CoveredFields(cx, path, fields) && stack.Keys == path * cx.recursive
    requires GenFields(cx, st, stack, path, fields, prior).Success?
    ensures TableDepthAll(GenFields(cx, st, stack, path, fields, prior).value.0) <= |cx.schema.types.Keys - path|
    decreases cx.schema.types.Keys - path, 1, |fields|
  {
    if fields != [] {
      var p := SubPoint(cx.prior, prior, fields[0]);
      NestingBounded(cx, st, stack, path, fields[0].ty, p);
      NestingBoundedAll(cx, GenField(cx, st, stack, path, fields[0].ty, p).value.1, stack, path, fields[1..], prior);
      var (a, b) := (GenField(cx, st, stack, path, fields[0].ty, p).value.0,
                     GenFields(cx, GenField(cx, st, stack, path, fields[0].ty, p).value.1, stack, path, fields[1..], prior).value.0);
      assert ([Child(fields[0].name, a)] + b)[1..] == b;
    }
  }

  // ---------------------------------------------------------------------------
  // The integrity check

  /** Every set member type below `path` has a primary key. */
  ghost predicate PrimaryOk(s: Schema, members: set<string>, path: set<string>, ty: FieldType)
    decreases s.types.Keys - path, 0, ty
  {
    match ty
    case Primitive(_) => true
    case SetOf(member) => PrimaryOk(s, members, path, member)
    case Table(t) =>
      t in path || t !in s.types ||
      ((t in members ==> HasPrimary(s.types[t])) && PrimaryOkAll(s, members, path + {t}, s.types[t]))
  }

  ghost predicate PrimaryOkAll(s: Schema, members: set<string>, path: set<string>, fields: seq<Field>)
    decreases s.types.Keys - path, 1, |fields|
  {
    fields == [] || (PrimaryOk(s, members, path, fields[0].ty) && PrimaryOkAll(s, members, path, fields[1..]))
  }

  /** A successful run has checked all primary keys. */
  lemma {:induction false} SuccessMeansPrimaryOk(cx: Inputs, st: State, stack: map<string, Key>, path: set<string>,
                                                 ty: FieldType, prior: Option<OldPoint>)
    requires Covered(cx, path, ty) && stack.Keys == path * cx.recursive
    requires GenField(cx, st, stack, path, ty, prior).Success?
    ensures PrimaryOk(cx.schema, cx.members, path, ty)
    decreases cx.schema.types.Keys - path, 0, ty
  {
    match ty
    case Primitive(_) =>
    case SetOf(member) => SuccessMeansPrimaryOk(cx, st, stack, path, member, MemberPoint(prior, member));
    case Table(t) =>
      if t !in stack {
        var (key, st') := KeyFor(st, prior).value;
        SuccessMeansPrimaryOkAll(cx, st', PushType(cx, stack, t, key), path + {t}, cx.schema.types[t], prior);
      }
  }

  lemma {:induction false} SuccessMeansPrimaryOkAll(cx: Inputs, st: State, stack: map<string, Key>, path: set<string>,
                                                    fields: seq<Field>, prior: Option<OldPoint>)
    requires CoveredFields(cx, path, fields) && stack.Keys == path * cx.recursive
    requires GenFields(cx, st, stack, path, fields, prior).Success?
    ensures PrimaryOkAll(cx.schema, cx.members, path, fields)
    decreases cx.schema.types.Keys - path, 1, |fields|
  {
    if fields != [] {
      var p := SubPoint(cx.prior, prior, fields[0]);
      SuccessMeansPrimaryOk(cx, st, stack, path, fields[0].ty, p);
      SuccessMeansPrimaryOkAll(cx, GenField(cx, st, stack, path, fields[0].ty, p).value.1, stack, path, fields[1..], prior);
    }
  }

  lemma {:induction false} SuccessMeansPrimaryOkExports(cx: Inputs, st: State, oldPlan: Plan, exports: seq<Export>)
    requires CoveredExports(cx, exports) && GenExports(cx, st, oldPlan, exports).Success?
    ensures forall e <- exports :: PrimaryOk(cx.schema, cx.members, {}, e.ty)
    decreases exports
  {
    if exports != [] {
      var p := ExportPoint(oldPlan, cx.prior, exports[0]);
      SuccessMeansPrimaryOk(cx, st, map[], {}, exports[0].ty, p);
      SuccessMeansPrimaryOkExports(cx, GenField(cx, st, map[], {}, exports[0].ty, p).value.1, oldPlan, exports[1..]);
    }
  }

  /** A conforming table node offers each field its own child. */
  lemma {:induction false} OwnSubPoint(s: Schema, n: StorageNode, t: string, i: nat)
    requires t in s.types && DistinctFields(s.types[t]) && |n.children| == |s.types[t]| && i < |n.children|
    requires forall j :: 0 <= j < |n.children| ==> n.children[j].name == s.types[t][j].name
    ensures SubPoint(s, Some(OldPoint(Table(t), n)), s.types[t][i]) == Some(OldPoint(s.types[t][i].ty, n.children[i].node))
  {
    forall a, b | 0 <= a < b < |n.children| ensures n.children[a].name != n.children[b].name {
      assert s.types[t][a].name != s.types[t][b].name;
    }
    FindChildAt(n.children, i);
    FindFieldAt(s.types[t], i);
    assert AltNames(s.types[t][i])[0] == n.children[i].name;
  }

  /** Regenerating a conforming node from itself returns it and draws no key. */
  lemma {:induction false} RegenerateSame(cx: Inputs, st: State, stack: map<string, Key>, path: set<string>,
                                          ty: FieldType, n: StorageNode)
    requires WellFormed(cx.schema) && cx.prior == cx.schema
    requires Covered(cx, path, ty) && stack.Keys == path * cx.recursive
    requires Fits(cx.schema, cx.recursive, stack, ty, n) && PrimaryOk(cx.schema, cx.members, path, ty)
    ensures GenField(cx, st, stack, path, ty, Some(OldPoint(ty, n))) == Success((n, st))
    decreases cx.schema.types.Keys - path, 0, ty
  {
    match ty
    case Primitive(_) =>
    case SetOf(member) => RegenerateSame(cx, st, stack, path, member, n.set_.value);
    case Table(t) =>
      if t !in stack {
        assert n.children[0..] == n.children && cx.schema.types[t][0..] == cx.schema.types[t];
        RegenerateSameFrom(cx, st, PushType(cx, stack, t, n.key), path + {t}, t, n, 0);
      }
  }

  lemma {:induction false} RegenerateSameFrom(cx: Inputs, st: State, stack: map<string, Key>, path: set<string>,
                                              t: string, n: StorageNode, k: nat)
    requires WellFormed(cx.schema) && cx.prior == cx.schema && t in cx.schema.types && k <= |cx.schema.types[t]|
    requires CoveredFields(cx, path, cx.schema.types[t][k..]) && stack.Keys == path * cx.recursive
    requires FitsAll(cx.schema, cx.recursive, stack, cx.schema.types[t], n.children)
    requires PrimaryOkAll(cx.schema, cx.members, path, cx.schema.types[t][k..])
    ensures GenFields(cx, st, stack, path, cx.schema.types[t][k..], Some(OldPoint(Table(t), n))) == Success((n.children[k..], st))
    decreases cx.schema.types.Keys - path, 1, |cx.schema.types[t]| - k
  {
    var fields := cx.schema.types[t];
    if k < |fields| {
      OwnSubPoint(cx.schema, n, t, k);
      assert fields[k..][0] == fields[k] && fields[k..][1..] == fields[k + 1..];
      RegenerateSame(cx, st, stack, path, fields[k].ty, n.children[k].node);
      RegenerateSameFrom(cx, st, stack, path, t, n, k + 1);
      assert n.children[k..] == [Child(fields[k].name, n.children[k].node)] + n.children[k + 1..];
    } else {
      assert fields[k..] == [] && n.children[k..] == [];
    }
  }

  lemma {:induction false} FindExportAt(exports: seq<Export>, i: nat)
    requires i < |exports| && forall a, b :: 0 <= a < b < |exports| ==> exports[a].name != exports[b].name
    ensures FindExport(exports, exports[i].name) == Some(exports[i])
  {
    if i > 0 {
      assert exports[0].name != exports[i].name;
      FindExportAt(exports[1..], i - 1);
    }
  }

  lemma {:induction false} OwnExportPoint(s: Schema, recursive: set<string>, plan: Plan, k: nat)
    requires WellFormed(s) && PlanFits(s, recursive, plan) && k < |plan|
    ensures ExportPoint(plan, s, s.exports[k]) == Some(OldPoint(s.exports[k].ty, plan[k].node))
  {
    forall a, b | 0 <= a < b < |plan| ensures plan[a].name != plan[b].name {
      assert s.exports[a].name != s.exports[b].name;
    }
    FindChildAt(plan, k);
    FindExportAt(s.exports, k);
  }

  /** The export's old point is the plan's own node, and the node is laid out for it. */
  ghost predicate Regenerates(cx: Inputs, plan: Plan, e: Export, c: Child) {
    c.name == e.name && ExportPoint(plan, cx.prior, e) == Some(OldPoint(e.ty, c.node)) &&
    Fits(cx.schema, cx.recursive, map[], e.ty, c.node) && PrimaryOk(cx.schema, cx.members, {}, e.ty)
  }

  lemma {:induction false} RegenerateRest(cx: Inputs, st: State, plan: Plan, exports: seq<Export>, rest: Plan)
    requires WellFormed(cx.schema) && cx.prior == cx.schema && CoveredExports(cx, exports) && |exports| == |rest|
    requires forall i :: 0 <= i < |rest| ==> Regenerates(cx, plan, exports[i], rest[i])
    ensures GenExports(cx, st, plan, exports) == Success((rest, st))
    decreases |exports|
  {
    if exports != [] {
      assert Regenerates(cx, plan, exports[0], rest[0]);
      RegenerateSame(cx, st, map[], {}, exports[0].ty, rest[0].node);
      forall i | 0 <= i < |rest[1..]| ensures Regenerates(cx, plan, exports[1..][i], rest[1..][i]) {
        assert exports[1..][i] == exports[i + 1] && rest[1..][i] == rest[i + 1];
      }
      RegenerateRest(cx, st, plan, exports[1..], rest[1..]);
      assert rest == [rest[0]] + rest[1..];
    }
  }

  lemma {:induction false} RegenerateExports(cx: Inputs, st: State, plan: Plan)
    requires WellFormed(cx.schema) && cx.prior == cx.schema && PlanFits(cx.schema, cx.recursive, plan)
    requires CoveredExports(cx, cx.schema.exports)
    requires forall e <- cx.schema.exports :: PrimaryOk(cx.schema, cx.members, {}, e.ty)
    ensures GenExports(cx, st, plan, cx.schema.exports) == Success((plan, st))
  {
    forall i | 0 <= i < |plan| ensures Regenerates(cx, plan, cx.schema.exports[i], plan[i]) {
      OwnExportPoint(cx.schema, cx.recursive, plan, i);
      assert cx.schema.exports[i] in cx.schema.exports;
    }
    RegenerateRest(cx, st, plan, cx.schema.exports, plan);
  }

  /**
   The server's integrity check is exact: when planning a plan against its own schema succeeds, it returns the same
   plan if and only if the plan conforms to the schema.
   */
  lemma {:induction false} IntegrityCheckIsExact(plan: Plan, s: Schema, candidates: seq<Key>)
    requires WellFormed(s) && GeneratePlan(plan, s, s, candidates).Success?
    ensures CollectExports(s, s.exports).Success?
    ensures GeneratePlan(plan, s, s, candidates).value == plan
       <==> PlanFits(s, CollectExports(s, s.exports).value.recursive, plan)
  {
    GeneratedPlanFits(plan, s, s, candidates);
    var sp := CollectExports(s, s.exports).value;
    if PlanFits(s, sp.recursive, plan) {
      var cx := InputsFor(s, s, sp);
      CollectedExports(cx, s.exports);
      SuccessMeansPrimaryOkExports(cx, State(KeysOf(plan), candidates), plan, s.exports);
      RegenerateExports(cx, State(KeysOf(plan), candidates), plan);
    }
  }

  /** Planning is idempotent: replanning any migrated plan under its own schema succeeds, changes nothing, and draws no key. */
  lemma {:induction false} PlanningIsIdempotent(oldPlan: Plan, prior: Schema, s: Schema, candidates: seq<Key>,
                                                more: seq<Key>)
    requires WellFormed(s) && GeneratePlan(oldPlan, prior, s, candidates).Success?
    ensures GeneratePlan(GeneratePlan(oldPlan, prior, s, candidates).value, s, s, more)
         == GeneratePlan(oldPlan, prior, s, candidates)
  {
    GeneratedPlanFits(oldPlan, prior, s, candidates);
    var (plan, sp) := (GeneratePlan(oldPlan, prior, s, candidates).value, CollectExports(s, s.exports).value);
    var (cx, cx') := (InputsFor(prior, s, sp), InputsFor(s, s, sp));
    CollectedExports(cx, s.exports);
    CollectedExports(cx', s.exports);
    SuccessMeansPrimaryOkExports(cx, State(KeysOf(oldPlan), candidates), oldPlan, s.exports);
    RegenerateExports(cx', State(KeysOf(plan), more), plan);
  }
}
