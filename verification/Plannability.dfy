/**
 When planning succeeds: exactly if every type that the exports reach is declared, every
 table that is a set member there has a primary key, and there are enough unused keys.
 */
module Plannability {
  import opened Wrappers
  import opened Schemas
  import opened StoragePlans
  import opened Planner
  import opened OldNames
  import opened PlannerProperties

  // ---------------------------------------------------------------------------
  // What a schema reaches

  /** A branch of the schema below `ty` ends in table `u`. */
  ghost predicate Reaches(s: Schema, ty: FieldType, u: string) {
    exists ts :: Branch(s, ty, ts) && ts[|ts| - 1] == u
  }

  /** The type is, or holds, a set of table `t`. */
  predicate HoldsSetOf(ty: FieldType, t: string) {
    ty.SetOf? && (ty.member == Table(t) || HoldsSetOf(ty.member, t))
  }

  /** Somewhere below `ty` there is a set of table `t`. */
  ghost predicate SetReached(s: Schema, ty: FieldType, t: string) {
    HoldsSetOf(ty, t) || exists u :: Reaches(s, ty, u) && u in s.types && AnyHoldsSetOf(s.types[u], t)
  }

  predicate AnyHoldsSetOf(fields: seq<Field>, t: string) {
    exists f <- fields :: HoldsSetOf(f.ty, t)
  }

  /** Some field is annotated as the primary key. */
  predicate Keyed(fields: seq<Field>) {
    exists f <- fields :: PrimaryKey in f.annotations
  }

  // ---------------------------------------------------------------------------
  // The same by recursion, never expanding a type twice

  ghost predicate Met(s: Schema, path: set<string>, ty: FieldType, u: string)
    decreases s.types.Keys - path, 0, ty
  {
    match ty
    case Primitive(_) => false
    case SetOf(member) => Met(s, path, member, u)
    case Table(t) => t !in path && (u == t || (t in s.types && MetAny(s, path + {t}, s.types[t], u)))
  }

  ghost predicate MetAny(s: Schema, path: set<string>, fields: seq<Field>, u: string)
    decreases s.types.Keys - path, 1, |fields|
  {
    fields != [] && (Met(s, path, fields[0].ty, u) || MetAny(s, path, fields[1..], u))
  }

  lemma {:induction false} MetAnyField(s: Schema, path: set<string>, fields: seq<Field>, u: string)
    ensures MetAny(s, path, fields, u) <==> exists f <- fields :: Met(s, path, f.ty, u)
    decreases |fields|
  {
    if fields != [] {
      MetAnyField(s, path, fields[1..], u);
      assert fields == [fields[0]] + fields[1..];
    }
  }

  ghost predicate Simple(path: set<string>, ts: seq<string>) {
    (forall i, j :: 0 <= i < j < |ts| ==> ts[i] != ts[j]) && forall i :: 0 <= i < |ts| ==> ts[i] !in path
  }

  lemma {:induction false} MentionsMet(s: Schema, path: set<string>, ty: FieldType, t: string, u: string)
    requires Mentions(ty, t) && Met(s, path, Table(t), u)
    ensures Met(s, path, ty, u)
  {
    if ty.SetOf? { MentionsMet(s, path, ty.member, t, u); }
  }

  /** A branch without repeats is met. */
  lemma {:induction false} BranchMet(s: Schema, path: set<string>, ty: FieldType, ts: seq<string>)
    requires Branch(s, ty, ts) && Simple(path, ts)
    ensures Met(s, path, ty, ts[|ts| - 1])
    decreases |ts|
  {
    var (t, u) := (ts[0], ts[|ts| - 1]);
    if |ts| > 1 {
      var rest := ts[1..];
      assert t in s.types && MentionsAny(s.types[t], ts[1]);
      var f :| f in s.types[t] && Mentions(f.ty, ts[1]);
      assert Branch(s, f.ty, rest) by {
        forall i | 0 <= i < |rest| - 1 ensures rest[i] in s.types && MentionsAny(s.types[rest[i]], rest[i + 1]) {
          assert rest[i] == ts[i + 1] && rest[i + 1] == ts[i + 2];
        }
      }
      BranchMet(s, path + {t}, f.ty, rest);
      MetAnyField(s, path + {t}, s.types[t], u);
    }
    MentionsMet(s, path, ty, t, u);
  }

  /** What is met is at the end of a branch. */
  lemma {:induction false} MetBranch(s: Schema, path: set<string>, ty: FieldType, u: string) returns (ts: seq<string>)
    requires Met(s, path, ty, u)
    ensures Branch(s, ty, ts) && ts[|ts| - 1] == u
    decreases s.types.Keys - path, 0, ty
  {
    match ty
    case SetOf(member) => ts := MetBranch(s, path, member, u);
    case Table(t) =>
      ts := [t];
      if u != t {
        var f, rest := MetBranchIn(s, path + {t}, s.types[t], u);
        ts := [t] + rest;
        assert f in s.types[t] && MentionsAny(s.types[t], rest[0]);
        forall i | 0 <= i < |ts| - 1 ensures ts[i] in s.types && MentionsAny(s.types[ts[i]], ts[i + 1]) {
          if i > 0 { assert ts[i] == rest[i - 1] && ts[i + 1] == rest[i]; }
        }
      }
  }

  lemma {:induction false} MetBranchIn(s: Schema, path: set<string>, fields: seq<Field>, u: string)
    returns (f: Field, ts: seq<string>)
    requires MetAny(s, path, fields, u)
    ensures f in fields && Branch(s, f.ty, ts) && ts[|ts| - 1] == u
    decreases s.types.Keys - path, 1, |fields|
  {
    if Met(s, path, fields[0].ty, u) {
      f := fields[0];
      ts := MetBranch(s, path, f.ty, u);
    } else {
      f, ts := MetBranchIn(s, path, fields[1..], u);
    }
  }

  /** A branch with a repeat can be cut short. */
  lemma {:induction false} CutBranch(s: Schema, ty: FieldType, ts: seq<string>, i: nat, j: nat)
    requires Branch(s, ty, ts) && i < j < |ts| && ts[i] == ts[j]
    ensures var cut := ts[..i] + ts[j..]; Branch(s, ty, cut) && cut[|cut| - 1] == ts[|ts| - 1]
  {
    var cut := ts[..i] + ts[j..];
    forall k | 0 <= k < |cut| - 1 ensures cut[k] in s.types && MentionsAny(s.types[cut[k]], cut[k + 1]) {
      if k < i {
        assert cut[k] == ts[k] && cut[k + 1] == ts[k + 1];
      } else {
        assert cut[k] == ts[k - i + j] && cut[k + 1] == ts[k + 1 - i + j];
      }
    }
  }

  lemma {:induction false} ReachedIsMet(s: Schema, ty: FieldType, ts: seq<string>)
    requires Branch(s, ty, ts)
    ensures Met(s, {}, ty, ts[|ts| - 1])
    decreases |ts|
  {
    if i, j :| 0 <= i < j < |ts| && ts[i] == ts[j] {
      CutBranch(s, ty, ts, i, j);
      ReachedIsMet(s, ty, ts[..i] + ts[j..]);
    } else {
      BranchMet(s, {}, ty, ts);
    }
  }

  lemma {:induction false} ReachesIsMet(s: Schema, ty: FieldType, u: string)
    ensures Reaches(s, ty, u) <==> Met(s, {}, ty, u)
  {
    if Met(s, {}, ty, u) { var ts := MetBranch(s, {}, ty, u); }
    if ts :| Branch(s, ty, ts) && ts[|ts| - 1] == u { ReachedIsMet(s, ty, ts); }
  }

  // ---------------------------------------------------------------------------
  // The first pass

  ghost predicate AllMetDeclared(s: Schema, path: set<string>, ty: FieldType) {
    forall u :: Met(s, path, ty, u) ==> u in s.types
  }

  lemma {:induction false} CollectSucceedsIff(s: Schema, path: set<string>, ty: FieldType)
    ensures Collect(s, path, ty).Success? <==> AllMetDeclared(s, path, ty)
    decreases s.types.Keys - path, 0, ty
  {
    match ty
    case Primitive(_) =>
    case SetOf(member) =>
      CollectSucceedsIff(s, path, member);
      assert forall u :: Met(s, path, ty, u) <==> Met(s, path, member, u);
    case Table(t) =>
      if t !in path {
        assert Met(s, path, ty, t);
        if t in s.types {
          CollectFieldsSucceedIff(s, path + {t}, s.types[t]);
          assert forall u :: Met(s, path, ty, u) <==> u == t || MetAny(s, path + {t}, s.types[t], u);
        }
      }
  }

  lemma {:induction false} CollectFieldsSucceedIff(s: Schema, path: set<string>, fields: seq<Field>)
    ensures CollectFields(s, path, fields).Success? <==> forall u :: MetAny(s, path, fields, u) ==> u in s.types
    decreases s.types.Keys - path, 1, |fields|
  {
    if fields != [] {
      CollectSucceedsIff(s, path, fields[0].ty);
      CollectFieldsSucceedIff(s, path, fields[1..]);
      assert forall u :: MetAny(s, path, fields, u) <==> Met(s, path, fields[0].ty, u) || MetAny(s, path, fields[1..], u);
    }
  }

  /** Below `path` there is a set of table `t`. */
  ghost predicate SetMet(s: Schema, path: set<string>, ty: FieldType, t: string) {
    HoldsSetOf(ty, t) || exists u :: Met(s, path, ty, u) && u in s.types && AnyHoldsSetOf(s.types[u], t)
  }

  ghost predicate SetMetAny(s: Schema, path: set<string>, fields: seq<Field>, t: string) {
    AnyHoldsSetOf(fields, t) || exists u :: MetAny(s, path, fields, u) && u in s.types && AnyHoldsSetOf(s.types[u], t)
  }

  lemma {:induction false} CollectsMembers(s: Schema, path: set<string>, ty: FieldType, t: string)
    requires Collect(s, path, ty).Success?
    ensures t in Collect(s, path, ty).value.members <==> SetMet(s, path, ty, t)
    decreases s.types.Keys - path, 0, ty
  {
    match ty
    case Primitive(_) =>
    case SetOf(member) =>
      CollectsMembers(s, path, member, t);
      assert forall u :: Met(s, path, ty, u) <==> Met(s, path, member, u);
    case Table(name) =>
      if name in path {
        assert forall u :: !Met(s, path, ty, u);
      } else {
        CollectsMembersIn(s, path + {name}, s.types[name], t);
        TableSetMet(s, path, name, t);
      }
  }

  lemma {:induction false} TableSetMet(s: Schema, path: set<string>, name: string, t: string)
    requires name !in path && name in s.types
    ensures SetMet(s, path, Table(name), t) <==> SetMetAny(s, path + {name}, s.types[name], t)
  {
    assert forall u :: Met(s, path, Table(name), u) <==> u == name || MetAny(s, path + {name}, s.types[name], u);
    if AnyHoldsSetOf(s.types[name], t) { assert Met(s, path, Table(name), name); }
  }

  lemma {:induction false} CollectsMembersIn(s: Schema, path: set<string>, fields: seq<Field>, t: string)
    requires CollectFields(s, path, fields).Success?
    ensures t in CollectFields(s, path, fields).value.members <==> SetMetAny(s, path, fields, t)
    decreases s.types.Keys - path, 1, |fields|
  {
    if fields != [] {
      CollectsMembers(s, path, fields[0].ty, t);
      CollectsMembersIn(s, path, fields[1..], t);
      assert forall u :: MetAny(s, path, fields, u) <==> Met(s, path, fields[0].ty, u) || MetAny(s, path, fields[1..], u);
      assert fields == [fields[0]] + fields[1..];
    }
  }

  lemma {:induction false} CollectExportsIff(s: Schema, exports: seq<Export>)
    ensures CollectExports(s, exports).Success? <==> forall e <- exports :: AllMetDeclared(s, {}, e.ty)
    ensures CollectExports(s, exports).Success? ==>
      forall t :: t in CollectExports(s, exports).value.members <==> exists e <- exports :: SetMet(s, {}, e.ty, t)
  {
    if exports != [] {
      CollectSucceedsIff(s, {}, exports[0].ty);
      CollectExportsIff(s, exports[1..]);
      assert exports == [exports[0]] + exports[1..];
      if CollectExports(s, exports).Success? {
        forall t ensures t in CollectExports(s, exports).value.members <==> exists e <- exports :: SetMet(s, {}, e.ty, t) {
          CollectsMembers(s, {}, exports[0].ty, t);
        }
      }
    }
  }

  // ---------------------------------------------------------------------------
  // Primary keys

  lemma {:induction false} PrimaryOkIff(s: Schema, members: set<string>, path: set<string>, ty: FieldType)
    ensures PrimaryOk(s, members, path, ty) <==>
      forall u :: Met(s, path, ty, u) && u in s.types && u in members ==> Keyed(s.types[u])
    decreases s.types.Keys - path, 0, ty
  {
    match ty
    case Primitive(_) =>
    case SetOf(member) =>
      PrimaryOkIff(s, members, path, member);
      assert forall u :: Met(s, path, ty, u) <==> Met(s, path, member, u);
    case Table(t) =>
      if t !in path && t in s.types {
        PrimaryOkAllIff(s, members, path + {t}, s.types[t]);
        assert forall u :: Met(s, path, ty, u) <==> u == t || MetAny(s, path + {t}, s.types[t], u);
        assert Met(s, path, ty, t);
        HasPrimaryIff(s.types[t]);
      } else {
        assert forall u :: Met(s, path, ty, u) ==> u !in s.types;
      }
  }

  lemma {:induction false} HasPrimaryIff(fields: seq<Field>)
    ensures HasPrimary(fields) <==> Keyed(fields)
  {
  }

  lemma {:induction false} PrimaryOkAllIff(s: Schema, members: set<string>, path: set<string>, fields: seq<Field>)
    ensures PrimaryOkAll(s, members, path, fields) <==>
      forall u :: MetAny(s, path, fields, u) && u in s.types && u in members ==> Keyed(s.types[u])
    decreases s.types.Keys - path, 1, |fields|
  {
    if fields != [] {
      PrimaryOkIff(s, members, path, fields[0].ty);
      PrimaryOkAllIff(s, members, path, fields[1..]);
      assert forall u :: MetAny(s, path, fields, u) <==> Met(s, path, fields[0].ty, u) || MetAny(s, path, fields[1..], u);
    }
  }

  // ---------------------------------------------------------------------------
  // Keys

  /** The candidates that are not used yet. */
  function Unused(st: State): set<Key> {
    set k | k in st.candidates && k !in st.used
  }

  /** A fresh key is there exactly if some candidate is unused, and takes it. */
  lemma {:induction false} FreshKeyIff(st: State)
    ensures FreshKey(st).Success? <==> Unused(st) != {}
    ensures FreshKey(st).Success? ==> |Unused(FreshKey(st).value.1)| == |Unused(st)| - 1
    decreases |st.candidates|
  {
    if st.candidates != [] {
      var (k, rest) := (st.candidates[0], st.candidates[1..]);
      assert st.candidates == [k] + rest;
      if k in st.used {
        FreshKeyIff(st.(candidates := rest));
        assert Unused(st.(candidates := rest)) == Unused(st);
      } else {
        assert k in Unused(st);
        assert Unused(State(st.used + {k}, rest)) == Unused(st) - {k};
      }
    }
  }

  /** How many nodes of the layout continue no old node. */
  ghost function NewNodes(cx: Inputs, path: set<string>, ty: FieldType, p: Option<OldPoint>): nat
    decreases cx.schema.types.Keys - path, 0, ty
  {
    var own := if p.Some? then 0 else 1;
    match ty
    case Primitive(_) => own
    case SetOf(member) => own + NewNodes(cx, path, member, EntryPoint(p, member))
    case Table(t) =>
      if t in path || t !in cx.schema.types then own else own + NewNodesIn(cx, path + {t}, cx.schema.types[t], p)
  }

  ghost function NewNodesIn(cx: Inputs, path: set<string>, fields: seq<Field>, p: Option<OldPoint>): nat
    decreases cx.schema.types.Keys - path, 1, |fields|
  {
    if fields == [] then 0
    else NewNodes(cx, path, fields[0].ty, FieldPoint(cx.prior, p, fields[0])) + NewNodesIn(cx, path, fields[1..], p)
  }

  ghost function NewNodesOf(cx: Inputs, oldPlan: Plan, exports: seq<Export>): nat {
    if exports == [] then 0
    else NewNodes(cx, {}, exports[0].ty, RootPoint(oldPlan, cx.prior, exports[0])) + NewNodesOf(cx, oldPlan, exports[1..])
  }

  /** Generation goes through on enough keys, and uses as many as it needs. */
  ghost predicate Spends<T>(ok: bool, st: State, needed: nat, r: Result<(T, State), PlanError>) {
    (r.Success? <==> ok && needed <= |Unused(st)|) && (r.Success? ==> |Unused(r.value.1)| == |Unused(st)| - needed)
  }

  lemma {:induction false} KeyForSpends(st: State, p: Option<OldPoint>)
    ensures Spends(true, st, if p.Some? then 0 else 1, KeyFor(st, p))
  {
    FreshKeyIff(st);
    assert Unused(st) == {} <==> |Unused(st)| == 0;
  }

  lemma {:induction false} GenSpends(cx: Inputs, st: State, stack: map<string, Key>, path: set<string>, ty: FieldType,
                                     p: Option<OldPoint>)
    requires Covered(cx, path, ty) && stack.Keys == path * cx.recursive
    ensures Spends(PrimaryOk(cx.schema, cx.members, path, ty), st, NewNodes(cx, path, ty, p),
                   GenField(cx, st, stack, path, ty, p))
    decreases cx.schema.types.Keys - path, 0, ty
  {
    KeyForSpends(st, p);
    match ty
    case Primitive(_) =>
    case SetOf(member) =>
      GenSpends(cx, st, stack, path, member, MemberPoint(p, member));
      var r := GenField(cx, st, stack, path, member, MemberPoint(p, member));
      if r.Success? { KeyForSpends(r.value.1, p); }
    case Table(t) =>
      if t !in stack { TableSpends(cx, st, stack, path, t, p); }
  }

  lemma {:induction false} TableSpends(cx: Inputs, st: State, stack: map<string, Key>, path: set<string>, t: string,
                                       p: Option<OldPoint>)
    requires Covered(cx, path, Table(t)) && stack.Keys == path * cx.recursive && t !in stack
    ensures Spends(PrimaryOk(cx.schema, cx.members, path, Table(t)), st, NewNodes(cx, path, Table(t), p),
                   GenField(cx, st, stack, path, Table(t), p))
    decreases cx.schema.types.Keys - path, 0, Table(t), 0
  {
    KeyForSpends(st, p);
    if KeyFor(st, p).Success? {
      var (key, st') := KeyFor(st, p).value;
      GenFieldsSpend(cx, st', PushType(cx, stack, t, key), path + {t}, cx.schema.types[t], p);
    }
  }

  lemma {:induction false} GenFieldsSpend(cx: Inputs, st: State, stack: map<string, Key>, path: set<string>,
                                          fields: seq<Field>, p: Option<OldPoint>)
    requires CoveredFields(cx, path, fields) && stack.Keys == path * cx.recursive
    ensures Spends(PrimaryOkAll(cx.schema, cx.members, path, fields), st, NewNodesIn(cx, path, fields, p),
                   GenFields(cx, st, stack, path, fields, p))
    decreases cx.schema.types.Keys - path, 1, |fields|
  {
    if fields != [] {
      var q := SubPoint(cx.prior, p, fields[0]);
      FieldPointFound(cx.prior, p, fields[0]);
      GenSpends(cx, st, stack, path, fields[0].ty, q);
      var r := GenField(cx, st, stack, path, fields[0].ty, q);
      if r.Success? { GenFieldsSpend(cx, r.value.1, stack, path, fields[1..], p); }
    }
  }

  lemma {:induction false} GenExportsSpend(cx: Inputs, st: State, oldPlan: Plan, exports: seq<Export>)
    requires CoveredExports(cx, exports)
    ensures Spends(forall e <- exports :: PrimaryOk(cx.schema, cx.members, {}, e.ty), st,
                   NewNodesOf(cx, oldPlan, exports), GenExports(cx, st, oldPlan, exports))
    decreases exports
  {
    if exports != [] {
      var p := ExportPoint(oldPlan, cx.prior, exports[0]);
      RootPointFound(oldPlan, cx.prior, exports[0]);
      assert exports == [exports[0]] + exports[1..];
      GenSpends(cx, st, map[], {}, exports[0].ty, p);
      var r := GenField(cx, st, map[], {}, exports[0].ty, p);
      if r.Success? { GenExportsSpend(cx, r.value.1, oldPlan, exports[1..]); }
    }
  }

  // ---------------------------------------------------------------------------
  // Whole plans

  /** No branch of the schema ends in a type that is not declared. */
  ghost predicate AllDeclared(s: Schema) {
    forall e <- s.exports, u :: Reaches(s, e.ty, u) ==> u in s.types
  }

  /** Every table that is a set member somewhere below an export has a primary key. */
  ghost predicate MembersKeyed(s: Schema) {
    forall e <- s.exports, t :: SetReached(s, e.ty, t) && t in s.types ==> Keyed(s.types[t])
  }

  /** The number of keys a migration needs; it depends on the two schemas and the old plan only. */
  ghost function KeysNeeded(oldPlan: Plan, prior: Schema, s: Schema): nat {
    NewNodesOf(Inputs(s, prior, {}, {}), oldPlan, s.exports)
  }

  lemma {:induction false} NewNodesSame(cx: Inputs, cx': Inputs, path: set<string>, ty: FieldType, p: Option<OldPoint>)
    requires cx.schema == cx'.schema && cx.prior == cx'.prior
    ensures NewNodes(cx, path, ty, p) == NewNodes(cx', path, ty, p)
    decreases cx.schema.types.Keys - path, 0, ty
  {
    match ty
    case Primitive(_) =>
    case SetOf(member) => NewNodesSame(cx, cx', path, member, EntryPoint(p, member));
    case Table(t) =>
      if t !in path && t in cx.schema.types { NewNodesInSame(cx, cx', path + {t}, cx.schema.types[t], p); }
  }

  lemma {:induction false} NewNodesInSame(cx: Inputs, cx': Inputs, path: set<string>, fields: seq<Field>,
                                          p: Option<OldPoint>)
    requires cx.schema == cx'.schema && cx.prior == cx'.prior
    ensures NewNodesIn(cx, path, fields, p) == NewNodesIn(cx', path, fields, p)
    decreases cx.schema.types.Keys - path, 1, |fields|
  {
    if fields != [] {
      NewNodesSame(cx, cx', path, fields[0].ty, FieldPoint(cx.prior, p, fields[0]));
      NewNodesInSame(cx, cx', path, fields[1..], p);
    }
  }

  lemma {:induction false} NewNodesOfSame(cx: Inputs, cx': Inputs, oldPlan: Plan, exports: seq<Export>)
    requires cx.schema == cx'.schema && cx.prior == cx'.prior
    ensures NewNodesOf(cx, oldPlan, exports) == NewNodesOf(cx', oldPlan, exports)
  {
    if exports != [] {
      NewNodesSame(cx, cx', {}, exports[0].ty, RootPoint(oldPlan, cx.prior, exports[0]));
      NewNodesOfSame(cx, cx', oldPlan, exports[1..]);
    }
  }

  lemma {:induction false} SetReachedIsMet(s: Schema, ty: FieldType, t: string)
    ensures SetReached(s, ty, t) <==> SetMet(s, {}, ty, t)
  {
    forall u ensures Reaches(s, ty, u) <==> Met(s, {}, ty, u) { ReachesIsMet(s, ty, u); }
  }

  lemma {:induction false} HeldIsMentioned(ty: FieldType, t: string)
    requires HoldsSetOf(ty, t)
    ensures Mentions(ty, t)
  {
    if ty.member != Table(t) { HeldIsMentioned(ty.member, t); }
  }

  /** A set member is itself reached. */
  lemma {:induction false} MemberReached(s: Schema, ty: FieldType, t: string)
    requires SetReached(s, ty, t)
    ensures Reaches(s, ty, t)
  {
    if HoldsSetOf(ty, t) {
      HeldIsMentioned(ty, t);
      assert Branch(s, ty, [t]);
      assert [t][|[t]| - 1] == t;
    } else {
      var u :| Reaches(s, ty, u) && u in s.types && AnyHoldsSetOf(s.types[u], t);
      var ts :| Branch(s, ty, ts) && ts[|ts| - 1] == u;
      var f :| f in s.types[u] && HoldsSetOf(f.ty, t);
      HeldIsMentioned(f.ty, t);
      assert MentionsAny(s.types[u], t);
      var longer := ts + [t];
      assert Branch(s, ty, longer) && longer[|longer| - 1] == t;
    }
  }

  /** The members that the first pass collects are the tables of the sets below the exports. */
  lemma {:induction false} MembersAreReached(s: Schema, members: set<string>)
    requires CollectExports(s, s.exports).Success? && members == CollectExports(s, s.exports).value.members
    ensures forall t :: t in members <==> exists e <- s.exports :: SetReached(s, e.ty, t)
  {
    CollectExportsIff(s, s.exports);
    forall e <- s.exports, t ensures SetReached(s, e.ty, t) <==> SetMet(s, {}, e.ty, t) { SetReachedIsMet(s, e.ty, t); }
  }

  lemma {:induction false} PrimariesExactly(s: Schema, members: set<string>)
    requires CollectExports(s, s.exports).Success? && members == CollectExports(s, s.exports).value.members
    ensures (forall e <- s.exports :: PrimaryOk(s, members, {}, e.ty)) <==> MembersKeyed(s)
  {
    MembersAreReached(s, members);
    forall e <- s.exports
      ensures PrimaryOk(s, members, {}, e.ty) <==>
        forall u :: Reaches(s, e.ty, u) && u in s.types && u in members ==> Keyed(s.types[u])
    {
      PrimaryOkIff(s, members, {}, e.ty);
      forall u ensures Reaches(s, e.ty, u) <==> Met(s, {}, e.ty, u) { ReachesIsMet(s, e.ty, u); }
    }
    forall e <- s.exports, t | SetReached(s, e.ty, t) ensures Reaches(s, e.ty, t) && t in members {
      MemberReached(s, e.ty, t);
    }
  }

  lemma {:induction false} DeclaredExactly(s: Schema)
    ensures CollectExports(s, s.exports).Success? <==> AllDeclared(s)
  {
    CollectExportsIff(s, s.exports);
    forall e <- s.exports ensures AllMetDeclared(s, {}, e.ty) <==> forall u :: Reaches(s, e.ty, u) ==> u in s.types {
      forall u ensures Reaches(s, e.ty, u) <==> Met(s, {}, e.ty, u) { ReachesIsMet(s, e.ty, u); }
    }
  }

  /**
   Planning succeeds if and only if every type that the exports reach is declared, every table of a set below them has a
   primary key, and there are at least as many unused candidate keys as nodes that continue no old node.
   */
  lemma {:induction false} PlansExactlyIf(oldPlan: Plan, prior: Schema, s: Schema, candidates: seq<Key>)
    ensures GeneratePlan(oldPlan, prior, s, candidates).Success? <==>
      AllDeclared(s) && MembersKeyed(s) &&
      KeysNeeded(oldPlan, prior, s) <= |set k | k in candidates && k !in KeysOf(oldPlan)|
  {
    DeclaredExactly(s);
    if CollectExports(s, s.exports).Success? {
      var (sp, st) := (CollectExports(s, s.exports).value, State(KeysOf(oldPlan), candidates));
      var cx := InputsFor(prior, s, sp);
      CollectedExports(cx, s.exports);
      PrimariesExactly(s, sp.members);
      GenExportsSpend(cx, st, oldPlan, s.exports);
      NewNodesOfSame(cx, Inputs(s, prior, {}, {}), oldPlan, s.exports);
      assert Unused(st) == set k | k in candidates && k !in KeysOf(oldPlan);
    }
  }

  // ---------------------------------------------------------------------------
  // Errors

  lemma {:induction false} CollectError(s: Schema, path: set<string>, ty: FieldType)
    requires Collect(s, path, ty).Failure?
    ensures var e := Collect(s, path, ty).error; e.MissingType? && e.name !in s.types && Met(s, path, ty, e.name)
    decreases s.types.Keys - path, 0, ty
  {
    match ty
    case SetOf(member) => CollectError(s, path, member);
    case Table(t) => if t in s.types { CollectFieldsError(s, path + {t}, s.types[t]); }
  }

  lemma {:induction false} CollectFieldsError(s: Schema, path: set<string>, fields: seq<Field>)
    requires CollectFields(s, path, fields).Failure?
    ensures var e := CollectFields(s, path, fields).error;
      e.MissingType? && e.name !in s.types && MetAny(s, path, fields, e.name)
    decreases s.types.Keys - path, 1, |fields|
  {
    if Collect(s, path, fields[0].ty).Failure? {
      CollectError(s, path, fields[0].ty);
    } else {
      CollectFieldsError(s, path, fields[1..]);
    }
  }

  lemma {:induction false} CollectExportsError(s: Schema, exports: seq<Export>)
    requires CollectExports(s, exports).Failure?
    ensures var err := CollectExports(s, exports).error;
      err.MissingType? && err.name !in s.types && exists e <- exports :: Met(s, {}, e.ty, err.name)
  {
    if Collect(s, {}, exports[0].ty).Failure? {
      CollectError(s, {}, exports[0].ty);
    } else {
      CollectExportsError(s, exports[1..]);
    }
  }

  /** The error of a failed generation: a met set member without a key, or fewer unused keys than needed. */
  ghost predicate Justified(cx: Inputs, st: State, met: iset<string>, needed: nat, err: PlanError) {
    match err
    case MissingType(_) => false
    case NoPrimaryKey(t) => t in met && t in cx.members && t in cx.schema.types && !Keyed(cx.schema.types[t])
    case OutOfKeys => needed > |Unused(st)|
  }

  ghost function MetSet(s: Schema, path: set<string>, ty: FieldType): iset<string> {
    iset u | Met(s, path, ty, u)
  }

  ghost function MetAnySet(s: Schema, path: set<string>, fields: seq<Field>): iset<string> {
    iset u | MetAny(s, path, fields, u)
  }

  ghost predicate MetFrom(s: Schema, exports: seq<Export>, u: string) {
    exists e <- exports :: Met(s, {}, e.ty, u)
  }

  ghost function MetFromSet(s: Schema, exports: seq<Export>): iset<string> {
    iset u | MetFrom(s, exports, u)
  }

  lemma {:induction false} KeyError(st: State, p: Option<OldPoint>)
    requires KeyFor(st, p).Failure?
    ensures KeyFor(st, p).error == OutOfKeys && |Unused(st)| == 0 && p.None?
    decreases |st.candidates|
  {
    FreshKeyIff(st);
    if st.candidates != [] { KeyError(st.(candidates := st.candidates[1..]), p); }
  }

  lemma {:induction false} GenError(cx: Inputs, st: State, stack: map<string, Key>, path: set<string>, ty: FieldType,
                                    p: Option<OldPoint>)
    requires Covered(cx, path, ty) && stack.Keys == path * cx.recursive && GenField(cx, st, stack, path, ty, p).Failure?
    ensures Justified(cx, st, MetSet(cx.schema, path, ty), NewNodes(cx, path, ty, p),
                      GenField(cx, st, stack, path, ty, p).error)
    decreases cx.schema.types.Keys - path, 0, ty
  {
    match ty
    case Primitive(_) => KeyError(st, p);
    case SetOf(member) =>
      var q := MemberPoint(p, member);
      var r := GenField(cx, st, stack, path, member, q);
      assert forall u :: Met(cx.schema, path, ty, u) <==> Met(cx.schema, path, member, u);
      if r.Failure? {
        GenError(cx, st, stack, path, member, q);
      } else {
        GenSpends(cx, st, stack, path, member, q);
        KeyError(r.value.1, p);
      }
    case Table(t) =>
      if KeyFor(st, p).Failure? { KeyError(st, p); } else { TableError(cx, st, stack, path, t, p); }
  }

  lemma {:induction false} TableError(cx: Inputs, st: State, stack: map<string, Key>, path: set<string>, t: string,
                                      p: Option<OldPoint>)
    requires Covered(cx, path, Table(t)) && stack.Keys == path * cx.recursive && KeyFor(st, p).Success?
    requires GenField(cx, st, stack, path, Table(t), p).Failure?
    ensures Justified(cx, st, MetSet(cx.schema, path, Table(t)), NewNodes(cx, path, Table(t), p),
                      GenField(cx, st, stack, path, Table(t), p).error)
    decreases cx.schema.types.Keys - path, 0, Table(t), 0
  {
    var ((key, st'), fields) := (KeyFor(st, p).value, cx.schema.types[t]);
    var stack' := PushType(cx, stack, t, key);
    KeyForSpends(st, p);
    assert forall u :: Met(cx.schema, path, Table(t), u) <==> u == t || MetAny(cx.schema, path + {t}, fields, u);
    if GenFields(cx, st', stack', path + {t}, fields, p).Failure? {
      GenFieldsError(cx, st', stack', path + {t}, fields, p);
    } else {
      HasPrimaryIff(fields);
    }
  }

  lemma {:induction false} GenFieldsError(cx: Inputs, st: State, stack: map<string, Key>, path: set<string>,
                                          fields: seq<Field>, p: Option<OldPoint>)
    requires CoveredFields(cx, path, fields) && stack.Keys == path * cx.recursive
    requires GenFields(cx, st, stack, path, fields, p).Failure?
    ensures Justified(cx, st, MetAnySet(cx.schema, path, fields), NewNodesIn(cx, path, fields, p),
                      GenFields(cx, st, stack, path, fields, p).error)
    decreases cx.schema.types.Keys - path, 1, |fields|
  {
    var q := SubPoint(cx.prior, p, fields[0]);
    FieldPointFound(cx.prior, p, fields[0]);
    var r := GenField(cx, st, stack, path, fields[0].ty, q);
    if r.Failure? {
      GenError(cx, st, stack, path, fields[0].ty, q);
    } else {
      GenSpends(cx, st, stack, path, fields[0].ty, q);
      GenFieldsError(cx, r.value.1, stack, path, fields[1..], p);
    }
  }

  lemma {:induction false} GenExportsError(cx: Inputs, st: State, oldPlan: Plan, exports: seq<Export>)
    requires CoveredExports(cx, exports) && GenExports(cx, st, oldPlan, exports).Failure?
    ensures Justified(cx, st, MetFromSet(cx.schema, exports), NewNodesOf(cx, oldPlan, exports),
                      GenExports(cx, st, oldPlan, exports).error)
    decreases exports
  {
    var p := ExportPoint(oldPlan, cx.prior, exports[0]);
    RootPointFound(oldPlan, cx.prior, exports[0]);
    var r := GenField(cx, st, map[], {}, exports[0].ty, p);
    assert exports == [exports[0]] + exports[1..];
    if r.Failure? {
      GenError(cx, st, map[], {}, exports[0].ty, p);
    } else {
      GenSpends(cx, st, map[], {}, exports[0].ty, p);
      GenExportsError(cx, r.value.1, oldPlan, exports[1..]);
    }
  }

  /** Every error tells the truth: the type is reached and missing, the set member has no key, or the keys do not suffice. */
  lemma {:induction false} ErrorsAreTrue(oldPlan: Plan, prior: Schema, s: Schema, candidates: seq<Key>)
    requires GeneratePlan(oldPlan, prior, s, candidates).Failure?
    ensures match GeneratePlan(oldPlan, prior, s, candidates).error
      case MissingType(t) => t !in s.types && exists e <- s.exports :: Reaches(s, e.ty, t)
      case NoPrimaryKey(t) => t in s.types && !Keyed(s.types[t]) && exists e <- s.exports :: SetReached(s, e.ty, t)
      case OutOfKeys => KeysNeeded(oldPlan, prior, s) > |set k | k in candidates && k !in KeysOf(oldPlan)|
  {
    if CollectExports(s, s.exports).Failure? {
      CollectExportsError(s, s.exports);
      forall e <- s.exports, u ensures Reaches(s, e.ty, u) <==> Met(s, {}, e.ty, u) { ReachesIsMet(s, e.ty, u); }
    } else {
      var (sp, st) := (CollectExports(s, s.exports).value, State(KeysOf(oldPlan), candidates));
      var cx := InputsFor(prior, s, sp);
      CollectedExports(cx, s.exports);
      GenExportsError(cx, st, oldPlan, s.exports);
      MembersAreReached(s, sp.members);
      NewNodesOfSame(cx, Inputs(s, prior, {}, {}), oldPlan, s.exports);
      assert Unused(st) == set k | k in candidates && k !in KeysOf(oldPlan);
    }
  }
}
