/**
 Migration keeps data where it is: a field that survives a schema change, under its own
 name or through `@rename_from`, is found under the very same key after replanning.
 */
module Migration {
  import opened Wrappers
  import opened ByteStrings
  import opened Schemas
  import opened StoragePlans
  import opened Planner
  import opened OldNames
  import opened PlannerProperties
  import opened PathWalker
  import opened WalkTyping

  // ---------------------------------------------------------------------------
  // Paths that survive, in terms of the two schemas

  /** Field `f` of table `t` was the old table's field `g`, with the same type. */
  predicate KeptAs(prior: Schema, t: string, f: Field, g: string) {
    t in prior.types && OldNameOf(f, FieldNames(prior.types[t]), g) &&
    FindField(prior.types[t], g).Some? && FindField(prior.types[t], g).value.ty == f.ty
  }

  predicate OldStep(s: Schema, prior: Schema, spot: Spot, step: Step, was: Step)
    requires SpotAfter(s, spot, step).Some?
  {
    match step
    case Entry(_) => was == step
    case Into(name) => was.Into? && KeptAs(prior, spot.ty.name, FindField(s.types[spot.ty.name], name).value, was.name)
  }

  /** Path `q` led to the same data under the old schema: every field on `p` was there, under its name in `q`. */
  predicate OldPath(s: Schema, prior: Schema, spot: Spot, p: seq<Step>, q: seq<Step>)
    requires Typed(s, spot, p)
    decreases |p|
  {
    |p| == |q| &&
    (p == [] || (OldStep(s, prior, spot, p[0], q[0]) && OldPath(s, prior, SpotAfter(s, spot, p[0]).value, p[1..], q[1..])))
  }

  // ---------------------------------------------------------------------------
  // Layouts that inherit

  /** The new layout has the old key and flattening, here and wherever it continues the old layout. */
  ghost predicate Inherits(cx: Inputs, ty: FieldType, n: StorageNode, o: StorageNode)
    decreases n, 0
  {
    n.key == o.key && n.flattened == o.flattened &&
    match ty
    case Primitive(_) => true
    case SetOf(member) => n.set_.Some? && o.set_.Some? && Inherits(cx, member, n.set_.value, o.set_.value)
    case Table(t) =>
      t in cx.schema.types && |n.children| == |cx.schema.types[t]| ==>
        forall i :: 0 <= i < |n.children| ==> ChildInherits(cx, t, cx.schema.types[t][i], n.children[i].node, o)
  }

  ghost predicate ChildInherits(cx: Inputs, t: string, f: Field, n: StorageNode, o: StorageNode)
    decreases n, 1
  {
    var q := SubPoint(cx.prior, Some(OldPoint(Table(t), o)), f);
    q.Some? ==> Inherits(cx, f.ty, n, q.value.node)
  }

  /** The old layout below an old point of the right type. */
  ghost predicate OldFits(old_: Inputs, path: set<string>, stack: map<string, Key>, ty: FieldType, o: StorageNode) {
    Covered(old_, path, ty) && stack.Keys == path * old_.recursive && Fits(old_.schema, old_.recursive, stack, ty, o)
  }

  lemma {:induction false} SubPointFits(old_: Inputs, path: set<string>, stack: map<string, Key>, t: string,
                                        o: StorageNode, f: Field)
    requires WellFormed(old_.schema) && OldFits(old_, path, stack, Table(t), o) && t !in path
    requires SubPoint(old_.schema, Some(OldPoint(Table(t), o)), f).Some?
    ensures var q := SubPoint(old_.schema, Some(OldPoint(Table(t), o)), f).value;
      q.ty == f.ty && OldFits(old_, path + {t}, PushType(old_, stack, t, o.key), f.ty, q.node)
  {
    var name := FirstPresent(o.children, AltNames(f)).value;
    var i := FieldChild(old_.schema, t, o, name);
    CoveredAt(old_, path + {t}, old_.schema.types[t], i);
  }

  /** Generation inherits wherever it is given an old point. */
  lemma {:induction false} GeneratedInherits(cx: Inputs, old_: Inputs, st: State, stack: map<string, Key>,
                                             path: set<string>, ty: FieldType, o: StorageNode,
                                             oldStack: map<string, Key>)
    requires cx.prior == old_.schema && WellFormed(old_.schema)
    requires Covered(cx, path, ty) && stack.Keys == path * cx.recursive && OldFits(old_, path, oldStack, ty, o)
    requires GenField(cx, st, stack, path, ty, Some(OldPoint(ty, o))).Success?
    ensures Inherits(cx, ty, GenField(cx, st, stack, path, ty, Some(OldPoint(ty, o))).value.0, o)
    decreases cx.schema.types.Keys - path, 0, ty
  {
    match ty
    case Primitive(_) =>
    case SetOf(member) => GeneratedInherits(cx, old_, st, stack, path, member, o.set_.value, oldStack);
    case Table(t) =>
      if t !in path {
        var p := Some(OldPoint(ty, o));
        GeneratedChildren(cx, old_, st, PushType(cx, stack, t, o.key), path + {t}, cx.schema.types[t], t, o, path, oldStack);
        GeneratedFitsAll(cx, st, PushType(cx, stack, t, o.key), path + {t}, cx.schema.types[t], p);
      }
  }

  lemma {:induction false} GeneratedChildren(cx: Inputs, old_: Inputs, st: State, stack: map<string, Key>,
                                             path: set<string>, fields: seq<Field>, t: string, o: StorageNode,
                                             above: set<string>, oldStack: map<string, Key>)
    requires cx.prior == old_.schema && WellFormed(old_.schema)
    requires CoveredFields(cx, path, fields) && stack.Keys == path * cx.recursive
    requires path == above + {t} && t !in above && OldFits(old_, above, oldStack, Table(t), o)
    requires GenFields(cx, st, stack, path, fields, Some(OldPoint(Table(t), o))).Success?
    ensures var children := GenFields(cx, st, stack, path, fields, Some(OldPoint(Table(t), o))).value.0;
      |children| == |fields| &&
      forall i :: 0 <= i < |children| ==> ChildInherits(cx, t, fields[i], children[i].node, o)
    decreases cx.schema.types.Keys - path, 1, |fields|
  {
    if fields != [] {
      var q := SubPoint(cx.prior, Some(OldPoint(Table(t), o)), fields[0]);
      if q.Some? {
        SubPointFits(old_, above, oldStack, t, o, fields[0]);
        GeneratedInherits(cx, old_, st, stack, path, fields[0].ty, q.value.node, PushType(old_, oldStack, t, o.key));
      }
      var (node, st') := GenField(cx, st, stack, path, fields[0].ty, q).value;
      GeneratedChildren(cx, old_, st', stack, path, fields[1..], t, o, above, oldStack);
      var rest := GenFields(cx, st', stack, path, fields[1..], Some(OldPoint(Table(t), o))).value.0;
      assert GenFields(cx, st, stack, path, fields, Some(OldPoint(Table(t), o))).value.0 == [Child(fields[0].name, node)] + rest;
      assert ChildInherits(cx, t, fields[0], node, o);
    }
  }

  // ---------------------------------------------------------------------------
  // Two walks in lock step

  /** The same key components all the way up. */
  predicate Twin(a: Walker, b: Walker)
    decreases a
  {
    a.key == b.key && a.flatten == b.flatten && a.depth == b.depth && a.link.Some? == b.link.Some? &&
    (a.link.Some? ==> Twin(a.link.value, b.link.value))
  }

  lemma {:induction false} TwinKeys(a: Walker, b: Walker)
    requires Twin(a, b)
    ensures KeyOf(a) == KeyOf(b)
  {
    TwinBases(a, b);
  }

  lemma {:induction false} TwinBases(a: Walker, b: Walker)
    requires Twin(a, b)
    ensures Base(a.link) == Base(b.link)
    decreases a
  {
    if a.link.Some? { TwinBases(a.link.value, b.link.value); }
  }

  ghost predicate TrailsMatch(cx: Inputs, a: seq<Level>, b: seq<Level>) {
    Names(a) == Names(b) &&
    forall i :: 0 <= i < |a| ==> Inherits(cx, Table(a[i].name), a[i].node, b[i].node)
  }

  /** The new walker and the old walker stand on matching layouts with the same key so far. */
  ghost predicate Together(cx: Inputs, a: Walker, b: Walker, ty: FieldType, ta: seq<Level>, tb: seq<Level>) {
    Twin(a, b) && Inherits(cx, ty, a.node, b.node) && TrailsMatch(cx, ta, tb)
  }

  lemma {:induction false} SamePresence(fields: seq<Field>, children: seq<Child>, name: string)
    requires |fields| == |children| && forall i :: 0 <= i < |fields| ==> children[i].name == fields[i].name
    ensures FindField(fields, name).Some? <==> FindChild(children, name).Some?
  {
    if fields != [] { SamePresence(fields[1..], children[1..], name); }
  }

  /** A kept field's old layout is the one generation inherited from. */
  lemma {:induction false} KeptPoint(old_: Inputs, t: string, o: StorageNode, f: Field, g: string)
    requires t in old_.schema.types && |o.children| == |old_.schema.types[t]| && KeptAs(old_.schema, t, f, g)
    requires forall i :: 0 <= i < |o.children| ==> o.children[i].name == old_.schema.types[t][i].name
    ensures FindChild(o.children, g).Some? &&
      SubPoint(old_.schema, Some(OldPoint(Table(t), o)), f) == Some(OldPoint(f.ty, FindChild(o.children, g).value))
  {
    assert ChildNames(o.children) == FieldNames(old_.schema.types[t]);
    AltNamesFound(o.children, f, g);
    SamePresence(old_.schema.types[t], o.children, g);
  }

  /** The layouts that two field steps lead to match. */
  lemma {:induction false} FieldsTogether(cx: Inputs, a: Walker, b: Walker, ty: FieldType, fa: seq<Level>,
                                          fb: seq<Level>, ca: StorageNode, cb: StorageNode)
    requires Twin(a, b) && TrailsMatch(cx, fa, fb) && Inherits(cx, ty, ca, cb)
    ensures Together(cx, FieldWalker(a, fa, ty, ca), FieldWalker(b, fb, ty, cb), ty, FieldTrail(fa, ty), FieldTrail(fb, ty))
  {
    if ty.Table? && ty.name in Names(fa) {
      var j := IndexOf(Names(fa), ty.name);
      assert Inherits(cx, Table(fa[j].name), fa[j].node, fb[j].node);
      assert Names(fa[..j]) == Names(fb[..j]);
    }
  }

  /** The levels that two live table spots add to their trails match. */
  lemma {:induction false} FullTrailsMatch(cx: Inputs, a: StorageNode, b: StorageNode, t: string, ta: seq<Level>,
                                           tb: seq<Level>)
    requires TrailsMatch(cx, ta, tb) && Inherits(cx, Table(t), a, b)
    ensures TrailsMatch(cx, ta + [Level(t, a)], tb + [Level(t, b)])
  {
    NamesSnoc(ta, Level(t, a));
    NamesSnoc(tb, Level(t, b));
    forall i | 0 <= i <= |ta|
      ensures Inherits(cx, Table((ta + [Level(t, a)])[i].name), (ta + [Level(t, a)])[i].node, (tb + [Level(t, b)])[i].node)
    {
      if i < |ta| { assert Inherits(cx, Table(ta[i].name), ta[i].node, tb[i].node); }
    }
  }

  /** The layouts of a kept field match. */
  lemma {:induction false} KeptLayouts(cx: Inputs, old_: Inputs, t: string, n: StorageNode, o: StorageNode,
                                       name: string, g: string)
    requires cx.prior == old_.schema && WellFormed(cx.schema) && Inherits(cx, Table(t), n, o)
    requires LandsOn(cx.schema, Spot(Table(t), []), n) && LandsOn(old_.schema, Spot(Table(t), []), o)
    requires FindField(cx.schema.types[t], name).Some?
    requires KeptAs(old_.schema, t, FindField(cx.schema.types[t], name).value, g)
    ensures var f := FindField(cx.schema.types[t], name).value;
      FindChild(n.children, name).Some? && FindChild(o.children, g).Some? &&
      Inherits(cx, f.ty, FindChild(n.children, name).value, FindChild(o.children, g).value)
  {
    var i := FieldChild(cx.schema, t, n, name);
    KeptPoint(old_, t, o, cx.schema.types[t][i], g);
    assert ChildInherits(cx, t, cx.schema.types[t][i], n.children[i].node, o);
  }

  lemma {:induction false} LiveLands(cx: Inputs, root: StorageNode, w: Walker, t: string, trail: seq<Level>)
    requires Standing(cx, root, w, Table(t), trail) && t !in Names(trail)
    ensures LandsOn(cx.schema, Spot(Table(t), []), w.node)
  {
    NameSetNames(trail, t);
    ExpandedTable(cx, root, w, t, trail);
  }

  /** Where two kept field steps lead. */
  lemma {:induction false} KeptTogether(cx: Inputs, old_: Inputs, a: Walker, b: Walker, t: string, ta: seq<Level>,
                                        tb: seq<Level>, name: string, g: string)
    requires cx.prior == old_.schema && WellFormed(cx.schema) && Together(cx, a, b, Table(t), ta, tb)
    requires LandsOn(cx.schema, Spot(Table(t), []), a.node) && LandsOn(old_.schema, Spot(Table(t), []), b.node)
    requires FindField(cx.schema.types[t], name).Some?
    requires KeptAs(old_.schema, t, FindField(cx.schema.types[t], name).value, g)
    ensures var f := FindField(cx.schema.types[t], name).value;
      var (fa, fb) := (ta + [Level(t, a.node)], tb + [Level(t, b.node)]);
      FindChild(a.node.children, name).Some? && FindChild(b.node.children, g).Some? &&
      Together(cx, FieldWalker(a, fa, f.ty, FindChild(a.node.children, name).value),
               FieldWalker(b, fb, f.ty, FindChild(b.node.children, g).value), f.ty, FieldTrail(fa, f.ty), FieldTrail(fb, f.ty))
  {
    var f := FindField(cx.schema.types[t], name).value;
    KeptLayouts(cx, old_, t, a.node, b.node, name, g);
    FullTrailsMatch(cx, a.node, b.node, t, ta, tb);
    FieldsTogether(cx, a, b, f.ty, ta + [Level(t, a.node)], tb + [Level(t, b.node)],
                   FindChild(a.node.children, name).value, FindChild(b.node.children, g).value);
  }

  /** A field step, in the form of the walker it leads to. */
  lemma {:induction false} FieldSide(cx: Inputs, root: StorageNode, w: Walker, t: string, trail: seq<Level>,
                                     name: string)
    requires WellFormed(cx.schema) && Distinct(root) && Standing(cx, root, w, Table(t), trail)
    requires t in cx.schema.types && t !in Names(trail) && w.depth < MAX_DEPTH
    requires FindField(cx.schema.types[t], name).Some?
    ensures LandsOn(cx.schema, Spot(Table(t), []), w.node) && FindChild(w.node.children, name).Some?
    ensures var (ty, full) := (FindField(cx.schema.types[t], name).value.ty, trail + [Level(t, w.node)]);
      var w' := FieldWalker(w, full, ty, FindChild(w.node.children, name).value);
      EnterField(w, name) == Success(w') && Standing(cx, root, w', ty, FieldTrail(full, ty)) &&
      FieldSpot(Names(trail) + [t], ty) == Spot(ty, Names(FieldTrail(full, ty)))
  {
    NameSetNames(trail, t);
    LiveLands(cx, root, w, t, trail);
    var trail' := FieldStep(cx, root, w, t, trail, name);
  }

  /** Entering a set entry on both sides. */
  lemma {:induction false} EntryTogether(cx: Inputs, a: Walker, b: Walker, member: FieldType, ta: seq<Level>,
                                         tb: seq<Level>, pk: Bytes)
    requires Together(cx, a, b, SetOf(member), ta, tb) && a.depth + 2 <= MAX_DEPTH
    ensures EnterSet(a, pk).Success? && EnterSet(b, pk).Success?
    ensures Together(cx, EnterSet(a, pk).value, EnterSet(b, pk).value, member, ta, tb)
  {
    var (x, y) := (EnterSet(a, pk).value, EnterSet(b, pk).value);
    assert Inherits(cx, member, a.node.set_.value, b.node.set_.value);
    assert x.key == y.key;
    assert Twin(x.link.value, y.link.value);
  }

  /** Walks along a path and its old form succeed together, with the same key. */
  lemma {:induction false} LockStep(cx: Inputs, old_: Inputs, ra: StorageNode, rb: StorageNode, a: Walker, b: Walker,
                                    ty: FieldType, ta: seq<Level>, tb: seq<Level>, p: seq<Step>,
                                    q: seq<Step>)
    requires cx.prior == old_.schema && WellFormed(cx.schema) && WellFormed(old_.schema) && Distinct(ra) && Distinct(rb)
    requires Standing(cx, ra, a, ty, ta) && Standing(old_, rb, b, ty, tb) && Together(cx, a, b, ty, ta, tb)
    requires Typed(cx.schema, Spot(ty, Names(ta)), p)
    requires OldPath(cx.schema, old_.schema, Spot(ty, Names(ta)), p, q)
    ensures Agree(Walk(a, p), Walk(b, q))
    decreases |p|, 1
  {
    if p == [] {
      TwinKeys(a, b);
    } else if p[0].Entry? {
      LockStepEntry(cx, old_, ra, rb, a, b, ty, ta, tb, p, q);
    } else {
      LockStepField(cx, old_, ra, rb, a, b, ty, ta, tb, p, q);
    }
  }

  /** Both walks fail, or both succeed with the same key. */
  predicate Agree(x: Result<Walker, WalkError>, y: Result<Walker, WalkError>) {
    x.Success? == y.Success? && (x.Success? ==> KeyOf(x.value) == KeyOf(y.value))
  }

  lemma {:induction false} LockStepEntry(cx: Inputs, old_: Inputs, ra: StorageNode, rb: StorageNode, a: Walker,
                                         b: Walker, ty: FieldType, ta: seq<Level>, tb: seq<Level>, p: seq<Step>,
                                         q: seq<Step>)
    requires cx.prior == old_.schema && WellFormed(cx.schema) && WellFormed(old_.schema) && Distinct(ra) && Distinct(rb)
    requires Standing(cx, ra, a, ty, ta) && Standing(old_, rb, b, ty, tb) && Together(cx, a, b, ty, ta, tb)
    requires p != [] && p[0].Entry? && Typed(cx.schema, Spot(ty, Names(ta)), p)
    requires OldPath(cx.schema, old_.schema, Spot(ty, Names(ta)), p, q)
    ensures Agree(Walk(a, p), Walk(b, q))
    decreases |p|, 0
  {
    var pk := p[0].primaryKey;
    assert q[0] == p[0] && OldPath(cx.schema, old_.schema, Spot(ty.member, Names(ta)), p[1..], q[1..]);
    EntryStep(cx, ra, a, ty.member, ta, pk);
    EntryStep(old_, rb, b, ty.member, tb, pk);
    if a.depth + 2 <= MAX_DEPTH {
      EntryTogether(cx, a, b, ty.member, ta, tb, pk);
      LockStep(cx, old_, ra, rb, EnterSet(a, pk).value, EnterSet(b, pk).value, ty.member, ta, tb, p[1..], q[1..]);
    }
  }

  lemma {:induction false} LockStepField(cx: Inputs, old_: Inputs, ra: StorageNode, rb: StorageNode, a: Walker,
                                         b: Walker, ty: FieldType, ta: seq<Level>, tb: seq<Level>, p: seq<Step>,
                                         q: seq<Step>)
    requires cx.prior == old_.schema && WellFormed(cx.schema) && WellFormed(old_.schema) && Distinct(ra) && Distinct(rb)
    requires Standing(cx, ra, a, ty, ta) && Standing(old_, rb, b, ty, tb) && Together(cx, a, b, ty, ta, tb)
    requires p != [] && p[0].Into? && Typed(cx.schema, Spot(ty, Names(ta)), p)
    requires OldPath(cx.schema, old_.schema, Spot(ty, Names(ta)), p, q)
    ensures Agree(Walk(a, p), Walk(b, q))
    decreases |p|, 0
  {
    var (t, name, g) := (ty.name, p[0].name, q[0].name);
    var f := FindField(cx.schema.types[t], name).value;
    assert KeptAs(old_.schema, t, f, g);
    assert OldPath(cx.schema, old_.schema, FieldSpot(Names(ta) + [t], f.ty), p[1..], q[1..]);
    if a.depth < MAX_DEPTH && t !in Names(ta) {
      FieldSide(cx, ra, a, t, ta, name);
      FieldSide(old_, rb, b, t, tb, g);
      KeptTogether(cx, old_, a, b, t, ta, tb, name, g);
      var (fa, fb) := (ta + [Level(t, a.node)], tb + [Level(t, b.node)]);
      LockStep(cx, old_, ra, rb, EnterField(a, name).value, EnterField(b, g).value, f.ty, FieldTrail(fa, f.ty),
               FieldTrail(fb, f.ty), p[1..], q[1..]);
    } else {
      BothStop(cx, old_, ra, rb, a, b, t, ta, tb, name, g);
    }
  }

  /** At a dead spot, or at the depth limit, neither walk goes on. */
  lemma {:induction false} BothStop(cx: Inputs, old_: Inputs, ra: StorageNode, rb: StorageNode, a: Walker, b: Walker,
                                    t: string, ta: seq<Level>, tb: seq<Level>, name: string, g: string)
    requires Standing(cx, ra, a, Table(t), ta) && Standing(old_, rb, b, Table(t), tb) && Together(cx, a, b, Table(t), ta, tb)
    requires t in Names(ta) || a.depth >= MAX_DEPTH
    ensures EnterField(a, name).Failure? && EnterField(b, g).Failure?
  {
    if t in Names(ta) {
      NameSetNames(ta, t);
      NameSetNames(tb, t);
      DeadSpot(cx, ra, a, t, ta);
      DeadSpot(old_, rb, b, t, tb);
    }
  }

  // ---------------------------------------------------------------------------
  // Whole plans

  /** The node generated for an export that was there before inherits from the old one. */
  lemma {:induction false} ExportInherits(cx: Inputs, old_: Inputs, st: State, oldPlan: Plan, exports: seq<Export>,
                                          i: nat)
    requires cx.prior == old_.schema && WellFormed(old_.schema) && i < |exports|
    requires CoveredExports(cx, exports) && GenExports(cx, st, oldPlan, exports).Success?
    requires var p := ExportPoint(oldPlan, cx.prior, exports[i]);
      p.Some? && OldFits(old_, {}, map[], exports[i].ty, p.value.node)
    ensures var plan := GenExports(cx, st, oldPlan, exports).value.0;
      i < |plan| && Inherits(cx, exports[i].ty, plan[i].node, ExportPoint(oldPlan, cx.prior, exports[i]).value.node)
    decreases exports
  {
    var p := ExportPoint(oldPlan, cx.prior, exports[0]);
    var (node, st') := GenField(cx, st, map[], {}, exports[0].ty, p).value;
    var rest := GenExports(cx, st', oldPlan, exports[1..]).value.0;
    assert GenExports(cx, st, oldPlan, exports).value.0 == [Child(exports[0].name, node)] + rest;
    if i == 0 {
      GeneratedInherits(cx, old_, st, map[], {}, exports[0].ty, p.value.node, map[]);
    } else {
      ExportInherits(cx, old_, st', oldPlan, exports[1..], i - 1);
    }
  }

  /**
   Data stays where it is. Take any plan for the old schema and the plan migrated from it. For every export that kept
   its name and type, and every path `p` that was `q` under the old schema (each field the old field of its own name, or
   else of the first of its renamed-from names that was there, with the same type), the walk over the new plan succeeds
   exactly if the old walk did, and then spells the same key, byte for byte.
   */
  lemma {:induction false} MigrationKeepsKeys(prior: Schema, oldPlan: Plan, s: Schema, candidates: seq<Key>, i: nat,
                                              j: nat, p: seq<Step>, q: seq<Step>)
    requires PlanFor(prior, oldPlan) && WellFormed(s) && GeneratePlan(oldPlan, prior, s, candidates).Success?
    requires PlanFor(s, GeneratePlan(oldPlan, prior, s, candidates).value)
    requires i < |s.exports| && j < |prior.exports| && s.exports[i] == prior.exports[j]
    requires Typed(s, Spot(s.exports[i].ty, []), p) && OldPath(s, prior, Spot(s.exports[i].ty, []), p, q)
    ensures var e := s.exports[i].name;
      Agree(WalkPlan(GeneratePlan(oldPlan, prior, s, candidates).value, e, p), WalkPlan(oldPlan, e, q))
  {
    var plan := GeneratePlan(oldPlan, prior, s, candidates).value;
    var cx := InputsFor(prior, s, CollectExports(s, s.exports).value);
    var old_ := PlanInputs(prior);
    var e := s.exports[i];
    RootStanding(prior, oldPlan, j);
    RootStanding(s, plan, i);
    var (a, b) := (FromExport(plan, e.name).value, FromExport(oldPlan, e.name).value);
    SameInputs(cx, PlanInputs(s), a.node, a, e.ty);
    FindExportAt(prior.exports, j);
    assert NameSet([]) == {} && StackOf(old_, []) == map[];
    assert ExportPoint(oldPlan, prior, e) == Some(OldPoint(e.ty, b.node));
    CollectedExports(cx, s.exports);
    ExportInherits(cx, old_, State(KeysOf(oldPlan), candidates), oldPlan, s.exports, i);
    assert Names([]) == [];
    LockStep(cx, old_, a.node, b.node, a, b, e.ty, [], [], p, q);
  }

  /** Where a walker stands does not depend on the old schema. */
  lemma {:induction false} SameInputs(cx: Inputs, cx': Inputs, root: StorageNode, w: Walker, ty: FieldType)
    requires cx'.schema == cx.schema && cx'.recursive == cx.recursive && cx'.members == cx.members
    requires Standing(cx', root, w, ty, [])
    ensures Standing(cx, root, w, ty, [])
  {
  }
}
