/**
 Migration and the uniqueness of storage keys: every key of a new plan is inherited or
 fresh, and the keys stay pairwise distinct exactly if no two fields of a table claim
 the same old field.
 */
module KeyDistinctness {
  import opened Wrappers
  import opened Schemas
  import opened StoragePlans
  import opened Planner
  import opened OldNames

  function OldKeys(p: Option<OldPoint>): set<Key> {
    if p.Some? then Keys(p.value.node) else {}
  }

  /** Wherever the new schema meets the old tree, `@rename_from` sends no two fields to one old field. */
  ghost predicate RenamesInjective(cx: Inputs, path: set<string>, ty: FieldType, p: Option<OldPoint>)
    decreases cx.schema.types.Keys - path, 0, ty
  {
    p.None? ||
    match ty
    case Primitive(_) => true
    case SetOf(member) => RenamesInjective(cx, path, member, EntryPoint(p, member))
    case Table(t) => t in path || t !in cx.schema.types || RenamesInjectiveAll(cx, path + {t}, cx.schema.types[t], p)
  }

  ghost predicate RenamesInjectiveAll(cx: Inputs, path: set<string>, fields: seq<Field>, p: Option<OldPoint>)
    decreases cx.schema.types.Keys - path, 1, |fields|
  {
    fields == [] ||
    (RenamesInjective(cx, path, fields[0].ty, FieldPoint(cx.prior, p, fields[0])) &&
     (forall g <- fields[1..] :: !Clash(cx.prior, p, fields[0], g)) &&
     RenamesInjectiveAll(cx, path, fields[1..], p))
  }

  // ---------------------------------------------------------------------------
  // Inherited or fresh

  lemma {:induction false} FreshIsFresh(st: State)
    requires FreshKey(st).Success?
    ensures var (key, st') := FreshKey(st).value; key !in st.used && st'.used == st.used + {key}
    decreases |st.candidates|
  {
    if st.candidates[0] in st.used { FreshIsFresh(st.(candidates := st.candidates[1..])); }
  }

  /** The old child a field inherits from is a child of the old node. */
  lemma {:induction false} SubPointChild(cx: Inputs, p: Option<OldPoint>, f: Field) returns (i: nat)
    requires SubPoint(cx.prior, p, f).Some?
    ensures p.Some? && i < |p.value.node.children|
    ensures SubPoint(cx.prior, p, f).value.node == p.value.node.children[i].node
    ensures FirstPresent(p.value.node.children, AltNames(f)) == Some(p.value.node.children[i].name)
  {
    var name := FirstPresent(p.value.node.children, AltNames(f)).value;
    i := FindChildIndex(p.value.node.children, name);
  }

  function SubKeys(cx: Inputs, p: Option<OldPoint>, fields: seq<Field>): set<Key> {
    if fields == [] then {} else OldKeys(SubPoint(cx.prior, p, fields[0])) + SubKeys(cx, p, fields[1..])
  }

  lemma {:induction false} SubPointKeys(cx: Inputs, p: Option<OldPoint>, f: Field)
    ensures OldKeys(SubPoint(cx.prior, p, f)) <= (if p.Some? then KeysOf(p.value.node.children) else {})
  {
    if SubPoint(cx.prior, p, f).Some? {
      var i := SubPointChild(cx, p, f);
      KeysOfAt(p.value.node.children, i);
    }
  }

  lemma {:induction false} SubKeysWithin(cx: Inputs, p: Option<OldPoint>, fields: seq<Field>)
    ensures SubKeys(cx, p, fields) <= (if p.Some? then KeysOf(p.value.node.children) else {})
  {
    if fields != [] {
      SubPointKeys(cx, p, fields[0]);
      SubKeysWithin(cx, p, fields[1..]);
    }
  }

  /** Keys of the result come from the old point or were never used before. */
  ghost predicate InheritedOrFresh(keys: set<Key>, inherited: set<Key>, st: State, st': State) {
    st.used <= st'.used && keys <= inherited + (st'.used - st.used)
  }

  lemma {:induction false} KeyForFacts(st: State, p: Option<OldPoint>)
    requires KeyFor(st, p).Success?
    ensures var (key, st') := KeyFor(st, p).value;
      st.used <= st'.used && (if p.Some? then key == p.value.node.key && st' == st else key !in st.used && key in st'.used)
  {
    if p.None? { FreshIsFresh(st); }
  }

  lemma {:induction false} GeneratedKeys(cx: Inputs, st: State, stack: map<string, Key>, path: set<string>,
                                         ty: FieldType, p: Option<OldPoint>)
    requires Covered(cx, path, ty) && stack.Keys == path * cx.recursive
    requires GenField(cx, st, stack, path, ty, p).Success?
    ensures var (n, st') := GenField(cx, st, stack, path, ty, p).value;
      InheritedOrFresh(Keys(n), OldKeys(p), st, st') && (p.Some? ==> n.key == p.value.node.key)
    decreases cx.schema.types.Keys - path, 0, ty
  {
    match ty
    case Primitive(_) => KeyForFacts(st, p);
    case SetOf(member) =>
      GeneratedKeys(cx, st, stack, path, member, MemberPoint(p, member));
      KeyForFacts(GenField(cx, st, stack, path, member, MemberPoint(p, member)).value.1, p);
    case Table(t) =>
      KeyForFacts(st, p);
      if t !in stack {
        var (key, st') := KeyFor(st, p).value;
        GeneratedKeysAll(cx, st', PushType(cx, stack, t, key), path + {t}, cx.schema.types[t], p);
        SubKeysWithin(cx, p, cx.schema.types[t]);
      }
  }

  lemma {:induction false} GeneratedKeysAll(cx: Inputs, st: State, stack: map<string, Key>, path: set<string>,
                                            fields: seq<Field>, p: Option<OldPoint>)
    requires CoveredFields(cx, path, fields) && stack.Keys == path * cx.recursive
    requires GenFields(cx, st, stack, path, fields, p).Success?
    ensures var (children, st') := GenFields(cx, st, stack, path, fields, p).value;
      InheritedOrFresh(KeysOf(children), SubKeys(cx, p, fields), st, st')
    decreases cx.schema.types.Keys - path, 1, |fields|
  {
    if fields != [] {
      var q := SubPoint(cx.prior, p, fields[0]);
      GeneratedKeys(cx, st, stack, path, fields[0].ty, q);
      var (node, st') := GenField(cx, st, stack, path, fields[0].ty, q).value;
      GeneratedKeysAll(cx, st', stack, path, fields[1..], p);
      var rest := GenFields(cx, st', stack, path, fields[1..], p).value.0;
      assert ([Child(fields[0].name, node)] + rest)[1..] == rest;
    }
  }

  // ---------------------------------------------------------------------------
  // Pairwise distinct

  /** Fields that do not clash inherit from disjoint old subtrees. */
  lemma {:induction false} ApartUnlessClash(cx: Inputs, p: Option<OldPoint>, f: Field, g: Field)
    requires p.Some? ==> DistinctAll(p.value.node.children)
    ensures Clash(cx.prior, p, f, g) ||
            OldKeys(SubPoint(cx.prior, p, f)) !! OldKeys(SubPoint(cx.prior, p, g))
  {
    ClashFound(cx.prior, p, f, g);
    if SubPoint(cx.prior, p, f).Some? && SubPoint(cx.prior, p, g).Some? {
      var i := SubPointChild(cx, p, f);
      var j := SubPointChild(cx, p, g);
      if i < j {
        DistinctApart(p.value.node.children, i, j);
      } else if j < i {
        DistinctApart(p.value.node.children, j, i);
      }
    }
  }

  lemma {:induction false} ApartFromRest(cx: Inputs, p: Option<OldPoint>, f: Field, rest: seq<Field>)
    requires p.Some? ==> DistinctAll(p.value.node.children)
    requires forall g <- rest :: !Clash(cx.prior, p, f, g)
    ensures OldKeys(SubPoint(cx.prior, p, f)) !! SubKeys(cx, p, rest)
  {
    if rest != [] {
      assert rest[0] in rest;
      ApartUnlessClash(cx, p, f, rest[0]);
      ApartFromRest(cx, p, f, rest[1..]);
    }
  }

  /** A clash puts one key into the plan twice. */
  lemma {:induction false} ClashRepeatsKey(cx: Inputs, st: State, stack: map<string, Key>, path: set<string>,
                                           fields: seq<Field>, p: Option<OldPoint>, f: Field, g: Field)
    requires CoveredFields(cx, path, fields) && stack.Keys == path * cx.recursive
    requires GenFields(cx, st, stack, path, fields, p).Success? && g in fields && Clash(cx.prior, p, f, g)
    ensures SubPoint(cx.prior, p, f).Some?
    ensures SubPoint(cx.prior, p, f).value.node.key in KeysOf(GenFields(cx, st, stack, path, fields, p).value.0)
    decreases |fields|
  {
    SameChild(cx, p, f, g);
    var q := SubPoint(cx.prior, p, fields[0]);
    GeneratedKeys(cx, st, stack, path, fields[0].ty, q);
    var (node, st') := GenField(cx, st, stack, path, fields[0].ty, q).value;
    var rest := GenFields(cx, st', stack, path, fields[1..], p).value.0;
    assert ([Child(fields[0].name, node)] + rest)[1..] == rest;
    if fields[0] != g {
      ClashRepeatsKey(cx, st', stack, path, fields[1..], p, f, g);
    }
  }

  lemma {:induction false} SameChild(cx: Inputs, p: Option<OldPoint>, f: Field, g: Field)
    requires Clash(cx.prior, p, f, g)
    ensures SubPoint(cx.prior, p, f).Some? && SubPoint(cx.prior, p, g).Some?
    ensures SubPoint(cx.prior, p, f).value.node == SubPoint(cx.prior, p, g).value.node
  {
    ClashFound(cx.prior, p, f, g);
  }

  /** A node's own key does not come back below it. */
  lemma {:induction false} OwnKeyApart(st: State, st': State, st'': State, p: Option<OldPoint>, key: Key,
                                       below: set<Key>, inherited: set<Key>)
    requires KeyFor(st, p) == Success((key, st')) && OldKeys(p) <= st.used
    requires InheritedOrFresh(below, inherited, st', st'')
    requires if p.Some? then p.value.node.key !in inherited else inherited == {}
    ensures key !in below
  {
    KeyForFacts(st, p);
  }

  lemma {:induction false} DistinctIffInjective(cx: Inputs, st: State, stack: map<string, Key>, path: set<string>,
                                                ty: FieldType, p: Option<OldPoint>)
    requires Covered(cx, path, ty) && stack.Keys == path * cx.recursive
    requires GenField(cx, st, stack, path, ty, p).Success?
    requires OldKeys(p) <= st.used && (p.Some? ==> Distinct(p.value.node))
    ensures Distinct(GenField(cx, st, stack, path, ty, p).value.0) <==> RenamesInjective(cx, path, ty, p)
    decreases cx.schema.types.Keys - path, 0, ty
  {
    match ty
    case Primitive(_) =>
    case SetOf(member) => DistinctSet(cx, st, stack, path, member, p);
    case Table(t) =>
      if t !in stack { DistinctTable(cx, st, stack, path, t, p); }
  }

  lemma {:induction false} DistinctSet(cx: Inputs, st: State, stack: map<string, Key>, path: set<string>,
                                       member: FieldType, p: Option<OldPoint>)
    requires Covered(cx, path, SetOf(member)) && stack.Keys == path * cx.recursive
    requires GenField(cx, st, stack, path, SetOf(member), p).Success?
    requires OldKeys(p) <= st.used && (p.Some? ==> Distinct(p.value.node))
    ensures Distinct(GenField(cx, st, stack, path, SetOf(member), p).value.0) <==> RenamesInjective(cx, path, SetOf(member), p)
    decreases cx.schema.types.Keys - path, 0, SetOf(member), 0
  {
    var q := MemberPoint(p, member);
    DistinctIffInjective(cx, st, stack, path, member, q);
    GeneratedKeys(cx, st, stack, path, member, q);
    var (inner, st') := GenField(cx, st, stack, path, member, q).value;
    KeyForFacts(st', p);
    if p.None? { NoOldPointInjective(cx, path, member); }
  }

  lemma {:induction false} NoOldPointInjective(cx: Inputs, path: set<string>, ty: FieldType)
    ensures RenamesInjective(cx, path, ty, None)
  {
  }

  lemma {:induction false} DistinctTable(cx: Inputs, st: State, stack: map<string, Key>, path: set<string>, t: string,
                                         p: Option<OldPoint>)
    requires Covered(cx, path, Table(t)) && stack.Keys == path * cx.recursive && t !in stack
    requires GenField(cx, st, stack, path, Table(t), p).Success?
    requires OldKeys(p) <= st.used && (p.Some? ==> Distinct(p.value.node))
    ensures Distinct(GenField(cx, st, stack, path, Table(t), p).value.0) <==> RenamesInjective(cx, path, Table(t), p)
    decreases cx.schema.types.Keys - path, 0, Table(t), 0
  {
    var (key, st') := KeyFor(st, p).value;
    var (stack', path', fields) := (PushType(cx, stack, t, key), path + {t}, cx.schema.types[t]);
    KeyForFacts(st, p);
    SubKeysWithin(cx, p, fields);
    GeneratedKeysAll(cx, st', stack', path', fields, p);
    DistinctFieldsIffInjective(cx, st', stack', path', fields, p);
    var (children, st'') := GenFields(cx, st', stack', path', fields, p).value;
    OwnKeyApart(st, st', st'', p, key, KeysOf(children), SubKeys(cx, p, fields));
    if p.None? { NoOldPointInjectiveAll(cx, path', fields); }
  }

  lemma {:induction false} NoOldPointInjectiveAll(cx: Inputs, path: set<string>, fields: seq<Field>)
    ensures RenamesInjectiveAll(cx, path, fields, None)
    decreases |fields|
  {
    if fields != [] {
      NoOldPointInjective(cx, path, fields[0].ty);
      NoOldPointInjectiveAll(cx, path, fields[1..]);
      assert forall g <- fields[1..] :: !Clash(cx.prior, None, fields[0], g);
    }
  }

  lemma {:induction false} DistinctFieldsIffInjective(cx: Inputs, st: State, stack: map<string, Key>, path: set<string>,
                                                      fields: seq<Field>, p: Option<OldPoint>)
    requires CoveredFields(cx, path, fields) && stack.Keys == path * cx.recursive
    requires GenFields(cx, st, stack, path, fields, p).Success?
    requires p.Some? ==> KeysOf(p.value.node.children) <= st.used && DistinctAll(p.value.node.children)
    ensures DistinctAll(GenFields(cx, st, stack, path, fields, p).value.0) <==> RenamesInjectiveAll(cx, path, fields, p)
    decreases cx.schema.types.Keys - path, 1, |fields|
  {
    if fields != [] {
      var q := SubPoint(cx.prior, p, fields[0]);
      if q.Some? {
        var i := SubPointChild(cx, p, fields[0]);
        DistinctAt(p.value.node.children, i);
      }
      SubPointKeys(cx, p, fields[0]);
      DistinctIffInjective(cx, st, stack, path, fields[0].ty, q);
      GeneratedKeys(cx, st, stack, path, fields[0].ty, q);
      var (node, st') := GenField(cx, st, stack, path, fields[0].ty, q).value;
      DistinctFieldsIffInjective(cx, st', stack, path, fields[1..], p);
      var rest := GenFields(cx, st', stack, path, fields[1..], p).value.0;
      assert ([Child(fields[0].name, node)] + rest)[1..] == rest;
      HeadApartIffNoClash(cx, st, stack, path, fields, p);
      FieldPointFound(cx.prior, p, fields[0]);
    }
  }

  lemma {:induction false} HeadApartIffNoClash(cx: Inputs, st: State, stack: map<string, Key>, path: set<string>,
                                               fields: seq<Field>, p: Option<OldPoint>)
    requires fields != [] && CoveredFields(cx, path, fields) && stack.Keys == path * cx.recursive
    requires GenFields(cx, st, stack, path, fields, p).Success?
    requires p.Some? ==> KeysOf(p.value.node.children) <= st.used && DistinctAll(p.value.node.children)
    ensures var (node, st') := GenField(cx, st, stack, path, fields[0].ty, SubPoint(cx.prior, p, fields[0])).value;
      (Keys(node) !! KeysOf(GenFields(cx, st', stack, path, fields[1..], p).value.0)) ==
      (forall g <- fields[1..] :: !Clash(cx.prior, p, fields[0], g))
  {
    var q := SubPoint(cx.prior, p, fields[0]);
    GeneratedKeys(cx, st, stack, path, fields[0].ty, q);
    var (node, st') := GenField(cx, st, stack, path, fields[0].ty, q).value;
    GeneratedKeysAll(cx, st', stack, path, fields[1..], p);
    SubPointKeys(cx, p, fields[0]);
    SubKeysWithin(cx, p, fields[1..]);
    var rest := GenFields(cx, st', stack, path, fields[1..], p).value.0;
    if forall g <- fields[1..] :: !Clash(cx.prior, p, fields[0], g) {
      ApartFromRest(cx, p, fields[0], fields[1..]);
      assert Keys(node) !! KeysOf(rest);
    } else {
      var g :| g in fields[1..] && Clash(cx.prior, p, fields[0], g);
      ClashRepeatsKey(cx, st', stack, path, fields[1..], p, fields[0], g);
      assert node.key in Keys(node) && node.key in KeysOf(rest);
    }
  }

  // ---------------------------------------------------------------------------
  // Whole plans

  /** The old tree of an export, or nothing. */
  lemma {:induction false} ExportPointChild(oldPlan: Plan, prior: Schema, e: Export) returns (i: nat)
    requires ExportPoint(oldPlan, prior, e).Some?
    ensures i < |oldPlan| && oldPlan[i].name == e.name && ExportPoint(oldPlan, prior, e).value.node == oldPlan[i].node
  {
    i := FindChildIndex(oldPlan, e.name);
  }

  lemma {:induction false} ExportKeys(oldPlan: Plan, prior: Schema, e: Export)
    ensures OldKeys(ExportPoint(oldPlan, prior, e)) <= KeysOf(oldPlan)
  {
    if ExportPoint(oldPlan, prior, e).Some? {
      var i := ExportPointChild(oldPlan, prior, e);
      KeysOfAt(oldPlan, i);
    }
  }

  ghost predicate AllInjective(cx: Inputs, oldPlan: Plan, exports: seq<Export>) {
    forall e <- exports :: RenamesInjective(cx, {}, e.ty, RootPoint(oldPlan, cx.prior, e))
  }

  function ExportSubKeys(cx: Inputs, oldPlan: Plan, exports: seq<Export>): set<Key> {
    if exports == [] then {} else OldKeys(ExportPoint(oldPlan, cx.prior, exports[0])) + ExportSubKeys(cx, oldPlan, exports[1..])
  }

  lemma {:induction false} ExportsApart(cx: Inputs, oldPlan: Plan, e: Export, rest: seq<Export>)
    requires DistinctAll(oldPlan) && forall x <- rest :: x.name != e.name
    ensures OldKeys(ExportPoint(oldPlan, cx.prior, e)) !! ExportSubKeys(cx, oldPlan, rest)
    ensures ExportSubKeys(cx, oldPlan, rest) <= KeysOf(oldPlan)
  {
    if rest != [] {
      ExportKeys(oldPlan, cx.prior, rest[0]);
      assert rest[0] in rest;
      if ExportPoint(oldPlan, cx.prior, e).Some? && ExportPoint(oldPlan, cx.prior, rest[0]).Some? {
        var i := ExportPointChild(oldPlan, cx.prior, e);
        var j := ExportPointChild(oldPlan, cx.prior, rest[0]);
        DistinctApart(oldPlan, if i < j then i else j, if i < j then j else i);
      }
      ExportsApart(cx, oldPlan, e, rest[1..]);
    }
  }

  lemma {:induction false} ExportedKeys(cx: Inputs, st: State, oldPlan: Plan, exports: seq<Export>)
    requires CoveredExports(cx, exports) && GenExports(cx, st, oldPlan, exports).Success?
    ensures var (plan, st') := GenExports(cx, st, oldPlan, exports).value;
      InheritedOrFresh(KeysOf(plan), ExportSubKeys(cx, oldPlan, exports), st, st')
    decreases exports
  {
    if exports != [] {
      var p := ExportPoint(oldPlan, cx.prior, exports[0]);
      GeneratedKeys(cx, st, map[], {}, exports[0].ty, p);
      var (node, st') := GenField(cx, st, map[], {}, exports[0].ty, p).value;
      ExportedKeys(cx, st', oldPlan, exports[1..]);
      var rest := GenExports(cx, st', oldPlan, exports[1..]).value.0;
      assert ([Child(exports[0].name, node)] + rest)[1..] == rest;
    }
  }

  lemma {:induction false} ExportsDistinctIff(cx: Inputs, st: State, oldPlan: Plan, exports: seq<Export>)
    requires CoveredExports(cx, exports) && GenExports(cx, st, oldPlan, exports).Success?
    requires DistinctAll(oldPlan) && KeysOf(oldPlan) <= st.used
    requires forall i, j :: 0 <= i < j < |exports| ==> exports[i].name != exports[j].name
    ensures DistinctAll(GenExports(cx, st, oldPlan, exports).value.0) <==> AllInjective(cx, oldPlan, exports)
    decreases exports
  {
    if exports != [] {
      var p := ExportPoint(oldPlan, cx.prior, exports[0]);
      RootPointFound(oldPlan, cx.prior, exports[0]);
      HeadExport(cx, st, oldPlan, exports);
      var (node, st') := GenField(cx, st, map[], {}, exports[0].ty, p).value;
      ExportsDistinctIff(cx, st', oldPlan, exports[1..]);
      var rest := GenExports(cx, st', oldPlan, exports[1..]).value.0;
      assert ([Child(exports[0].name, node)] + rest)[1..] == rest;
    }
  }

  lemma {:induction false} HeadExport(cx: Inputs, st: State, oldPlan: Plan, exports: seq<Export>)
    requires exports != [] && CoveredExports(cx, exports) && GenExports(cx, st, oldPlan, exports).Success?
    requires DistinctAll(oldPlan) && KeysOf(oldPlan) <= st.used
    requires forall i, j :: 0 <= i < j < |exports| ==> exports[i].name != exports[j].name
    ensures var p := ExportPoint(oldPlan, cx.prior, exports[0]);
      var (node, st') := GenField(cx, st, map[], {}, exports[0].ty, p).value;
      st.used <= st'.used &&
      (Distinct(node) <==> RenamesInjective(cx, {}, exports[0].ty, p)) &&
      Keys(node) !! KeysOf(GenExports(cx, st', oldPlan, exports[1..]).value.0)
  {
    var p := ExportPoint(oldPlan, cx.prior, exports[0]);
    ExportKeys(oldPlan, cx.prior, exports[0]);
    if p.Some? {
      var i := ExportPointChild(oldPlan, cx.prior, exports[0]);
      DistinctAt(oldPlan, i);
    }
    DistinctIffInjective(cx, st, map[], {}, exports[0].ty, p);
    GeneratedKeys(cx, st, map[], {}, exports[0].ty, p);
    var st' := GenField(cx, st, map[], {}, exports[0].ty, p).value.1;
    ExportedKeys(cx, st', oldPlan, exports[1..]);
    assert forall x <- exports[1..] :: x.name != exports[0].name;
    ExportsApart(cx, oldPlan, exports[0], exports[1..]);
  }

  /**
   Key distinctness across migration. From an old plan with pairwise distinct keys, the migrated plan's keys are pairwise
   distinct if and only if no two fields of a table claim the same old field.
   */
  lemma {:induction false} MigrationKeepsKeysDistinct(oldPlan: Plan, prior: Schema, s: Schema, candidates: seq<Key>)
    requires WellFormed(s) && DistinctAll(oldPlan) && GeneratePlan(oldPlan, prior, s, candidates).Success?
    ensures CollectExports(s, s.exports).Success?
    ensures var cx := InputsFor(prior, s, CollectExports(s, s.exports).value);
      DistinctAll(GeneratePlan(oldPlan, prior, s, candidates).value) <==> AllInjective(cx, oldPlan, s.exports)
  {
    var cx := InputsFor(prior, s, CollectExports(s, s.exports).value);
    CollectedExports(cx, s.exports);
    ExportsDistinctIff(cx, State(KeysOf(oldPlan), candidates), oldPlan, s.exports);
  }

  // ---------------------------------------------------------------------------
  // Where each key comes from

  ghost predicate InPlan(plan: Plan, x: StorageNode) {
    exists j :: 0 <= j < |plan| && Within(plan[j].node, x)
  }

  /**
   A node laid out for `ty` has the key of its old point, a node of the old plan, or, if it has none, a key that the old
   plan does not use; and so has every node below it, with the old point of its own field or member.
   */
  ghost predicate Origin(cx: Inputs, oldPlan: Plan, ty: FieldType, n: StorageNode, p: Option<OldPoint>)
    decreases n
  {
    (if p.Some? then n.key == p.value.node.key && InPlan(oldPlan, p.value.node) else n.key !in KeysOf(oldPlan)) &&
    match ty
    case Primitive(_) => true
    case SetOf(member) => n.set_.Some? && Origin(cx, oldPlan, member, n.set_.value, EntryPoint(p, member))
    case Table(t) =>
      n.reference.Some? ||
      (t in cx.schema.types && |n.children| == |cx.schema.types[t]| &&
       forall i :: 0 <= i < |n.children| ==>
         n.children[i].name == cx.schema.types[t][i].name &&
         Origin(cx, oldPlan, cx.schema.types[t][i].ty, n.children[i].node, FieldPoint(cx.prior, p, cx.schema.types[t][i])))
  }

  ghost predicate Origins(cx: Inputs, oldPlan: Plan, fields: seq<Field>, children: seq<Child>, p: Option<OldPoint>) {
    |children| == |fields| &&
    forall i :: 0 <= i < |children| ==>
      children[i].name == fields[i].name &&
      Origin(cx, oldPlan, fields[i].ty, children[i].node, FieldPoint(cx.prior, p, fields[i]))
  }

  lemma {:induction false} BelowInPlan(plan: Plan, x: StorageNode, y: StorageNode)
    requires InPlan(plan, x) && Within(x, y)
    ensures InPlan(plan, y)
  {
    var j :| 0 <= j < |plan| && Within(plan[j].node, x);
    WithinTransitive(plan[j].node, x, y);
  }

  lemma {:induction false} SubPointInPlan(cx: Inputs, oldPlan: Plan, p: Option<OldPoint>, f: Field)
    requires p.Some? ==> InPlan(oldPlan, p.value.node)
    ensures var q := SubPoint(cx.prior, p, f); q.Some? ==> InPlan(oldPlan, q.value.node)
  {
    if SubPoint(cx.prior, p, f).Some? {
      var i := SubPointChild(cx, p, f);
      assert Within(p.value.node, p.value.node.children[i].node);
      BelowInPlan(oldPlan, p.value.node, p.value.node.children[i].node);
    }
  }

  lemma {:induction false} MemberPointInPlan(oldPlan: Plan, p: Option<OldPoint>, member: FieldType)
    requires p.Some? ==> InPlan(oldPlan, p.value.node)
    ensures var q := MemberPoint(p, member); q.Some? ==> InPlan(oldPlan, q.value.node)
  {
    if MemberPoint(p, member).Some? {
      assert Within(p.value.node, p.value.node.set_.value);
      BelowInPlan(oldPlan, p.value.node, p.value.node.set_.value);
    }
  }

  lemma {:induction false} FieldOrigin(cx: Inputs, oldPlan: Plan, st: State, stack: map<string, Key>, path: set<string>,
                                       ty: FieldType, p: Option<OldPoint>)
    requires Covered(cx, path, ty) && stack.Keys == path * cx.recursive && KeysOf(oldPlan) <= st.used
    requires GenField(cx, st, stack, path, ty, p).Success? && (p.Some? ==> InPlan(oldPlan, p.value.node))
    ensures Origin(cx, oldPlan, ty, GenField(cx, st, stack, path, ty, p).value.0, p)
    decreases cx.schema.types.Keys - path, 0, ty
  {
    match ty
    case Primitive(_) => KeyForFacts(st, p);
    case SetOf(member) =>
      var q := MemberPoint(p, member);
      MemberPointInPlan(oldPlan, p, member);
      FieldOrigin(cx, oldPlan, st, stack, path, member, q);
      GeneratedKeys(cx, st, stack, path, member, q);
      KeyForFacts(GenField(cx, st, stack, path, member, q).value.1, p);
    case Table(t) =>
      KeyForFacts(st, p);
      if t !in stack {
        var (key, st') := KeyFor(st, p).value;
        FieldOrigins(cx, oldPlan, st', PushType(cx, stack, t, key), path + {t}, cx.schema.types[t], p);
      }
  }

  lemma {:induction false} FieldOrigins(cx: Inputs, oldPlan: Plan, st: State, stack: map<string, Key>, path: set<string>,
                                        fields: seq<Field>, p: Option<OldPoint>)
    requires CoveredFields(cx, path, fields) && stack.Keys == path * cx.recursive && KeysOf(oldPlan) <= st.used
    requires GenFields(cx, st, stack, path, fields, p).Success? && (p.Some? ==> InPlan(oldPlan, p.value.node))
    ensures Origins(cx, oldPlan, fields, GenFields(cx, st, stack, path, fields, p).value.0, p)
    decreases cx.schema.types.Keys - path, 1, |fields|
  {
    if fields != [] {
      var q := SubPoint(cx.prior, p, fields[0]);
      SubPointInPlan(cx, oldPlan, p, fields[0]);
      FieldPointFound(cx.prior, p, fields[0]);
      FieldOrigin(cx, oldPlan, st, stack, path, fields[0].ty, q);
      GeneratedKeys(cx, st, stack, path, fields[0].ty, q);
      var (node, st') := GenField(cx, st, stack, path, fields[0].ty, q).value;
      FieldOrigins(cx, oldPlan, st', stack, path, fields[1..], p);
    }
  }

  /**
   Every node of a migrated plan, at every depth: one whose field or member the old schema has at that place, under its
   own name or else the first of its `@rename_from` names that was there, and with the same type, keeps the key of that
   old node; every other node has a key that occurs nowhere in the old plan.
   */
  lemma {:induction false} MigratedKeysInheritedOrFresh(oldPlan: Plan, prior: Schema, s: Schema, candidates: seq<Key>)
    requires GeneratePlan(oldPlan, prior, s, candidates).Success?
    ensures CollectExports(s, s.exports).Success?
    ensures var (cx, plan) := (InputsFor(prior, s, CollectExports(s, s.exports).value),
                               GeneratePlan(oldPlan, prior, s, candidates).value);
      |plan| == |s.exports| &&
      forall i :: 0 <= i < |plan| ==>
        plan[i].name == s.exports[i].name &&
        Origin(cx, oldPlan, s.exports[i].ty, plan[i].node, RootPoint(oldPlan, prior, s.exports[i]))
  {
    var cx := InputsFor(prior, s, CollectExports(s, s.exports).value);
    CollectedExports(cx, s.exports);
    ExportOrigins(cx, State(KeysOf(oldPlan), candidates), oldPlan, s.exports);
  }

  lemma {:induction false} ExportOrigins(cx: Inputs, st: State, oldPlan: Plan, exports: seq<Export>)
    requires CoveredExports(cx, exports) && GenExports(cx, st, oldPlan, exports).Success? && KeysOf(oldPlan) <= st.used
    ensures var plan := GenExports(cx, st, oldPlan, exports).value.0;
      |plan| == |exports| &&
      forall i :: 0 <= i < |plan| ==>
        plan[i].name == exports[i].name &&
        Origin(cx, oldPlan, exports[i].ty, plan[i].node, RootPoint(oldPlan, cx.prior, exports[i]))
    decreases exports
  {
    if exports != [] {
      var p := ExportPoint(oldPlan, cx.prior, exports[0]);
      RootPointFound(oldPlan, cx.prior, exports[0]);
      if p.Some? {
        var j := ExportPointChild(oldPlan, cx.prior, exports[0]);
        assert Within(oldPlan[j].node, p.value.node);
      }
      FieldOrigin(cx, oldPlan, st, map[], {}, exports[0].ty, p);
      GeneratedKeys(cx, st, map[], {}, exports[0].ty, p);
      var (node, st') := GenField(cx, st, map[], {}, exports[0].ty, p).value;
      ExportOrigins(cx, st', oldPlan, exports[1..]);
    }
  }

  /** A first plan, made from nothing, always has pairwise distinct keys. */
  lemma {:induction false} FirstPlanIsDistinct(s: Schema, candidates: seq<Key>)
    requires WellFormed(s) && GeneratePlan([], Schema(map[], []), s, candidates).Success?
    ensures DistinctAll(GeneratePlan([], Schema(map[], []), s, candidates).value)
  {
    MigrationKeepsKeysDistinct([], Schema(map[], []), s, candidates);
  }

  // ---------------------------------------------------------------------------
  // A rename that takes a key away from a field that is still there

  /** Old: `type T { a: int64 }`. */
  function Before(t: string, e: string, a: string): Schema {
    Schema(map[t := [Field(a, Primitive(Int64Type), [])]], [Export(e, Table(t))])
  }

  /** New: `type T { a: int64, @rename_from("a") b: int64 }`. */
  function After(t: string, e: string, a: string, b: string): Schema {
    Schema(map[t := [Field(a, Primitive(Int64Type), []), Field(b, Primitive(Int64Type), [RenameFrom(a)])]],
           [Export(e, Table(t))])
  }

  function Leaf(key: Key): StorageNode {
    StorageNode(key, false, None, None, [])
  }

  function RowPlan(e: string, root: Key, children: seq<Child>): Plan {
    [Child(e, StorageNode(root, true, None, None, children))]
  }

  /** Both fields get the key of the old `a`: they would share one cell. */
  lemma {:induction false} RenameFromLiveFieldCollides(t: string, e: string, a: string, b: string, root: Key, key: Key)
    requires a != b && root != key
    ensures DistinctAll(RowPlan(e, root, [Child(a, Leaf(key))]))
    ensures GeneratePlan(RowPlan(e, root, [Child(a, Leaf(key))]), Before(t, e, a), After(t, e, a, b), []) ==
            Success(RowPlan(e, root, [Child(a, Leaf(key)), Child(b, Leaf(key))]))
    ensures !DistinctAll(RowPlan(e, root, [Child(a, Leaf(key)), Child(b, Leaf(key))]))
  {
    assert Keys(Leaf(key)) == {key} && [Child(b, Leaf(key))][1..] == [] && [Child(a, Leaf(key))][1..] == [];
    assert KeysOf([Child(a, Leaf(key))]) == {key} && KeysOf([Child(b, Leaf(key))]) == {key};
    assert RowPlan(e, root, [Child(a, Leaf(key))])[1..] == [];
    var children := [Child(a, Leaf(key)), Child(b, Leaf(key))];
    assert children[1..] == [Child(b, Leaf(key))];
    assert !DistinctAll(children);
    assert Distinct(Leaf(key)) && DistinctAll([Child(a, Leaf(key))]);
    assert Distinct(RowPlan(e, root, [Child(a, Leaf(key))])[0].node);
    CollidingGeneration(t, e, a, b, root, key);
  }

  lemma {:induction false} CollidingPoints(t: string, a: string, b: string, root: Key, key: Key)
    requires a != b
    ensures var point := Some(OldPoint(Table(t), StorageNode(root, true, None, None, [Child(a, Leaf(key))])));
      forall e :: SubPoint(Before(t, e, a), point, Field(a, Primitive(Int64Type), [])) ==
        Some(OldPoint(Primitive(Int64Type), Leaf(key))) ==
        SubPoint(Before(t, e, a), point, Field(b, Primitive(Int64Type), [RenameFrom(a)]))
  {
    var children := [Child(a, Leaf(key))];
    assert children[1..] == [];
    assert FindChild(children, a) == Some(Leaf(key)) && FindChild(children, b) == None;
    assert Renames([RenameFrom(a)]) == [a] by { assert [RenameFrom(a)][1..] == []; }
    assert AltNames(Field(b, Primitive(Int64Type), [RenameFrom(a)])) == [b, a];
    assert [b, a][1..] == [a];
    assert FirstPresent(children, [a]) == Some(a) && FirstPresent(children, [b, a]) == Some(a);
    assert [Field(a, Primitive(Int64Type), [])][0].name == a;
  }

  lemma {:induction false} CollidingPass(t: string, e: string, a: string, b: string)
    ensures var s := After(t, e, a, b);
      CollectFields(s, {t}, s.types[t][1..]) == CollectFields(s, {t}, s.types[t]) == Collect(s, {}, Table(t)) ==
      CollectExports(s, s.exports) == Success(Special({}, {}))
  {
    var s := After(t, e, a, b);
    assert s.types[t][1..][1..] == [] && s.exports[1..] == [];
    var none: set<string> := {};
    assert none + none == none && none + {t} == {t};
    assert CollectFields(s, {t}, []) == Success(Special({}, {}));
    assert CollectFields(s, {t}, s.types[t][1..]) == Success(Special({}, {}));
    assert CollectFields(s, {t}, s.types[t]) == Success(Special({}, {}));
    assert CollectExports(s, []) == Success(Special({}, {}));
  }

  lemma {:induction false} CollidingGeneration(t: string, e: string, a: string, b: string, root: Key, key: Key)
    requires a != b && root != key
    ensures GeneratePlan(RowPlan(e, root, [Child(a, Leaf(key))]), Before(t, e, a), After(t, e, a, b), []) ==
            Success(RowPlan(e, root, [Child(a, Leaf(key)), Child(b, Leaf(key))]))
  {
    var (prior, s) := (Before(t, e, a), After(t, e, a, b));
    var plan := RowPlan(e, root, [Child(a, Leaf(key))]);
    var point := Some(OldPoint(Table(t), plan[0].node));
    CollidingPass(t, e, a, b);
    CollidingPoints(t, a, b, root, key);
    var cx := InputsFor(prior, s, Special({}, {}));
    var st := State(KeysOf(plan), []);
    CollectedExports(cx, s.exports);
    assert ExportPoint(plan, prior, s.exports[0]) == point;
    var fields := s.types[t];
    assert fields[1..][1..] == [] && s.exports[1..] == [] && {} + {t} == {t};
    assert [Child(b, Leaf(key))] + [] == [Child(b, Leaf(key))];
    assert [Child(a, Leaf(key))] + [Child(b, Leaf(key))] == [Child(a, Leaf(key)), Child(b, Leaf(key))];
    assert GenFields(cx, st, map[], {t}, [], point) == Success(([], st));
    assert GenFields(cx, st, map[], {t}, fields[1..], point) == Success(([Child(b, Leaf(key))], st));
    assert GenFields(cx, st, map[], {t}, fields, point) == Success(([Child(a, Leaf(key)), Child(b, Leaf(key))], st));
    var node := StorageNode(root, true, None, None, [Child(a, Leaf(key)), Child(b, Leaf(key))]);
    assert GenField(cx, st, map[], {}, Table(t), point) == Success((node, st));
    assert GenExports(cx, st, plan, []) == Success(([], st));
    assert [Child(e, node)] + [] == [Child(e, node)];
    assert GenExports(cx, st, plan, s.exports) == Success(([Child(e, node)], st));
  }
}
