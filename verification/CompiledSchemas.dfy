/**
 What compilation guarantees: compiled types are the declared ones under their arguments,
 and the planner never meets a type that is missing.
 */
module CompiledSchemas {
  import opened Wrappers
  import opened Schemas
  import opened SchemaCompiler
  import opened Specialisation
  import opened StoragePlans
  import Planner

  lemma {:induction false} DeclareOk(items: seq<TypeItem>, done: Items)
    requires Declare(items, done).Success? && ItemsOk(done) && forall i :: 0 <= i < |items| ==> Ident(items[i].name)
    ensures ItemsOk(Declare(items, done).value)
    decreases |items|
  {
    if items != [] { DeclareOk(items[1..], done[items[0].name := items[0]]); }
  }

  ghost predicate ExportsOk(res: Resolved, exports: map<string, FieldType>) {
    forall n <- exports :: Present(res, exports[n]) && SetsOfTables(exports[n])
  }

  /** The export is there, with the type that its type expression means. */
  predicate Exported(items: Items, e: ExportDecl, exports: map<string, FieldType>) {
    e.name in exports && Meaning(items, map[], e.ty).Some? && exports[e.name] == Erase(Meaning(items, map[], e.ty).value)
  }

  function ExportNames(exports: seq<ExportDecl>): set<string> {
    set i | 0 <= i < |exports| :: exports[i].name
  }

  predicate DistinctExports(exports: seq<ExportDecl>) {
    forall i, j :: 0 <= i < j < |exports| ==> exports[i].name != exports[j].name
  }

  lemma {:induction false} ExportsGrow(res: Resolved, res': Resolved, exports: map<string, FieldType>)
    requires ExportsOk(res, exports) && res.Keys <= res'.Keys
    ensures ExportsOk(res', exports)
  {
    forall n <- exports ensures Present(res', exports[n]) { PresentGrows(res, res', exports[n]); }
  }

  lemma {:induction false} ExportsCorrect(items: Items, fuel: nat, res: Resolved, exports: seq<ExportDecl>,
                                          done: map<string, FieldType>)
    requires ItemsOk(items) && Memo(items, res, {}) && ExportsOk(res, done)
    requires ResolveExports(items, fuel, res, exports, done).Success?
    ensures var c := ResolveExports(items, fuel, res, exports, done).value;
      Memo(items, c.types, {}) && ExportsOk(c.types, c.exports) && res.Keys <= c.types.Keys &&
      forall e <- exports :: Holds(c.types, Mentions(items, map[], e.ty))
    decreases |exports|
  {
    if exports != [] {
      assert EraseEnv(map[]) == map[];
      var ty := ResolveCorrect(items, fuel, res, map[], exports[0].ty, {});
      var (ft, res') := Resolve(items, fuel, res, map[], exports[0].ty).value;
      ExportsGrow(res, res', done);
      ExportsCorrect(items, fuel, res', exports[1..], done[exports[0].name := ft]);
      var c := ResolveExports(items, fuel, res', exports[1..], done[exports[0].name := ft]).value;
      HoldsGrows(res', c.types, Mentions(items, map[], exports[0].ty));
      assert exports == [exports[0]] + exports[1..];
    }
  }

  /** Exports are kept apart by name and each is given its meaning. */
  lemma {:induction false} ExportsMean(items: Items, fuel: nat, res: Resolved, exports: seq<ExportDecl>,
                                       done: map<string, FieldType>)
    requires ItemsOk(items) && Memo(items, res, {}) && ResolveExports(items, fuel, res, exports, done).Success?
    ensures var c := ResolveExports(items, fuel, res, exports, done).value;
      DistinctExports(exports) && ExportNames(exports) !! done.Keys && c.exports.Keys == ExportNames(exports) + done.Keys &&
      (forall n <- done :: c.exports[n] == done[n]) && forall e <- exports :: Exported(items, e, c.exports)
    decreases |exports|
  {
    if exports != [] {
      assert EraseEnv(map[]) == map[];
      var ty := ResolveCorrect(items, fuel, res, map[], exports[0].ty, {});
      var (ft, res') := Resolve(items, fuel, res, map[], exports[0].ty).value;
      var (rest, done') := (exports[1..], done[exports[0].name := ft]);
      ExportsMean(items, fuel, res', rest, done');
      var c := ResolveExports(items, fuel, res', rest, done').value;
      assert exports[0].name in done' && c.exports[exports[0].name] == done'[exports[0].name];
      NamesOfCons(exports);
    }
  }

  lemma {:induction false} NamesOfCons(exports: seq<ExportDecl>)
    requires exports != []
    ensures ExportNames(exports) == {exports[0].name} + ExportNames(exports[1..])
    ensures DistinctExports(exports) <==> exports[0].name !in ExportNames(exports[1..]) && DistinctExports(exports[1..])
  {
    var rest := exports[1..];
    forall i | 0 <= i < |exports| ensures exports[i].name in {exports[0].name} + ExportNames(rest) {
      if i > 0 { assert rest[i - 1].name in ExportNames(rest); }
    }
    forall i | 0 <= i < |rest| ensures rest[i].name in ExportNames(exports) {
      assert exports[i + 1].name in ExportNames(exports);
    }
    if exports[0].name !in ExportNames(rest) && DistinctExports(rest) {
      forall i, j | 0 <= i < j < |exports| ensures exports[i].name != exports[j].name {
        assert exports[j] == rest[j - 1];
        if i > 0 { assert exports[i] == rest[i - 1]; }
      }
    }
    if DistinctExports(exports) {
      forall i, j | 0 <= i < j < |rest| ensures rest[i].name != rest[j].name {
        assert rest[i] == exports[i + 1] && rest[j] == exports[j + 1];
      }
    }
  }

  /** A finished memo table: nothing is left open. */
  lemma {:induction false} CompiledMemo(items: seq<TypeItem>, exports: seq<ExportDecl>, fuel: nat)
    requires Compile(items, exports, fuel).Success? && forall i :: 0 <= i < |items| ==> Ident(items[i].name)
    ensures Declare(items, map[]).Success? && ItemsOk(Declare(items, map[]).value)
    ensures var c := Compile(items, exports, fuel).value;
      Memo(Declare(items, map[]).value, c.types, {}) && ExportsOk(c.types, c.exports) &&
      forall e <- exports :: Holds(c.types, Mentions(Declare(items, map[]).value, map[], e.ty))
  {
    DeclareOk(items, map[]);
    ExportsCorrect(Declare(items, map[]).value, fuel, map[], exports, map[]);
  }

  /**
   Exports: their declared names are pairwise distinct, exactly those names are exported, and each with the type that its
   type expression means by substitution.
   */
  lemma {:induction false} CompiledExports(items: seq<TypeItem>, exports: seq<ExportDecl>, fuel: nat)
    requires Compile(items, exports, fuel).Success? && forall i :: 0 <= i < |items| ==> Ident(items[i].name)
    ensures Declare(items, map[]).Success?
    ensures var (declared, compiled) := (Declare(items, map[]).value, Compile(items, exports, fuel).value.exports);
      DistinctExports(exports) && compiled.Keys == ExportNames(exports) &&
      forall e <- exports :: Exported(declared, e, compiled)
  {
    DeclareOk(items, map[]);
    ExportsMean(Declare(items, map[]).value, fuel, map[], exports, map[]);
  }

  /**
   Memoised specialisation is substitution: the fields compiled under the name of a type application are exactly the
   declared fields of that type under those arguments, and every compiled name is the name of such an application.
   */
  lemma {:induction false} CompiledTypesAreSubstitutions(items: seq<TypeItem>, exports: seq<ExportDecl>, fuel: nat,
                                                         id: string, args: seq<Ty>)
    requires Compile(items, exports, fuel).Success? && forall i :: 0 <= i < |items| ==> Ident(items[i].name)
    requires Declare(items, map[]).Success? && Valid(Declare(items, map[]).value, TableTy(id, args))
    ensures var (declared, types) := (Declare(items, map[]).value, Compile(items, exports, fuel).value.types);
      Repr(id, EraseAll(args)) in types ==> Declared(declared, id, args) == Some(types[Repr(id, EraseAll(args))])
  {
    var (declared, types) := (Declare(items, map[]).value, Compile(items, exports, fuel).value.types);
    CompiledMemo(items, exports, fuel);
    var repr := Repr(id, EraseAll(args));
    if repr in types {
      assert Described(declared, types, {}, repr);
      var id', args' :| Describes(declared, types, {}, repr, id', args');
      NamesIdentify(declared, id, args, id', args');
    }
  }

  /** No placeholder is left: every compiled type is the declaration of some type application. */
  lemma {:induction false} EveryCompiledTypeIsDeclared(items: seq<TypeItem>, exports: seq<ExportDecl>, fuel: nat,
                                                       repr: string)
    returns (id: string, args: seq<Ty>)
    requires Compile(items, exports, fuel).Success? && forall i :: 0 <= i < |items| ==> Ident(items[i].name)
    requires repr in Compile(items, exports, fuel).value.types
    ensures Declare(items, map[]).Success? && Valid(Declare(items, map[]).value, TableTy(id, args))
    ensures Repr(id, EraseAll(args)) == repr
    ensures Declared(Declare(items, map[]).value, id, args) == Some(Compile(items, exports, fuel).value.types[repr])
  {
    var (declared, types) := (Declare(items, map[]).value, Compile(items, exports, fuel).value.types);
    CompiledMemo(items, exports, fuel);
    assert Described(declared, types, {}, repr);
    id, args :| Describes(declared, types, {}, repr, id, args);
  }

  // ---------------------------------------------------------------------------
  // Compiled schemas as the planner reads them

  predicate ListsFields(list: seq<Field>, fields: Fields) {
    DistinctFields(list) && |list| == |fields| &&
    forall i :: 0 <= i < |list| ==> list[i].name in fields && fields[list[i].name] == Info(list[i].ty, list[i].annotations)
  }

  /** The schema lists the entries of the compiled maps in some order. */
  predicate Lists(s: Schema, c: Compiled) {
    s.types.Keys == c.types.Keys && (forall t <- s.types :: ListsFields(s.types[t], c.types[t])) &&
    |s.exports| == |c.exports| &&
    (forall i, j :: 0 <= i < j < |s.exports| ==> s.exports[i].name != s.exports[j].name) &&
    forall i :: 0 <= i < |s.exports| ==> s.exports[i].name in c.exports && c.exports[s.exports[i].name] == s.exports[i].ty
  }

  /** Every table that a type mentions is there. */
  predicate Closed(s: Schema) {
    (forall t <- s.types, i :: 0 <= i < |s.types[t]| ==> Resolves(s, s.types[t][i].ty)) &&
    forall i :: 0 <= i < |s.exports| ==> Resolves(s, s.exports[i].ty)
  }

  predicate Resolves(s: Schema, ty: FieldType) {
    match ty
    case Table(t) => t in s.types
    case Primitive(_) => true
    case SetOf(member) => Resolves(s, member)
  }

  lemma {:induction false} PresentKnown(s: Schema, res: Resolved, ty: FieldType)
    requires s.types.Keys == res.Keys && Present(res, ty)
    ensures Resolves(s, ty)
  {
    if ty.SetOf? { PresentKnown(s, res, ty.member); }
  }

  function NamesListed(exports: seq<Export>): set<string> {
    set i | 0 <= i < |exports| :: exports[i].name
  }

  lemma {:induction false} NamesCounted(exports: seq<Export>)
    requires forall i, j :: 0 <= i < j < |exports| ==> exports[i].name != exports[j].name
    ensures |NamesListed(exports)| == |exports|
  {
    if exports != [] {
      var n := |exports| - 1;
      NamesCounted(exports[..n]);
      assert forall i :: 0 <= i < n ==> exports[..n][i].name == exports[i].name;
      assert NamesListed(exports) == NamesListed(exports[..n]) + {exports[n].name};
    }
  }

  lemma {:induction false} SameSize<T>(a: set<T>, b: set<T>)
    requires a <= b && |a| == |b|
    ensures a == b
  {
    assert |b - a| == 0;
  }

  /** A schema that lists the compiled maps has each export of the map. */
  lemma {:induction false} ExportListed(s: Schema, c: Compiled, n: string)
    requires Lists(s, c) && n in c.exports
    ensures Export(n, c.exports[n]) in s.exports
  {
    NamesCounted(s.exports);
    SameSize(NamesListed(s.exports), c.exports.Keys);
    assert n in NamesListed(s.exports);
    var i :| 0 <= i < |s.exports| && s.exports[i].name == n;
    assert s.exports[i] == Export(n, c.exports[n]);
  }

  /** A compiled schema is well formed and closed, and exports what is declared to be exported. */
  lemma {:induction false} CompiledIsWellFormed(items: seq<TypeItem>, exports: seq<ExportDecl>, fuel: nat, s: Schema)
    requires Compile(items, exports, fuel).Success? && forall i :: 0 <= i < |items| ==> Ident(items[i].name)
    requires Lists(s, Compile(items, exports, fuel).value)
    ensures WellFormed(s) && Closed(s)
    ensures Declare(items, map[]).Success?
    ensures forall e <- exports ::
      var ty := Meaning(Declare(items, map[]).value, map[], e.ty); ty.Some? && Export(e.name, Erase(ty.value)) in s.exports
    ensures forall i :: 0 <= i < |s.exports| ==> s.exports[i].name in ExportNames(exports)
  {
    var c := Compile(items, exports, fuel).value;
    CompiledMemo(items, exports, fuel);
    CompiledExports(items, exports, fuel);
    forall e <- exports
      ensures var ty := Meaning(Declare(items, map[]).value, map[], e.ty);
        ty.Some? && Export(e.name, Erase(ty.value)) in s.exports
    {
      assert Exported(Declare(items, map[]).value, e, c.exports);
      ExportListed(s, c, e.name);
    }
    forall t <- s.types, i | 0 <= i < |s.types[t]| ensures Resolves(s, s.types[t][i].ty) && SetsOfTables(s.types[t][i].ty) {
      CompiledField(Declare(items, map[]).value, c, s, t, i);
    }
    forall i | 0 <= i < |s.exports| ensures Resolves(s, s.exports[i].ty) && SetsOfTables(s.exports[i].ty) {
      PresentKnown(s, c.types, s.exports[i].ty);
    }
  }

  lemma {:induction false} CompiledField(items: Items, c: Compiled, s: Schema, t: string, i: nat)
    requires Memo(items, c.types, {}) && Lists(s, c) && t in s.types && i < |s.types[t]|
    ensures Resolves(s, s.types[t][i].ty) && SetsOfTables(s.types[t][i].ty)
  {
    assert Described(items, c.types, {}, t);
    var id, args :| Describes(items, c.types, {}, t, id, args);
    assert s.types[t][i].name in c.types[t];
    PresentKnown(s, c.types, s.types[t][i].ty);
  }

  /** The planner's first pass succeeds on closed schemas. */
  lemma {:induction false} ClosedCollects(s: Schema, path: set<string>, ty: FieldType)
    requires Closed(s) && Resolves(s, ty)
    ensures Planner.Collect(s, path, ty).Success?
    decreases s.types.Keys - path, 0, ty
  {
    match ty
    case Primitive(_) =>
    case SetOf(member) => ClosedCollects(s, path, member);
    case Table(t) =>
      if t !in path {
        forall i | 0 <= i < |s.types[t]| ensures Resolves(s, s.types[t][i].ty) {}
        ClosedCollectsAll(s, path + {t}, s.types[t]);
      }
  }

  lemma {:induction false} ClosedCollectsAll(s: Schema, path: set<string>, fields: seq<Field>)
    requires Closed(s) && forall i :: 0 <= i < |fields| ==> Resolves(s, fields[i].ty)
    ensures Planner.CollectFields(s, path, fields).Success?
    decreases s.types.Keys - path, 1, |fields|
  {
    if fields != [] {
      ClosedCollects(s, path, fields[0].ty);
      ClosedCollectsAll(s, path, fields[1..]);
    }
  }

  lemma {:induction false} ClosedCollectsExports(s: Schema, exports: seq<Export>)
    requires Closed(s) && forall i :: 0 <= i < |exports| ==> Resolves(s, exports[i].ty)
    ensures Planner.CollectExports(s, exports).Success?
  {
    if exports != [] {
      ClosedCollects(s, {}, exports[0].ty);
      ClosedCollectsExports(s, exports[1..]);
    }
  }

  /** Behind a successful first pass, generation never reports a missing type. */
  lemma {:induction false} NoMissingType(cx: Planner.Inputs, st: Planner.State, stack: map<string, Key>,
                                         path: set<string>, ty: FieldType, p: Option<Planner.OldPoint>)
    requires Planner.Covered(cx, path, ty) && stack.Keys == path * cx.recursive
    ensures var r := Planner.GenField(cx, st, stack, path, ty, p); r.Failure? ==> !r.error.MissingType?
    decreases cx.schema.types.Keys - path, 0, ty
  {
    KeyErrors(st, p);
    match ty
    case Primitive(_) =>
    case SetOf(member) =>
      NoMissingType(cx, st, stack, path, member, Planner.MemberPoint(p, member));
      var inner := Planner.GenField(cx, st, stack, path, member, Planner.MemberPoint(p, member));
      if inner.Success? { KeyErrors(inner.value.1, p); }
    case Table(t) =>
      if t !in stack && Planner.KeyFor(st, p).Success? {
        var (key, st') := Planner.KeyFor(st, p).value;
        NoMissingTypes(cx, st', Planner.PushType(cx, stack, t, key), path + {t}, cx.schema.types[t], p);
      }
  }

  lemma {:induction false} NoMissingTypes(cx: Planner.Inputs, st: Planner.State, stack: map<string, Key>,
                                          path: set<string>, fields: seq<Field>, p: Option<Planner.OldPoint>)
    requires Planner.CoveredFields(cx, path, fields) && stack.Keys == path * cx.recursive
    ensures var r := Planner.GenFields(cx, st, stack, path, fields, p); r.Failure? ==> !r.error.MissingType?
    decreases cx.schema.types.Keys - path, 1, |fields|
  {
    if fields != [] {
      var q := Planner.SubPoint(cx.prior, p, fields[0]);
      NoMissingType(cx, st, stack, path, fields[0].ty, q);
      var r := Planner.GenField(cx, st, stack, path, fields[0].ty, q);
      if r.Success? { NoMissingTypes(cx, r.value.1, stack, path, fields[1..], p); }
    }
  }

  lemma {:induction false} KeyErrors(st: Planner.State, p: Option<Planner.OldPoint>)
    ensures Planner.KeyFor(st, p).Failure? ==> Planner.KeyFor(st, p).error == Planner.OutOfKeys
    decreases |st.candidates|
  {
    if p.None? && st.candidates != [] && st.candidates[0] in st.used {
      KeyErrors(st.(candidates := st.candidates[1..]), p);
    }
  }

  lemma {:induction false} NoMissingExportTypes(cx: Planner.Inputs, st: Planner.State, oldPlan: Plan,
                                                exports: seq<Export>)
    requires Planner.CoveredExports(cx, exports)
    ensures var r := Planner.GenExports(cx, st, oldPlan, exports); r.Failure? ==> !r.error.MissingType?
    decreases exports
  {
    if exports != [] {
      var p := Planner.ExportPoint(oldPlan, cx.prior, exports[0]);
      NoMissingType(cx, st, map[], {}, exports[0].ty, p);
      var r := Planner.GenField(cx, st, map[], {}, exports[0].ty, p);
      if r.Success? { NoMissingExportTypes(cx, r.value.1, oldPlan, exports[1..]); }
    }
  }

  /** For a compiled schema the planner's missing-type error is unreachable, whatever the old plan. */
  lemma {:induction false} PlanningFindsAllTypes(items: seq<TypeItem>, exports: seq<ExportDecl>, fuel: nat, s: Schema,
                                                 oldPlan: Plan, prior: Schema, candidates: seq<Key>)
    requires Compile(items, exports, fuel).Success? && forall i :: 0 <= i < |items| ==> Ident(items[i].name)
    requires Lists(s, Compile(items, exports, fuel).value)
    ensures Planner.CollectExports(s, s.exports).Success?
    ensures var r := Planner.GeneratePlan(oldPlan, prior, s, candidates); r.Failure? ==> !r.error.MissingType?
  {
    CompiledIsWellFormed(items, exports, fuel, s);
    ClosedCollectsExports(s, s.exports);
    var cx := Planner.InputsFor(prior, s, Planner.CollectExports(s, s.exports).value);
    Planner.CollectedExports(cx, s.exports);
    NoMissingExportTypes(cx, Planner.State(KeysOf(oldPlan), candidates), oldPlan, s.exports);
  }
}
