/**
 When compilation succeeds: exactly if the declarations are well formed and the exports
 reach a finite set of table types, each with a well-formed declaration.
 */
module Compilability {
  import opened Wrappers
  import opened Schemas
  import opened SchemaCompiler
  import opened Specialisation
  import opened CompiledSchemas

  // ---------------------------------------------------------------------------
  // Well-formed declarations, on the program text

  predicate DistinctItems(items: seq<TypeItem>) {
    forall i, j :: 0 <= i < j < |items| ==> items[i].name != items[j].name
  }

  predicate UpperNames(items: seq<TypeItem>) {
    forall item <- items :: item.name != "" && 'A' <= item.name[0] <= 'Z'
  }

  /** The annotations, all recognised, in the order they are written. */
  predicate Reads(raw: seq<RawAnnotation>, annotations: seq<Annotation>) {
    |raw| == |annotations| && forall i :: 0 <= i < |raw| ==> raw[i] == Recognised(annotations[i])
  }

  /** A field declaration: its type has a meaning, and only a primitive field is a key or an index. */
  predicate FieldDeclared(items: Items, env: map<string, Ty>, d: FieldDecl) {
    Meaning(items, env, d.value).Some? && (forall a <- d.annotations :: a.Recognised?) &&
    ((exists a <- [PrimaryKey, Unique, Index] :: Recognised(a) in d.annotations) ==>
       Meaning(items, env, d.value).value.PrimTy?)
  }

  predicate DistinctDecls(decls: seq<FieldDecl>) {
    forall i, j :: 0 <= i < j < |decls| ==> decls[i].name != decls[j].name
  }

  predicate OnePrimary(decls: seq<FieldDecl>) {
    forall i, j :: 0 <= i < j < |decls| ==>
      !(Recognised(PrimaryKey) in decls[i].annotations && Recognised(PrimaryKey) in decls[j].annotations)
  }

  predicate FieldsDeclared(items: Items, env: map<string, Ty>, decls: seq<FieldDecl>) {
    DistinctDecls(decls) && OnePrimary(decls) && AllDeclared(items, env, decls)
  }

  /** Well-formed declarations that name no table type outside the set. */
  ghost predicate Fitting(items: Items, env: map<string, Ty>, decls: seq<FieldDecl>, all: set<Ty>) {
    FieldsDeclared(items, env, decls) && forall d <- decls :: Mentions(items, env, d.value) <= all
  }

  /** A table type with a well-formed declaration that names no table type outside the set. */
  ghost predicate WellDeclared(items: Items, all: set<Ty>, t: Ty) {
    t.TableTy? && Valid(items, t) && Fitting(items, Bind(items[t.id].generics, t.args), items[t.id].fields, all)
  }

  ghost predicate SelfContained(items: Items, all: set<Ty>) {
    forall t {:trigger WellDeclared(items, all, t)} :: t in all ==> WellDeclared(items, all, t)
  }

  ghost predicate Supports(items: Items, exports: seq<ExportDecl>, all: set<Ty>) {
    SelfContained(items, all) &&
    forall e <- exports :: Meaning(items, map[], e.ty).Some? && Mentions(items, map[], e.ty) <= all
  }

  // ---------------------------------------------------------------------------
  // Declarations

  predicate ItemNames(items: seq<TypeItem>, n: string) {
    exists i :: 0 <= i < |items| && items[i].name == n
  }

  lemma {:induction false} ItemNamesCons(items: seq<TypeItem>, n: string)
    requires items != []
    ensures ItemNames(items, n) <==> items[0].name == n || ItemNames(items[1..], n)
    ensures DistinctItems(items) <==> !ItemNames(items[1..], items[0].name) && DistinctItems(items[1..])
  {
    var rest := items[1..];
    if i :| 0 <= i < |rest| && rest[i].name == n { assert items[i + 1].name == n; }
    if i :| 0 <= i < |items| && items[i].name == n {
      if i > 0 { assert rest[i - 1].name == n; }
    }
    if DistinctItems(items) {
      forall i, j | 0 <= i < j < |rest| ensures rest[i].name != rest[j].name { assert items[i + 1].name != items[j + 1].name; }
    }
    if !ItemNames(rest, items[0].name) && DistinctItems(rest) {
      forall i, j | 0 <= i < j < |items| ensures items[i].name != items[j].name {
        assert items[j] == rest[j - 1];
        if i > 0 { assert items[i] == rest[i - 1]; }
      }
    }
  }

  lemma {:induction false} UpperCons(items: seq<TypeItem>)
    requires items != []
    ensures UpperNames(items) <==> items[0].name != "" && 'A' <= items[0].name[0] <= 'Z' && UpperNames(items[1..])
  {
    assert items == [items[0]] + items[1..];
  }

  /** Declaring succeeds exactly on distinct, capitalised names. */
  lemma {:induction false} DeclareSucceeds(items: seq<TypeItem>, done: Items)
    ensures Declare(items, done).Success? <==>
      DistinctItems(items) && UpperNames(items) && forall n <- done :: !ItemNames(items, n)
    decreases |items|
  {
    if items != [] {
      var (rest, done') := (items[1..], done[items[0].name := items[0]]);
      DeclareSucceeds(rest, done');
      ItemNamesCons(items, items[0].name);
      UpperCons(items);
      forall n <- done ensures ItemNames(items, n) <==> items[0].name == n || ItemNames(rest, n) { ItemNamesCons(items, n); }
      assert (forall n <- done' :: !ItemNames(rest, n)) <==>
             !ItemNames(rest, items[0].name) && forall n <- done :: !ItemNames(rest, n) || n == items[0].name;
    }
  }

  /** Every item is kept under its name. */
  lemma {:induction false} DeclareKeeps(items: seq<TypeItem>, done: Items)
    requires Declare(items, done).Success?
    ensures forall i :: 0 <= i < |items| ==>
      items[i].name in Declare(items, done).value && Declare(items, done).value[items[i].name] == items[i]
    ensures forall n <- done :: n in Declare(items, done).value && Declare(items, done).value[n] == done[n]
    ensures forall n <- Declare(items, done).value :: n in done || ItemNames(items, n)
    decreases |items|
  {
    if items != [] {
      var (rest, done') := (items[1..], done[items[0].name := items[0]]);
      DeclareKeeps(rest, done');
      var out := Declare(rest, done').value;
      forall i | 0 <= i < |items| ensures items[i].name in out && out[items[i].name] == items[i] {
        if i == 0 { assert items[0].name in done'; } else { assert items[i] == rest[i - 1]; }
      }
      forall n <- done ensures n in out && out[n] == done[n] { assert n in done'; }
      forall n <- out ensures n in done || ItemNames(items, n) { ItemNamesCons(items, n); }
    }
  }

  /** A type parameter is bound to the argument at its last position. */
  lemma {:induction false} BindLast<T>(names: seq<string>, values: seq<T>, i: nat)
    requires |names| == |values| && i < |names| && forall j :: i < j < |names| ==> names[j] != names[i]
    ensures names[i] in Bind(names, values) && Bind(names, values)[names[i]] == values[i]
  {
    if i < |names| - 1 { BindLast(names[..|names| - 1], values[..|values| - 1], i); }
  }

  lemma {:induction false} BindOnly<T>(names: seq<string>, values: seq<T>)
    requires |names| == |values|
    ensures forall n <- Bind(names, values) :: n in names
  {
    if names != [] { BindOnly(names[..|names| - 1], values[..|values| - 1]); }
  }

  /** Exactly four names are primitive types. */
  lemma {:induction false} PrimitiveNames(id: string, p: PrimitiveType)
    ensures PrimOf(id) == Some(p) <==> PrimName(p) == id
  {
    if PrimOf(id).Some? { assert PrimName(PrimOf(id).value) == id; }
    assert PrimOf(PrimName(p)) == Some(p) by {
      assert "int64"[0] == 'i' && "double"[0] == 'd' && "string"[0] == 's' && "bytes"[0] == 'b';
    }
  }

  lemma {:induction false} AnnotationsRead(raw: seq<RawAnnotation>)
    ensures ReadAnnotations(raw).Success? <==> forall a <- raw :: a.Recognised?
    ensures ReadAnnotations(raw).Success? ==> Reads(raw, ReadAnnotations(raw).value)
  {
    if raw != [] {
      AnnotationsRead(raw[1..]);
      assert raw == [raw[0]] + raw[1..];
      assert (forall a <- raw :: a.Recognised?) <==> raw[0].Recognised? && forall a <- raw[1..] :: a.Recognised?;
    }
  }

  lemma {:induction false} ReadsMember(raw: seq<RawAnnotation>, annotations: seq<Annotation>, a: Annotation)
    requires Reads(raw, annotations)
    ensures a in annotations <==> Recognised(a) in raw
  {
    if a in annotations {
      var i :| 0 <= i < |annotations| && annotations[i] == a;
      assert raw[i] == Recognised(a);
    }
    if Recognised(a) in raw {
      var i :| 0 <= i < |raw| && raw[i] == Recognised(a);
      assert annotations[i] == a;
    }
  }

  /** The compiled field: the meaning of its type, and its annotations as written. */
  predicate FieldCompiled(items: Items, env: map<string, Ty>, d: FieldDecl, info: Info) {
    Meaning(items, env, d.value).Some? && info.ty == Erase(Meaning(items, env, d.value).value) &&
    Reads(d.annotations, info.annotations)
  }

  lemma {:induction false} FieldOfSucceeds(items: Items, env: map<string, Ty>, d: FieldDecl)
    requires Meaning(items, env, d.value).Some?
    ensures var r := FieldOf(d, Erase(Meaning(items, env, d.value).value));
      (r.Success? <==> FieldDeclared(items, env, d)) && (r.Success? ==> FieldCompiled(items, env, d, r.value))
  {
    AnnotationsRead(d.annotations);
    if ReadAnnotations(d.annotations).Success? {
      var annotations := ReadAnnotations(d.annotations).value;
      ReadsMember(d.annotations, annotations, PrimaryKey);
      ReadsMember(d.annotations, annotations, Unique);
      ReadsMember(d.annotations, annotations, Index);
      var keys := [PrimaryKey, Unique, Index];
      assert keys[0] == PrimaryKey && keys[1] == Unique && keys[2] == Index;
      assert (exists a <- keys :: Recognised(a) in d.annotations) <==> Indexes(annotations);
    }
  }

  /** What the fields declared so far come to. */
  predicate FieldsCompiled(items: Items, env: map<string, Ty>, decls: seq<FieldDecl>, fields: Fields) {
    forall d <- decls :: d.name in fields && FieldCompiled(items, env, d, fields[d.name])
  }

  predicate DeclNames(decls: seq<FieldDecl>, n: string) {
    exists i :: 0 <= i < |decls| && decls[i].name == n
  }

  lemma {:induction false} DeclNamesCons(decls: seq<FieldDecl>, n: string)
    requires decls != []
    ensures DeclNames(decls, n) <==> decls[0].name == n || DeclNames(decls[1..], n)
    ensures DistinctDecls(decls) <==> !DeclNames(decls[1..], decls[0].name) && DistinctDecls(decls[1..])
  {
    var rest := decls[1..];
    if i :| 0 <= i < |rest| && rest[i].name == n { assert decls[i + 1].name == n; }
    if i :| 0 <= i < |decls| && decls[i].name == n {
      if i > 0 { assert rest[i - 1].name == n; }
    }
    if DistinctDecls(decls) {
      forall i, j | 0 <= i < j < |rest| ensures rest[i].name != rest[j].name { assert decls[i + 1].name != decls[j + 1].name; }
    }
    if !DeclNames(rest, decls[0].name) && DistinctDecls(rest) {
      forall i, j | 0 <= i < j < |decls| ensures decls[i].name != decls[j].name {
        assert decls[j] == rest[j - 1];
        if i > 0 { assert decls[i] == rest[i - 1]; }
      }
    }
  }

  predicate AllDeclared(items: Items, env: map<string, Ty>, decls: seq<FieldDecl>) {
    forall d <- decls :: FieldDeclared(items, env, d)
  }

  lemma {:induction false} AllDeclaredCons(items: Items, env: map<string, Ty>, decls: seq<FieldDecl>)
    requires decls != []
    ensures AllDeclared(items, env, decls) <==> FieldDeclared(items, env, decls[0]) && AllDeclared(items, env, decls[1..])
  {
    assert decls == [decls[0]] + decls[1..];
  }

  /** Fields come out exactly if names are distinct and declarations well formed, and then as declared. */
  ghost predicate Outcome(items: Items, env: map<string, Ty>, decls: seq<FieldDecl>, done: Fields, r: Option<Fields>) {
    (r.Some? <==> DistinctDecls(decls) && AllDeclared(items, env, decls) && forall n <- done :: !DeclNames(decls, n)) &&
    (r.Some? ==>
       FieldsCompiled(items, env, decls, r.value) && (forall n <- done :: n in r.value && r.value[n] == done[n]) &&
       forall n <- r.value :: n in done || DeclNames(decls, n))
  }

  lemma {:induction false} DeclaredFieldsSucceed(items: Items, env: map<string, Ty>, decls: seq<FieldDecl>, done: Fields)
    ensures Outcome(items, env, decls, done, DeclaredFields(items, env, decls, done))
    decreases |decls|, 1
  {
    if decls != [] {
      var d := decls[0];
      DeclNamesCons(decls, d.name);
      AllDeclaredCons(items, env, decls);
      if Meaning(items, env, d.value).Some? {
        FieldOfSucceeds(items, env, d);
        var r := FieldOf(d, Erase(Meaning(items, env, d.value).value));
        if d.name !in done && r.Success? { DeclaredFieldsStep(items, env, decls, done, r.value); }
      }
    }
  }

  lemma {:induction false} DeclaredFieldsStep(items: Items, env: map<string, Ty>, decls: seq<FieldDecl>, done: Fields,
                                              info: Info)
    requires decls != [] && decls[0].name !in done
    requires FieldDeclared(items, env, decls[0]) && FieldCompiled(items, env, decls[0], info)
    ensures Outcome(items, env, decls, done, DeclaredFields(items, env, decls[1..], done[decls[0].name := info]))
    decreases |decls|, 0
  {
    var done' := done[decls[0].name := info];
    DeclaredFieldsSucceed(items, env, decls[1..], done');
    AllDeclaredCons(items, env, decls);
    NamesApart(decls, done, info);
    var r := DeclaredFields(items, env, decls[1..], done');
    if r.Some? { StepContents(items, env, decls, done, info, r.value); }
  }

  lemma {:induction false} NamesApart(decls: seq<FieldDecl>, done: Fields, info: Info)
    requires decls != [] && decls[0].name !in done
    ensures var done' := done[decls[0].name := info];
      DistinctDecls(decls[1..]) && (forall n <- done' :: !DeclNames(decls[1..], n)) <==>
      DistinctDecls(decls) && forall n <- done :: !DeclNames(decls, n)
  {
    var (d, rest, done') := (decls[0], decls[1..], done[decls[0].name := info]);
    DeclNamesCons(decls, d.name);
    forall n <- done ensures DeclNames(decls, n) <==> DeclNames(rest, n) { DeclNamesCons(decls, n); }
    assert (forall n <- done' :: !DeclNames(rest, n)) <==> !DeclNames(rest, d.name) && forall n <- done :: !DeclNames(rest, n);
  }

  lemma {:induction false} StepContents(items: Items, env: map<string, Ty>, decls: seq<FieldDecl>, done: Fields,
                                        info: Info, r: Fields)
    requires decls != [] && decls[0].name !in done && FieldCompiled(items, env, decls[0], info)
    requires Outcome(items, env, decls[1..], done[decls[0].name := info], Some(r))
    ensures FieldsCompiled(items, env, decls, r) && (forall n <- done :: n in r && r[n] == done[n])
    ensures forall n <- r :: n in done || DeclNames(decls, n)
  {
    var (d, rest, done') := (decls[0], decls[1..], done[decls[0].name := info]);
    assert d.name in done' && r[d.name] == info;
    assert decls == [d] + rest;
    forall n <- done ensures n in r && r[n] == done[n] { assert n in done'; }
    forall n <- r ensures n in done || DeclNames(decls, n) { DeclNamesCons(decls, n); }
  }

  /** Two fields that are both primary keys are two declarations that both say so. */
  lemma {:induction false} PrimariesCounted(items: Items, env: map<string, Ty>, decls: seq<FieldDecl>, fields: Fields)
    requires DistinctDecls(decls) && FieldsCompiled(items, env, decls, fields) && forall n <- fields :: DeclNames(decls, n)
    ensures |Primaries(fields)| <= 1 <==> OnePrimary(decls)
  {
    forall i | 0 <= i < |decls|
      ensures decls[i].name in Primaries(fields) <==> Recognised(PrimaryKey) in decls[i].annotations
    {
      assert decls[i] in decls;
      ReadsMember(decls[i].annotations, fields[decls[i].name].annotations, PrimaryKey);
    }
    if |Primaries(fields)| <= 1 {
      forall i, j | 0 <= i < j < |decls|
        ensures !(Recognised(PrimaryKey) in decls[i].annotations && Recognised(PrimaryKey) in decls[j].annotations)
      {
        if decls[i].name in Primaries(fields) && decls[j].name in Primaries(fields) {
          AtMostOne(Primaries(fields), decls[i].name, decls[j].name);
        }
      }
    }
    if |Primaries(fields)| > 1 {
      var a, b := TwoOf(Primaries(fields));
      assert DeclNames(decls, a) && DeclNames(decls, b);
      var i :| 0 <= i < |decls| && decls[i].name == a;
      var j :| 0 <= j < |decls| && decls[j].name == b;
      NotOnePrimary(decls, if i < j then i else j, if i < j then j else i);
    }
  }

  lemma {:induction false} NotOnePrimary(decls: seq<FieldDecl>, i: nat, j: nat)
    requires i < j < |decls|
    requires Recognised(PrimaryKey) in decls[i].annotations && Recognised(PrimaryKey) in decls[j].annotations
    ensures !OnePrimary(decls)
  {
  }

  lemma {:induction false} AtMostOne<T>(s: set<T>, a: T, b: T)
    requires |s| <= 1 && a in s && b in s
    ensures a == b
  {
    assert |s - {a}| == 0;
    assert a != b ==> b in s - {a};
  }

  lemma {:induction false} TwoOf<T>(s: set<T>) returns (a: T, b: T)
    requires |s| > 1
    ensures a in s && b in s && a != b
  {
    a :| a in s;
    assert |s - {a}| > 0;
    b :| b in s - {a};
  }

  /** A table type has fields exactly if its declaration is well formed under its arguments. */
  lemma {:induction false} DeclaredSucceeds(items: Items, id: string, args: seq<Ty>)
    requires id in items && |args| == |items[id].generics|
    ensures var (env, decls) := (Bind(items[id].generics, args), items[id].fields);
      (Declared(items, id, args).Some? <==> FieldsDeclared(items, env, decls)) &&
      (Declared(items, id, args).Some? ==>
         FieldsCompiled(items, env, decls, Declared(items, id, args).value) &&
         forall n <- Declared(items, id, args).value :: DeclNames(decls, n))
  {
    var (env, decls) := (Bind(items[id].generics, args), items[id].fields);
    DeclaredFieldsSucceed(items, env, decls, map[]);
    var r := DeclaredFields(items, env, decls, map[]);
    if r.Some? { PrimariesCounted(items, env, decls, r.value); }
  }

  // ---------------------------------------------------------------------------
  // From a self-contained set to success

  /** The types of the set that the memo table does not have yet. */
  ghost function Unmet(all: set<Ty>, res: Resolved): set<Ty> {
    set t | t in all && !Present(res, Erase(t))
  }

  lemma {:induction false} UnmetShrinks(all: set<Ty>, res: Resolved, res': Resolved)
    requires res.Keys <= res'.Keys
    ensures Unmet(all, res') <= Unmet(all, res) && |Unmet(all, res')| <= |Unmet(all, res)|
  {
    forall t <- Unmet(all, res') ensures t in Unmet(all, res) {
      if Present(res, Erase(t)) { PresentGrows(res, res', Erase(t)); }
    }
    SubsetSize(Unmet(all, res'), Unmet(all, res));
  }

  lemma {:induction false} SubsetSize<T>(a: set<T>, b: set<T>)
    requires a <= b
    ensures |a| <= |b|
    decreases |a|
  {
    if a != {} {
      var x :| x in a;
      SubsetSize(a - {x}, b - {x});
    }
  }

  /** With a self-contained set that has the types still to be met, resolution goes through. */
  lemma {:induction false} ResolveSucceeds(items: Items, fuel: nat, res: Resolved, env: map<string, Ty>, e: TypeExpr,
                                           open: set<string>, all: set<Ty>)
    requires ItemsOk(items) && Memo(items, res, open) && EnvOk(items, res, env) && SelfContained(items, all)
    requires Meaning(items, env, e).Some? && Mentions(items, env, e) <= all && |Unmet(all, res)| <= fuel
    ensures Resolve(items, fuel, res, EraseEnv(env), e).Success?
    decreases fuel, e, 1
  {
    ArgsSucceed(items, fuel, res, env, e.args, [], open, all);
    var tys := ArgsCorrect(items, fuel, res, env, e.args, [], open);
    var (args, res') := ResolveArgs(items, fuel, res, EraseEnv(env), e.args, []).value;
    assert [] + EraseAll(tys) == EraseAll(tys);
    EnvGrows(items, res, res', env);
    UnmetShrinks(all, res, res');
    HeadSucceeds(items, env, e, tys);
    var head := HeadOf(items, EraseEnv(env), e.id, args).value;
    if head.Instance? && Repr(e.id, args) !in res' {
      assert TableTy(e.id, tys) in Unmet(all, res');
      MemberReady(items, all, TableTy(e.id, tys));
      InstanceSucceeds(items, fuel, res', e.id, tys, open, all);
    }
  }

  lemma {:induction false} HeadSucceeds(items: Items, env: map<string, Ty>, e: TypeExpr, tys: seq<Ty>)
    requires MeaningAll(items, env, e.args) == Some(tys) && Meaning(items, env, e).Some?
    ensures HeadOf(items, EraseEnv(env), e.id, EraseAll(tys)).Success?
    ensures var head := HeadOf(items, EraseEnv(env), e.id, EraseAll(tys)).value;
      head.Instance? ==> e.id !in env && Meaning(items, env, e) == Some(TableTy(e.id, tys))
  {
    if |tys| == 1 { EraseAllAt(tys, 0); }
  }

  lemma {:induction false} ArgsSucceed(items: Items, fuel: nat, res: Resolved, env: map<string, Ty>, es: seq<TypeExpr>,
                                       done: seq<FieldType>, open: set<string>, all: set<Ty>)
    requires ItemsOk(items) && Memo(items, res, open) && EnvOk(items, res, env) && SelfContained(items, all)
    requires MeaningAll(items, env, es).Some? && MentionsAll(items, env, es) <= all && |Unmet(all, res)| <= fuel
    ensures ResolveArgs(items, fuel, res, EraseEnv(env), es, done).Success?
    decreases fuel, es, 0
  {
    if es != [] {
      ResolveSucceeds(items, fuel, res, env, es[0], open, all);
      var ty := ResolveCorrect(items, fuel, res, env, es[0], open);
      var (ft, res') := Resolve(items, fuel, res, EraseEnv(env), es[0]).value;
      EnvGrows(items, res, res', env);
      UnmetShrinks(all, res, res');
      ArgsSucceed(items, fuel, res', env, es[1..], done + [ft], open, all);
    }
  }

  lemma {:induction false} MemberReady(items: Items, all: set<Ty>, t: Ty)
    requires SelfContained(items, all) && t in all
    ensures t.TableTy? && Valid(items, t) && Fitting(items, Bind(items[t.id].generics, t.args), items[t.id].fields, all)
  {
    assert WellDeclared(items, all, t);
  }

  /** The situation in which the fields of a type met for the first time are resolved. */
  ghost predicate Opened(items: Items, fuel: nat, res: Resolved, env: map<string, Ty>, decls: seq<FieldDecl>,
                         open: set<string>, all: set<Ty>) {
    Memo(items, res, open) && EnvOk(items, res, env) && |Unmet(all, res)| <= fuel && Fitting(items, env, decls, all)
  }

  lemma {:induction false} FittingAccepted(items: Items, env: map<string, Ty>, decls: seq<FieldDecl>, all: set<Ty>)
    requires Fitting(items, env, decls, all)
    ensures DeclaredFields(items, env, decls, map[]).Some? && |Primaries(DeclaredFields(items, env, decls, map[]).value)| <= 1
    ensures forall d <- decls :: Mentions(items, env, d.value) <= all
  {
    DeclaredFieldsSucceed(items, env, decls, map[]);
    PrimariesCounted(items, env, decls, DeclaredFields(items, env, decls, map[]).value);
  }

  /** A type met for the first time uses up one of the types still to be met. */
  lemma {:induction false} OpenInstance(items: Items, fuel: nat, res: Resolved, id: string, tys: seq<Ty>,
                                        open: set<string>, all: set<Ty>)
    requires Memo(items, res, open) && AllPresent(items, res, tys) && SelfContained(items, all)
    requires Valid(items, TableTy(id, tys)) && TableTy(id, tys) in all && Repr(id, EraseAll(tys)) !in res
    requires 0 < |Unmet(all, res)| <= fuel
    ensures var (repr, env) := (Repr(id, EraseAll(tys)), Bind(items[id].generics, tys));
      Opened(items, fuel - 1, res[repr := map[]], env, items[id].fields, open + {repr}, all) &&
      EraseEnv(env) == Bind(items[id].generics, EraseAll(tys))
  {
    var res' := res[Repr(id, EraseAll(tys)) := map[]];
    MemberReady(items, all, TableTy(id, tys));
    UnmetStrictly(all, res, res', TableTy(id, tys));
    OpenEntry(items, res, id, tys, open);
    OpenEnv(items, res, res', id, tys);
  }

  predicate Accepted(r: Result<(Fields, Resolved), CompileError>) {
    r.Success? && |Primaries(r.value.0)| <= 1
  }

  lemma {:induction false} InstanceSucceeds(items: Items, fuel: nat, res: Resolved, id: string, tys: seq<Ty>,
                                            open: set<string>, all: set<Ty>)
    requires ItemsOk(items) && Memo(items, res, open) && AllPresent(items, res, tys) && SelfContained(items, all)
    requires Valid(items, TableTy(id, tys)) && TableTy(id, tys) in all && Repr(id, EraseAll(tys)) !in res
    requires 0 < |Unmet(all, res)| <= fuel
    ensures Accepted(OpenFields(items, fuel - 1, res, id, EraseAll(tys)))
    decreases fuel - 1, items[id].fields, 5
  {
    OpenInstance(items, fuel, res, id, tys, open, all);
    OpenFieldsSucceed(items, fuel - 1, res, id, tys, open, all);
  }

  lemma {:induction false} OpenFieldsSucceed(items: Items, fuel: nat, res: Resolved, id: string, tys: seq<Ty>,
                                             open: set<string>, all: set<Ty>)
    requires ItemsOk(items) && SelfContained(items, all) && id in items && |items[id].generics| == |tys|
    requires var (repr, env) := (Repr(id, EraseAll(tys)), Bind(items[id].generics, tys));
      Opened(items, fuel, res[repr := map[]], env, items[id].fields, open + {repr}, all) &&
      EraseEnv(env) == Bind(items[id].generics, EraseAll(tys))
    ensures Accepted(OpenFields(items, fuel, res, id, EraseAll(tys)))
    decreases fuel, items[id].fields, 4
  {
    var (repr, env) := (Repr(id, EraseAll(tys)), Bind(items[id].generics, tys));
    OpenedSucceeds(items, fuel, res[repr := map[]], env, items[id].fields, open + {repr}, all);
  }

  lemma {:induction false} OpenedSucceeds(items: Items, fuel: nat, res: Resolved, env: map<string, Ty>,
                                          decls: seq<FieldDecl>, open: set<string>, all: set<Ty>)
    requires ItemsOk(items) && SelfContained(items, all) && Opened(items, fuel, res, env, decls, open, all)
    ensures Accepted(ResolveFields(items, fuel, res, EraseEnv(env), decls, map[]))
    decreases fuel, decls, 3
  {
    FittingAccepted(items, env, decls, all);
    FieldsSucceed(items, fuel, res, env, decls, map[], open, all);
    FieldsCorrect(items, fuel, res, env, decls, map[], open);
  }

  lemma {:induction false} UnmetStrictly(all: set<Ty>, res: Resolved, res': Resolved, t: Ty)
    requires res.Keys <= res'.Keys && t in all && !Present(res, Erase(t)) && Present(res', Erase(t))
    ensures |Unmet(all, res')| < |Unmet(all, res)|
  {
    UnmetShrinks(all, res, res');
    SubsetSize(Unmet(all, res'), Unmet(all, res) - {t});
  }

  lemma {:induction false} FieldsSucceed(items: Items, fuel: nat, res: Resolved, env: map<string, Ty>,
                                         decls: seq<FieldDecl>, done: Fields, open: set<string>, all: set<Ty>)
    requires ItemsOk(items) && Memo(items, res, open) && EnvOk(items, res, env) && FieldsOk(res, done)
    requires SelfContained(items, all) && |Unmet(all, res)| <= fuel
    requires DeclaredFields(items, env, decls, done).Some? && forall d <- decls :: Mentions(items, env, d.value) <= all
    ensures ResolveFields(items, fuel, res, EraseEnv(env), decls, done).Success?
    decreases fuel, decls, 2
  {
    if decls != [] {
      ResolveSucceeds(items, fuel, res, env, decls[0].value, open, all);
      var ty := ResolveCorrect(items, fuel, res, env, decls[0].value, open);
      var (ft, res') := Resolve(items, fuel, res, EraseEnv(env), decls[0].value).value;
      EnvGrows(items, res, res', env);
      FieldsGrow(res, res', done);
      UnmetShrinks(all, res, res');
      var done' := done[decls[0].name := FieldOf(decls[0], ft).value];
      FieldsSucceed(items, fuel, res', env, decls[1..], done', open, all);
    }
  }

  lemma {:induction false} ExportsSucceed(items: Items, fuel: nat, res: Resolved, exports: seq<ExportDecl>,
                                          done: map<string, FieldType>, all: set<Ty>)
    requires ItemsOk(items) && Memo(items, res, {}) && Supports(items, exports, all) && |Unmet(all, res)| <= fuel
    requires DistinctExports(exports) && ExportNames(exports) !! done.Keys
    ensures ResolveExports(items, fuel, res, exports, done).Success?
    decreases |exports|
  {
    if exports != [] {
      assert EraseEnv(map[]) == map[];
      NamesOfCons(exports);
      ResolveSucceeds(items, fuel, res, map[], exports[0].ty, {}, all);
      var ty := ResolveCorrect(items, fuel, res, map[], exports[0].ty, {});
      var (ft, res') := Resolve(items, fuel, res, map[], exports[0].ty).value;
      UnmetShrinks(all, res, res');
      ExportsSucceed(items, fuel, res', exports[1..], done[exports[0].name := ft], all);
    }
  }

  // ---------------------------------------------------------------------------
  // From success to a self-contained set

  /** The type application that an entry of the memo table is named after. */
  ghost function InstanceOf(items: Items, res: Resolved, repr: string): Ty
    requires Memo(items, res, {}) && repr in res
  {
    assert Described(items, res, {}, repr);
    var id, args :| Describes(items, res, {}, repr, id, args);
    TableTy(id, args)
  }

  ghost function Instances(items: Items, res: Resolved): set<Ty>
    requires Memo(items, res, {})
  {
    set repr | repr in res :: InstanceOf(items, res, repr)
  }

  lemma {:induction false} InstanceFacts(items: Items, res: Resolved, repr: string)
    requires Memo(items, res, {}) && repr in res
    ensures var t := InstanceOf(items, res, repr); t.TableTy? && Describes(items, res, {}, repr, t.id, t.args)
  {
    assert Described(items, res, {}, repr);
  }

  /** Every valid table type whose name the table has is one of the instances. */
  lemma {:induction false} InstanceFound(items: Items, res: Resolved, t: Ty)
    requires ItemsOk(items) && Memo(items, res, {}) && t.TableTy? && Valid(items, t) && Present(res, Erase(t))
    ensures t in Instances(items, res)
  {
    var repr := Repr(t.id, EraseAll(t.args));
    InstanceFacts(items, res, repr);
    var u := InstanceOf(items, res, repr);
    NamesIdentify(items, t.id, t.args, u.id, u.args);
    assert u in Instances(items, res);
  }

  ghost predicate EnvValid(items: Items, env: map<string, Ty>) {
    forall k <- env :: Valid(items, env[k])
  }

  /** Type expressions over valid arguments name valid table types. */
  lemma {:induction false} MentionsValid(items: Items, env: map<string, Ty>, e: TypeExpr)
    requires EnvValid(items, env)
    ensures Meaning(items, env, e).Some? ==> Valid(items, Meaning(items, env, e).value)
    ensures forall t <- Mentions(items, env, e) :: t.TableTy? && Valid(items, t)
    decreases e, 1
  {
    MentionsAllValid(items, env, e.args);
    if MeaningAll(items, env, e.args).Some? { ValidAllOf(items, MeaningAll(items, env, e.args).value); }
  }

  lemma {:induction false} MentionsAllValid(items: Items, env: map<string, Ty>, es: seq<TypeExpr>)
    requires EnvValid(items, env)
    ensures var tys := MeaningAll(items, env, es);
      tys.Some? ==> forall i :: 0 <= i < |tys.value| ==> Valid(items, tys.value[i])
    ensures forall t <- MentionsAll(items, env, es) :: t.TableTy? && Valid(items, t)
    decreases es, 0
  {
    if es != [] {
      MentionsValid(items, env, es[0]);
      MentionsAllValid(items, env, es[1..]);
    }
  }

  lemma {:induction false} MentionsFound(items: Items, res: Resolved, env: map<string, Ty>, e: TypeExpr)
    requires ItemsOk(items) && Memo(items, res, {}) && EnvValid(items, env) && Holds(res, Mentions(items, env, e))
    ensures Mentions(items, env, e) <= Instances(items, res)
  {
    MentionsValid(items, env, e);
    forall t <- Mentions(items, env, e) ensures t in Instances(items, res) { InstanceFound(items, res, t); }
  }

  lemma {:induction false} BindValid(items: Items, names: seq<string>, tys: seq<Ty>)
    requires |names| == |tys| && ValidAll(items, tys)
    ensures EnvValid(items, Bind(names, tys))
  {
    if names != [] {
      ValidAllInit(items, tys);
      BindValid(items, names[..|names| - 1], tys[..|tys| - 1]);
    }
  }

  lemma {:induction false} ValidAllInit(items: Items, tys: seq<Ty>)
    requires tys != [] && ValidAll(items, tys)
    ensures ValidAll(items, tys[..|tys| - 1]) && Valid(items, tys[|tys| - 1])
  {
    if |tys| > 1 {
      ValidAllInit(items, tys[1..]);
      assert tys[..|tys| - 1][1..] == tys[1..][..|tys| - 2];
    }
  }

  /** A finished memo table is self-contained. */
  lemma {:induction false} InstancesSelfContained(items: Items, res: Resolved)
    requires ItemsOk(items) && Memo(items, res, {})
    ensures SelfContained(items, Instances(items, res))
  {
    forall t <- Instances(items, res) ensures WellDeclared(items, Instances(items, res), t) {
      var repr :| repr in res && t == InstanceOf(items, res, repr);
      InstanceFacts(items, res, repr);
      DeclaredSucceeds(items, t.id, t.args);
      var env := Bind(items[t.id].generics, t.args);
      BindValid(items, items[t.id].generics, t.args);
      forall d <- items[t.id].fields ensures Mentions(items, env, d.value) <= Instances(items, res) {
        MentionsFound(items, res, env, d.value);
      }
    }
  }

  lemma {:induction false} SuccessIsSupported(items: seq<TypeItem>, exports: seq<ExportDecl>, fuel: nat)
    returns (all: set<Ty>)
    requires Compile(items, exports, fuel).Success? && forall i :: 0 <= i < |items| ==> Ident(items[i].name)
    ensures DistinctItems(items) && UpperNames(items) && DistinctExports(exports)
    ensures Declare(items, map[]).Success? && Supports(Declare(items, map[]).value, exports, all)
  {
    DeclareSucceeds(items, map[]);
    CompiledMemo(items, exports, fuel);
    CompiledExports(items, exports, fuel);
    var (declared, types) := (Declare(items, map[]).value, Compile(items, exports, fuel).value.types);
    all := Instances(declared, types);
    InstancesSelfContained(declared, types);
    forall e <- exports ensures Meaning(declared, map[], e.ty).Some? && Mentions(declared, map[], e.ty) <= all {
      assert Exported(declared, e, Compile(items, exports, fuel).value.exports);
      MentionsFound(declared, types, map[], e.ty);
    }
  }

  /**
   Compilation succeeds, with some bound on how deep specialisations trigger further ones, if and only if type names are
   distinct and capitalised, export names are distinct, and the types of the exports reach, through the declarations, a
   finite set of table types that are all well declared.
   */
  lemma {:induction false} CompilesExactlyIf(items: seq<TypeItem>, exports: seq<ExportDecl>)
    requires forall i :: 0 <= i < |items| ==> Ident(items[i].name)
    ensures (exists fuel: nat :: Compile(items, exports, fuel).Success?) <==>
      DistinctItems(items) && UpperNames(items) && DistinctExports(exports) && Declare(items, map[]).Success? &&
      exists all :: Supports(Declare(items, map[]).value, exports, all)
  {
    if fuel: nat :| Compile(items, exports, fuel).Success? {
      var all := SuccessIsSupported(items, exports, fuel);
    }
    DeclareSucceeds(items, map[]);
    if Declare(items, map[]).Success? && DistinctExports(exports) {
      var declared := Declare(items, map[]).value;
      DeclareOk(items, map[]);
      if all :| Supports(declared, exports, all) {
        ExportsSucceed(declared, |Unmet(all, map[])|, map[], exports, map[], all);
        assert Compile(items, exports, |Unmet(all, map[])|).Success?;
      }
    }
  }
}
