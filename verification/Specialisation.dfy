/**
 Memoised specialisation is substitution: printed names identify specialised types, every
 entry of the memo table is the declared type under its arguments, and compiled schemas
 are what the planner expects.
 */
module Specialisation {
  import opened Wrappers
  import opened Schemas
  import opened SchemaCompiler

  // ---------------------------------------------------------------------------
  // Types as terms

  datatype Ty = PrimTy(prim: PrimitiveType) | TableTy(id: string, args: seq<Ty>) | SetTy(member: Ty)

  /** The compiled form keeps only printed names. */
  function Erase(ty: Ty): FieldType {
    match ty
    case PrimTy(p) => Primitive(p)
    case TableTy(id, args) => Table(Repr(id, EraseAll(args)))
    case SetTy(member) => SetOf(Erase(member))
  }

  function EraseAll(tys: seq<Ty>): (r: seq<FieldType>)
    ensures |r| == |tys|
  {
    if tys == [] then [] else [Erase(tys[0])] + EraseAll(tys[1..])
  }

  predicate IdentChar(c: char) {
    'a' <= c <= 'z' || 'A' <= c <= 'Z' || '0' <= c <= '9' || c == '_'
  }

  predicate Ident(s: string) {
    forall i :: 0 <= i < |s| ==> IdentChar(s[i])
  }

  /** What the parser and `Declare` guarantee about declared names. */
  predicate ItemsOk(items: Items) {
    forall id <- items :: id != "" && Ident(id) && IsUpper(id[0])
  }

  /** The term uses declared types with the right number of arguments, and sets of tables only. */
  predicate Valid(items: Items, ty: Ty) {
    match ty
    case PrimTy(_) => true
    case TableTy(id, args) => id in items && |args| == |items[id].generics| && ValidAll(items, args)
    case SetTy(member) => member.TableTy? && Valid(items, member)
  }

  predicate ValidAll(items: Items, tys: seq<Ty>) {
    tys == [] || (Valid(items, tys[0]) && ValidAll(items, tys[1..]))
  }

  // ---------------------------------------------------------------------------
  // Printed names are injective

  /** The leading word of a printed type. */
  function Word(ty: Ty): string {
    match ty
    case PrimTy(p) => PrimName(p)
    case TableTy(id, _) => id
    case SetTy(_) => "set"
  }

  function AfterWord(ty: Ty): string {
    match ty
    case PrimTy(_) => ""
    case TableTy(_, args) => "<" + PrintAll(EraseAll(args)) + ">"
    case SetTy(member) => "<" + Print(Erase(member)) + ">"
  }

  lemma {:induction false} Associate(a: string, b: string, c: string)
    ensures a + b + c == a + (b + c)
  {
  }

  lemma {:induction false} PrintSplits(ty: Ty)
    ensures Print(Erase(ty)) == Word(ty) + AfterWord(ty)
  {
    match ty
    case PrimTy(_) =>
    case TableTy(id, args) =>
      Associate(id, "<", PrintAll(EraseAll(args)));
      Associate(id, "<" + PrintAll(EraseAll(args)), ">");
    case SetTy(member) =>
      assert "set<" == "set" + "<";
      Associate("set", "<", Print(Erase(member)));
      Associate("set", "<" + Print(Erase(member)), ">");
  }

  /** Nothing follows, or something that is not part of a word. */
  predicate Stops(s: string) {
    s == "" || !IdentChar(s[0])
  }

  /** Two strings that agree have the same leading word. */
  lemma {:induction false} SameWord(u: string, x: string, v: string, y: string)
    requires Ident(u) && Ident(v) && Stops(x) && Stops(y) && u + x == v + y
    ensures u == v && x == y
  {
    assert u == "" ==> u + x == x;
    assert v == "" ==> v + y == y;
    assert u != "" ==> (u + x)[0] == u[0] && (u + x)[1..] == u[1..] + x && u == [u[0]] + u[1..];
    assert v != "" ==> (v + y)[0] == v[0] && (v + y)[1..] == v[1..] + y && v == [v[0]] + v[1..];
    if u != "" && v != "" { SameWord(u[1..], x, v[1..], y); }
  }

  lemma {:induction false} WordIsIdent(items: Items, ty: Ty)
    requires ItemsOk(items) && Valid(items, ty)
    ensures Ident(Word(ty)) && (Word(ty) != "" ==> (ty.TableTy? <==> IsUpper(Word(ty)[0]))) && Word(ty) != ""
  {
  }

  lemma {:induction false} SameHead(items: Items, a: Ty, b: Ty)
    requires ItemsOk(items) && Valid(items, a) && Valid(items, b) && Word(a) == Word(b)
    ensures match a
      case PrimTy(p) => b == PrimTy(p)
      case TableTy(id, args) => b.TableTy? && b.id == id && |b.args| == |args|
      case SetTy(_) => b.SetTy?
  {
    WordIsIdent(items, a);
    WordIsIdent(items, b);
    if !a.TableTy? { LowerWords(a, b); }
  }

  lemma {:induction false} LowerWords(a: Ty, b: Ty)
    requires !a.TableTy? && !b.TableTy? && Word(a) == Word(b)
    ensures (a.PrimTy? <==> b.PrimTy?) && (a.PrimTy? ==> a == b)
  {
    assert |Word(a)| == |Word(b)| && Word(a)[0] == Word(b)[0];
  }

  /** A printed type can be parsed back from the front of any text that goes on with a stop. */
  lemma {:induction false} PrintInjective(items: Items, a: Ty, x: string, b: Ty, y: string)
    requires ItemsOk(items) && Valid(items, a) && Valid(items, b) && Stops(x) && Stops(y)
    requires Print(Erase(a)) + x == Print(Erase(b)) + y
    ensures a == b && x == y
    decreases a, 0
  {
    PrintSplits(a);
    PrintSplits(b);
    WordIsIdent(items, a);
    WordIsIdent(items, b);
    Associate(Word(a), AfterWord(a), x);
    Associate(Word(b), AfterWord(b), y);
    StopsAfter(a, x);
    StopsAfter(b, y);
    SameWord(Word(a), AfterWord(a) + x, Word(b), AfterWord(b) + y);
    SameHead(items, a, b);
    match a
    case PrimTy(_) => assert AfterWord(a) + x == x && AfterWord(b) + y == y;
    case SetTy(m) => SetInjective(items, m, x, b.member, y);
    case TableTy(_, args) => ArgsInjective(items, args, x, b.args, y);
  }

  lemma {:induction false} StopsAfter(ty: Ty, x: string)
    requires Stops(x)
    ensures Stops(AfterWord(ty) + x)
  {
    if ty.PrimTy? {
      assert AfterWord(ty) + x == x;
    } else {
      assert (AfterWord(ty) + x)[0] == '<';
    }
  }

  /** Brackets around equal texts can be taken off on the left. */
  lemma {:induction false} Unbracket(u: string, x: string, v: string, y: string)
    requires "<" + u + ">" + x == "<" + v + ">" + y
    ensures u + (">" + x) == v + (">" + y)
  {
    assert ("<" + u + ">" + x)[1..] == u + (">" + x);
    assert ("<" + v + ">" + y)[1..] == v + (">" + y);
  }

  lemma {:induction false} DropFirst(c: string, x: string, y: string)
    requires c + x == c + y
    ensures x == y
  {
    assert (c + x)[|c|..] == x && (c + y)[|c|..] == y;
  }

  lemma {:induction false} SetInjective(items: Items, a: Ty, x: string, b: Ty, y: string)
    requires ItemsOk(items) && Valid(items, a) && Valid(items, b)
    requires "<" + Print(Erase(a)) + ">" + x == "<" + Print(Erase(b)) + ">" + y
    ensures a == b && x == y
    decreases a, 1
  {
    Unbracket(Print(Erase(a)), x, Print(Erase(b)), y);
    PrintInjective(items, a, ">" + x, b, ">" + y);
    DropFirst(">", x, y);
  }

  lemma {:induction false} ArgsInjective(items: Items, a: seq<Ty>, x: string, b: seq<Ty>, y: string)
    requires ItemsOk(items) && ValidAll(items, a) && ValidAll(items, b) && |a| == |b|
    requires "<" + PrintAll(EraseAll(a)) + ">" + x == "<" + PrintAll(EraseAll(b)) + ">" + y
    ensures a == b && x == y
    decreases a, 1
  {
    Unbracket(PrintAll(EraseAll(a)), x, PrintAll(EraseAll(b)), y);
    ListInjective(items, a, ">" + x, b, ">" + y);
    DropFirst(">", x, y);
  }

  lemma {:induction false} ListInjective(items: Items, a: seq<Ty>, x: string, b: seq<Ty>, y: string)
    requires ItemsOk(items) && ValidAll(items, a) && ValidAll(items, b) && |a| == |b| && Stops(x) && Stops(y)
    requires PrintAll(EraseAll(a)) + x == PrintAll(EraseAll(b)) + y
    ensures a == b && x == y
    decreases a, 0
  {
    if |a| == 0 {
      assert PrintAll(EraseAll(a)) + x == x && PrintAll(EraseAll(b)) + y == y;
    } else if |a| == 1 {
      assert EraseAll(a) == [Erase(a[0])] && EraseAll(b) == [Erase(b[0])];
      PrintInjective(items, a[0], x, b[0], y);
    } else {
      PrintCons(a, x);
      PrintCons(b, y);
      var (u, v) := (PrintAll(EraseAll(a[1..])) + x, PrintAll(EraseAll(b[1..])) + y);
      PrintInjective(items, a[0], ", " + u, b[0], ", " + v);
      DropFirst(", ", u, v);
      ListInjective(items, a[1..], x, b[1..], y);
      assert a == [a[0]] + a[1..] && b == [b[0]] + b[1..];
    }
  }

  lemma {:induction false} PrintCons(a: seq<Ty>, x: string)
    requires |a| > 1
    ensures PrintAll(EraseAll(a)) + x == Print(Erase(a[0])) + (", " + (PrintAll(EraseAll(a[1..])) + x))
    ensures Stops(", " + (PrintAll(EraseAll(a[1..])) + x))
  {
    var (h, u) := (Print(Erase(a[0])), PrintAll(EraseAll(a[1..])));
    assert EraseAll(a)[1..] == EraseAll(a[1..]);
    assert PrintAll(EraseAll(a)) == h + ", " + u;
    Associate(h, ", ", u);
    Associate(h, ", " + u, x);
    Associate(", ", u, x);
    assert (", " + (u + x))[0] == ',';
  }

  /** Two specialised tables with the same printed name are the same type applied to the same arguments. */
  lemma {:induction false} NamesIdentify(items: Items, id: string, args: seq<Ty>, id': string, args': seq<Ty>)
    requires ItemsOk(items) && Valid(items, TableTy(id, args)) && Valid(items, TableTy(id', args'))
    requires Repr(id, EraseAll(args)) == Repr(id', EraseAll(args'))
    ensures id == id' && args == args'
  {
    var (a, b) := (TableTy(id, args), TableTy(id', args'));
    assert Print(Erase(a)) + "" == Print(Erase(b)) + "";
    PrintInjective(items, a, "", b, "");
  }

  // ---------------------------------------------------------------------------
  // Substitution

  /** The type a type expression means, by substitution for the type parameters. */
  function Meaning(items: Items, env: map<string, Ty>, e: TypeExpr): Option<Ty>
    decreases e, 1
  {
    var args := MeaningAll(items, env, e.args);
    if args.None? then None
    else if e.id in env then if args.value == [] then Some(env[e.id]) else None
    else if PrimOf(e.id).Some? then if args.value == [] then Some(PrimTy(PrimOf(e.id).value)) else None
    else if e.id == "set" then
      if |args.value| == 1 && args.value[0].TableTy? then Some(SetTy(args.value[0])) else None
    else if e.id in items && |items[e.id].generics| == |args.value| then Some(TableTy(e.id, args.value))
    else None
  }

  function MeaningAll(items: Items, env: map<string, Ty>, es: seq<TypeExpr>): Option<seq<Ty>>
    decreases es, 0
  {
    if es == [] then Some([]) else
    var (ty, rest) := (Meaning(items, env, es[0]), MeaningAll(items, env, es[1..]));
    if ty.None? || rest.None? then None else Some([ty.value] + rest.value)
  }

  /** The table types that a type expression names, itself and in its arguments at any depth. */
  function Mentions(items: Items, env: map<string, Ty>, e: TypeExpr): set<Ty>
    decreases e, 1
  {
    var ty := Meaning(items, env, e);
    MentionsAll(items, env, e.args) + (if e.id !in env && ty.Some? && ty.value.TableTy? then {ty.value} else {})
  }

  function MentionsAll(items: Items, env: map<string, Ty>, es: seq<TypeExpr>): set<Ty>
    decreases es, 0
  {
    if es == [] then {} else Mentions(items, env, es[0]) + MentionsAll(items, env, es[1..])
  }

  /** The declared fields of a type under its arguments. */
  function Declared(items: Items, id: string, args: seq<Ty>): Option<Fields>
    requires id in items && |args| == |items[id].generics|
  {
    var fields := DeclaredFields(items, Bind(items[id].generics, args), items[id].fields, map[]);
    if fields.None? || |Primaries(fields.value)| > 1 then None else fields
  }

  function DeclaredFields(items: Items, env: map<string, Ty>, decls: seq<FieldDecl>, done: Fields): Option<Fields> {
    if decls == [] then Some(done)
    else if decls[0].name in done then None
    else
      match Meaning(items, env, decls[0].value)
      case None => None
      case Some(ty) =>
        match FieldOf(decls[0], Erase(ty))
        case Failure(_) => None
        case Success(info) => DeclaredFields(items, env, decls[1..], done[decls[0].name := info])
  }

  // ---------------------------------------------------------------------------
  // The memo table

  /** Every table the type mentions is in the memo table. */
  predicate Present(res: Resolved, ty: FieldType) {
    match ty
    case Table(name) => name in res
    case Primitive(_) => true
    case SetOf(member) => Present(res, member)
  }

  predicate FieldsOk(res: Resolved, fields: Fields) {
    forall n <- fields :: Present(res, fields[n].ty) && SetsOfTables(fields[n].ty)
  }

  /** Every one of the table types is in the memo table. */
  ghost predicate Holds(res: Resolved, tys: set<Ty>) {
    forall ty <- tys :: Present(res, Erase(ty))
  }

  /** The table types that the fields of a type name are all in the memo table. */
  ghost predicate Saturated(items: Items, res: Resolved, env: map<string, Ty>, decls: seq<FieldDecl>) {
    forall d <- decls :: Holds(res, Mentions(items, env, d.value))
  }

  /** The entry is the named type; unless it is still open, it is that type's declaration under its arguments. */
  ghost predicate Describes(items: Items, res: Resolved, open: set<string>, repr: string, id: string, args: seq<Ty>)
    requires repr in res
  {
    Valid(items, TableTy(id, args)) && Repr(id, EraseAll(args)) == repr &&
    (repr !in open ==>
       Declared(items, id, args) == Some(res[repr]) && FieldsOk(res, res[repr]) &&
       Saturated(items, res, Bind(items[id].generics, args), items[id].fields))
  }

  ghost predicate Described(items: Items, res: Resolved, open: set<string>, repr: string)
    requires repr in res
  {
    exists id, args :: Describes(items, res, open, repr, id, args)
  }

  ghost predicate Memo(items: Items, res: Resolved, open: set<string>) {
    open <= res.Keys && forall repr {:trigger Described(items, res, open, repr)} :: repr in res ==> Described(items, res, open, repr)
  }

  /** Entries are only added. */
  predicate Grows(res: Resolved, res': Resolved) {
    res.Keys <= res'.Keys && forall k <- res :: res'[k] == res[k]
  }

  ghost predicate EnvOk(items: Items, res: Resolved, env: map<string, Ty>) {
    forall k <- env :: Valid(items, env[k]) && Present(res, Erase(env[k]))
  }

  function EraseEnv(env: map<string, Ty>): map<string, FieldType> {
    map k | k in env :: Erase(env[k])
  }

  ghost predicate AllPresent(items: Items, res: Resolved, tys: seq<Ty>) {
    forall i :: 0 <= i < |tys| ==> Valid(items, tys[i]) && Present(res, Erase(tys[i]))
  }

  lemma {:induction false} PresentGrows(res: Resolved, res': Resolved, ty: FieldType)
    requires res.Keys <= res'.Keys && Present(res, ty)
    ensures Present(res', ty)
  {
    if ty.SetOf? { PresentGrows(res, res', ty.member); }
  }

  lemma {:induction false} EnvGrows(items: Items, res: Resolved, res': Resolved, env: map<string, Ty>)
    requires EnvOk(items, res, env) && res.Keys <= res'.Keys
    ensures EnvOk(items, res', env)
  {
    forall k <- env ensures Present(res', Erase(env[k])) { PresentGrows(res, res', Erase(env[k])); }
  }

  lemma {:induction false} FieldsGrow(res: Resolved, res': Resolved, fields: Fields)
    requires FieldsOk(res, fields) && res.Keys <= res'.Keys
    ensures FieldsOk(res', fields)
  {
    forall n <- fields ensures Present(res', fields[n].ty) { PresentGrows(res, res', fields[n].ty); }
  }

  lemma {:induction false} HoldsGrows(res: Resolved, res': Resolved, tys: set<Ty>)
    requires Holds(res, tys) && res.Keys <= res'.Keys
    ensures Holds(res', tys)
  {
    forall ty <- tys ensures Present(res', Erase(ty)) { PresentGrows(res, res', Erase(ty)); }
  }

  lemma {:induction false} SaturatedGrows(items: Items, res: Resolved, res': Resolved, env: map<string, Ty>,
                                          decls: seq<FieldDecl>)
    requires Saturated(items, res, env, decls) && res.Keys <= res'.Keys
    ensures Saturated(items, res', env, decls)
  {
    forall d <- decls ensures Holds(res', Mentions(items, env, d.value)) {
      HoldsGrows(res, res', Mentions(items, env, d.value));
    }
  }

  lemma {:induction false} SaturatedCons(items: Items, res: Resolved, res': Resolved, env: map<string, Ty>,
                                         decls: seq<FieldDecl>)
    requires decls != [] && Holds(res, Mentions(items, env, decls[0].value)) && res.Keys <= res'.Keys
    requires Saturated(items, res', env, decls[1..])
    ensures Saturated(items, res', env, decls)
  {
    HoldsGrows(res, res', Mentions(items, env, decls[0].value));
    assert decls == [decls[0]] + decls[1..];
  }

  /** An entry stays described when the table grows and the set of open entries agrees on it. */
  lemma {:induction false} DescribedGrows(items: Items, res: Resolved, open: set<string>, res': Resolved,
                                          open': set<string>, repr: string)
    requires repr in res && repr in res' && res'[repr] == res[repr] && res.Keys <= res'.Keys && (repr in open' <==> repr in open)
    requires Described(items, res, open, repr)
    ensures Described(items, res', open', repr)
  {
    var id, args :| Describes(items, res, open, repr, id, args);
    if repr !in open {
      FieldsGrow(res, res', res[repr]);
      SaturatedGrows(items, res, res', Bind(items[id].generics, args), items[id].fields);
    }
    assert Describes(items, res', open', repr, id, args);
  }

  lemma {:induction false} EraseAllAt(tys: seq<Ty>, i: nat)
    requires i < |tys|
    ensures EraseAll(tys)[i] == Erase(tys[i])
  {
    if i > 0 { EraseAllAt(tys[1..], i - 1); }
  }

  lemma {:induction false} EraseSnoc(tys: seq<Ty>, ty: Ty)
    ensures EraseAll(tys + [ty]) == EraseAll(tys) + [Erase(ty)]
  {
    if tys == [] {
      assert tys + [ty] == [ty];
    } else {
      assert (tys + [ty])[1..] == tys[1..] + [ty];
      EraseSnoc(tys[1..], ty);
    }
  }

  lemma {:induction false} BindErases(names: seq<string>, tys: seq<Ty>)
    requires |names| == |tys|
    ensures EraseEnv(Bind(names, tys)) == Bind(names, EraseAll(tys))
  {
    if names != [] {
      var (n, init, last) := (|names| - 1, tys[..|tys| - 1], tys[|tys| - 1]);
      BindErases(names[..n], init);
      EraseSnoc(init, last);
      assert tys == init + [last];
      assert EraseAll(tys)[..n] == EraseAll(init);
    }
  }

  lemma {:induction false} BindOk(items: Items, res: Resolved, names: seq<string>, tys: seq<Ty>)
    requires |names| == |tys| && AllPresent(items, res, tys)
    ensures EnvOk(items, res, Bind(names, tys))
  {
    if names != [] { BindOk(items, res, names[..|names| - 1], tys[..|tys| - 1]); }
  }

  lemma {:induction false} ValidAllOf(items: Items, tys: seq<Ty>)
    requires forall i :: 0 <= i < |tys| ==> Valid(items, tys[i])
    ensures ValidAll(items, tys)
  {
    if tys != [] { ValidAllOf(items, tys[1..]); }
  }

  // ---------------------------------------------------------------------------
  // Resolution computes the substitution

  /** What a successful resolution has done. */
  ghost predicate Advanced(items: Items, res: Resolved, res': Resolved, open: set<string>) {
    Grows(res, res') && Memo(items, res', open)
  }

  lemma {:induction false} ResolveCorrect(items: Items, fuel: nat, res: Resolved, env: map<string, Ty>, e: TypeExpr,
                                          open: set<string>)
    returns (ty: Ty)
    requires ItemsOk(items) && Memo(items, res, open) && EnvOk(items, res, env)
    requires Resolve(items, fuel, res, EraseEnv(env), e).Success?
    ensures var (ft, res') := Resolve(items, fuel, res, EraseEnv(env), e).value;
      Meaning(items, env, e) == Some(ty) && ft == Erase(ty) && Valid(items, ty) && Present(res', ft) &&
      Holds(res', Mentions(items, env, e)) && Advanced(items, res, res', open)
    decreases fuel, e, 1
  {
    var tys := ArgsCorrect(items, fuel, res, env, e.args, [], open);
    var (args, res') := ResolveArgs(items, fuel, res, EraseEnv(env), e.args, []).value;
    assert [] + EraseAll(tys) == EraseAll(tys);
    EnvGrows(items, res, res', env);
    HeadMeaning(items, res', env, e, tys);
    ty := Meaning(items, env, e).value;
    if HeadOf(items, EraseEnv(env), e.id, args).value.Instance? && Repr(e.id, args) !in res' {
      InstanceCorrect(items, fuel, res', e.id, tys, open);
    }
    HoldsGrows(res', Resolve(items, fuel, res, EraseEnv(env), e).value.1, MentionsAll(items, env, e.args));
  }

  /** Given the meanings of the arguments, the head of a type expression has the expression's meaning. */
  lemma {:induction false} HeadMeaning(items: Items, res: Resolved, env: map<string, Ty>, e: TypeExpr, tys: seq<Ty>)
    requires EnvOk(items, res, env) && AllPresent(items, res, tys) && MeaningAll(items, env, e.args) == Some(tys)
    requires HeadOf(items, EraseEnv(env), e.id, EraseAll(tys)).Success?
    ensures Meaning(items, env, e).Some? && Valid(items, Meaning(items, env, e).value)
    ensures var head := HeadOf(items, EraseEnv(env), e.id, EraseAll(tys)).value;
      (head.Known? ==> head.ty == Erase(Meaning(items, env, e).value) && Present(res, head.ty)) &&
      (head.Instance? ==> Meaning(items, env, e).value == TableTy(e.id, tys))
  {
    ValidAllOf(items, tys);
    if |tys| == 1 { EraseAllAt(tys, 0); }
  }

  lemma {:induction false} ArgsCorrect(items: Items, fuel: nat, res: Resolved, env: map<string, Ty>, es: seq<TypeExpr>,
                                       done: seq<FieldType>, open: set<string>)
    returns (tys: seq<Ty>)
    requires ItemsOk(items) && Memo(items, res, open) && EnvOk(items, res, env)
    requires ResolveArgs(items, fuel, res, EraseEnv(env), es, done).Success?
    ensures var (args, res') := ResolveArgs(items, fuel, res, EraseEnv(env), es, done).value;
      MeaningAll(items, env, es) == Some(tys) && args == done + EraseAll(tys) && AllPresent(items, res', tys) &&
      Holds(res', MentionsAll(items, env, es)) && Advanced(items, res, res', open)
    decreases fuel, es, 0
  {
    if es == [] {
      tys := [];
    } else {
      var ty := ResolveCorrect(items, fuel, res, env, es[0], open);
      var (ft, res') := Resolve(items, fuel, res, EraseEnv(env), es[0]).value;
      EnvGrows(items, res, res', env);
      var rest := ArgsCorrect(items, fuel, res', env, es[1..], done + [ft], open);
      tys := [ty] + rest;
      var res'' := ResolveArgs(items, fuel, res', EraseEnv(env), es[1..], done + [ft]).value.1;
      PresentGrows(res', res'', ft);
      HoldsGrows(res', res'', Mentions(items, env, es[0]));
      ConsPresent(items, res'', ty, rest, done);
    }
  }

  lemma {:induction false} ConsPresent(items: Items, res: Resolved, ty: Ty, rest: seq<Ty>, done: seq<FieldType>)
    requires Valid(items, ty) && Present(res, Erase(ty)) && AllPresent(items, res, rest)
    ensures AllPresent(items, res, [ty] + rest)
    ensures done + [Erase(ty)] + EraseAll(rest) == done + EraseAll([ty] + rest)
  {
    assert ([ty] + rest)[1..] == rest;
    assert EraseAll([ty] + rest) == [Erase(ty)] + EraseAll(rest);
  }

  /** The fields of a type met for the first time, resolved with the placeholder in place. */
  function OpenFields(items: Items, fuel: nat, res: Resolved, id: string, args: seq<FieldType>)
    : Result<(Fields, Resolved), CompileError>
    requires id in items && |items[id].generics| == |args|
  {
    ResolveFields(items, fuel, res[Repr(id, args) := map[]], Bind(items[id].generics, args), items[id].fields, map[])
  }

  /** A type met for the first time ends up in the table as its declaration under its arguments. */
  lemma {:induction false} InstanceCorrect(items: Items, fuel: nat, res: Resolved, id: string, tys: seq<Ty>,
                                           open: set<string>)
    requires ItemsOk(items) && Memo(items, res, open) && AllPresent(items, res, tys) && fuel > 0
    requires Valid(items, TableTy(id, tys)) && Repr(id, EraseAll(tys)) !in res
    requires var r := OpenFields(items, fuel - 1, res, id, EraseAll(tys)); r.Success? && |Primaries(r.value.0)| <= 1
    ensures var (fields, res'') := OpenFields(items, fuel - 1, res, id, EraseAll(tys)).value;
      Advanced(items, res, res''[Repr(id, EraseAll(tys)) := fields], open)
    decreases fuel - 1, items[id].fields, 3
  {
    var repr := Repr(id, EraseAll(tys));
    var (env, res') := (Bind(items[id].generics, tys), res[repr := map[]]);
    OpenEntry(items, res, id, tys, open);
    OpenEnv(items, res, res', id, tys);
    FieldsCorrect(items, fuel - 1, res', env, items[id].fields, map[], open + {repr});
    var (fields, res'') := OpenFields(items, fuel - 1, res, id, EraseAll(tys)).value;
    CloseEntry(items, res'', id, tys, fields, open);
    ClosedGrows(res, res'', repr, fields);
  }

  lemma {:induction false} OpenEnv(items: Items, res: Resolved, res': Resolved, id: string, tys: seq<Ty>)
    requires id in items && |items[id].generics| == |tys| && AllPresent(items, res, tys) && res.Keys <= res'.Keys
    ensures EnvOk(items, res', Bind(items[id].generics, tys))
    ensures EraseEnv(Bind(items[id].generics, tys)) == Bind(items[id].generics, EraseAll(tys))
  {
    BindErases(items[id].generics, tys);
    forall i | 0 <= i < |tys| ensures Present(res', Erase(tys[i])) { PresentGrows(res, res', Erase(tys[i])); }
    BindOk(items, res', items[id].generics, tys);
  }

  lemma {:induction false} ClosedGrows(res: Resolved, res'': Resolved, repr: string, fields: Fields)
    requires repr !in res && Grows(res[repr := map[]], res'')
    ensures Grows(res, res''[repr := fields])
  {
    forall k <- res ensures res''[repr := fields][k] == res[k] {
      assert res[repr := map[]][k] == res[k];
    }
  }

  /** Putting the placeholder in. */
  lemma {:induction false} OpenEntry(items: Items, res: Resolved, id: string, tys: seq<Ty>, open: set<string>)
    requires Memo(items, res, open) && Valid(items, TableTy(id, tys)) && Repr(id, EraseAll(tys)) !in res
    ensures Memo(items, res[Repr(id, EraseAll(tys)) := map[]], open + {Repr(id, EraseAll(tys))})
  {
    var repr := Repr(id, EraseAll(tys));
    var (res', open') := (res[repr := map[]], open + {repr});
    forall k <- res' ensures Described(items, res', open', k) {
      if k == repr {
        assert Describes(items, res', open', repr, id, tys);
      } else {
        assert Described(items, res, open, k);
        DescribedGrows(items, res, open, res', open', k);
      }
    }
  }

  /** Filling the placeholder. */
  lemma {:induction false} CloseEntry(items: Items, res: Resolved, id: string, tys: seq<Ty>, fields: Fields,
                                      open: set<string>)
    requires Valid(items, TableTy(id, tys)) && Repr(id, EraseAll(tys)) !in open
    requires Memo(items, res, open + {Repr(id, EraseAll(tys))})
    requires Declared(items, id, tys) == Some(fields) && FieldsOk(res, fields)
    requires Saturated(items, res, Bind(items[id].generics, tys), items[id].fields)
    ensures Memo(items, res[Repr(id, EraseAll(tys)) := fields], open)
  {
    var repr := Repr(id, EraseAll(tys));
    var res' := res[repr := fields];
    FieldsGrow(res, res', fields);
    SaturatedGrows(items, res, res', Bind(items[id].generics, tys), items[id].fields);
    forall k <- res' ensures Described(items, res', open, k) {
      if k == repr {
        assert Describes(items, res', open, repr, id, tys);
      } else {
        assert Described(items, res, open + {repr}, k);
        DescribedGrows(items, res, open + {repr}, res', open, k);
      }
    }
  }

  lemma {:induction false} FieldsCorrect(items: Items, fuel: nat, res: Resolved, env: map<string, Ty>,
                                         decls: seq<FieldDecl>, done: Fields, open: set<string>)
    requires ItemsOk(items) && Memo(items, res, open) && EnvOk(items, res, env) && FieldsOk(res, done)
    requires ResolveFields(items, fuel, res, EraseEnv(env), decls, done).Success?
    ensures var (fields, res') := ResolveFields(items, fuel, res, EraseEnv(env), decls, done).value;
      DeclaredFields(items, env, decls, done) == Some(fields) && FieldsOk(res', fields) &&
      Saturated(items, res', env, decls) && Advanced(items, res, res', open)
    decreases fuel, decls, 2
  {
    if decls != [] {
      var ty := ResolveCorrect(items, fuel, res, env, decls[0].value, open);
      var (ft, res') := Resolve(items, fuel, res, EraseEnv(env), decls[0].value).value;
      EnvGrows(items, res, res', env);
      FieldsGrow(res, res', done);
      var info := FieldOf(decls[0], ft).value;
      FieldsCorrect(items, fuel, res', env, decls[1..], done[decls[0].name := info], open);
      var res'' := ResolveFields(items, fuel, res', EraseEnv(env), decls[1..], done[decls[0].name := info]).value.1;
      SaturatedCons(items, res', res'', env, decls);
    }
  }
}
