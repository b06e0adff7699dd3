/**
 The schema compiler: generic table types are specialised on demand and memoised under
 their printed names.
 */
module SchemaCompiler {
  import opened Wrappers
  import opened Schemas

  datatype CompileError =
    | DuplicateType(name: string)
    | TypeNameMustStartWithUpperCaseLetter(name: string)
    | DuplicateExport(name: string)
    | DuplicateField(name: string)
    | MissingType(name: string)
    | ArgCountMismatch(name: string)
    | CannotSpecializeTypeParameter(name: string)
    | CannotSpecializePrimitiveType(name: string)
    | BadSetTypeParameter
    | UnknownAnnotationOnField(name: string)
    | IndexOnNonPrimitiveField(name: string)
    | MultiplePrimaryKeys(name: string)
    | OutOfFuel

  /** A type expression; one without arguments is the unit form. */
  datatype TypeExpr = TypeExpr(id: string, args: seq<TypeExpr>)

  datatype RawAnnotation = Recognised(annotation: Annotation) | Unrecognised(name: string)

  datatype FieldDecl = FieldDecl(name: string, value: TypeExpr, annotations: seq<RawAnnotation>)

  datatype TypeItem = TypeItem(name: string, generics: seq<string>, fields: seq<FieldDecl>)

  datatype ExportDecl = ExportDecl(name: string, ty: TypeExpr)

  datatype Info = Info(ty: FieldType, annotations: seq<Annotation>)

  type Items = map<string, TypeItem>

  type Fields = map<string, Info>

  /** Specialised types by printed name; a type being resolved is there with no fields yet. */
  type Resolved = map<string, Fields>

  // ---------------------------------------------------------------------------
  // Names

  function PrimName(p: PrimitiveType): string {
    match p
    case Int64Type => "int64"
    case DoubleType => "double"
    case StringType => "string"
    case BytesType => "bytes"
  }

  function PrimOf(id: string): Option<PrimitiveType> {
    if id == "int64" then Some(Int64Type)
    else if id == "double" then Some(DoubleType)
    else if id == "string" then Some(StringType)
    else if id == "bytes" then Some(BytesType)
    else None
  }

  /** `Display` of a field type. */
  function Print(ty: FieldType): string {
    match ty
    case Table(name) => name
    case Primitive(p) => PrimName(p)
    case SetOf(member) => "set<" + Print(member) + ">"
  }

  function PrintAll(tys: seq<FieldType>): string {
    if tys == [] then ""
    else if |tys| == 1 then Print(tys[0])
    else Print(tys[0]) + ", " + PrintAll(tys[1..])
  }

  /** The printed name of a specialised table type. */
  function Repr(id: string, args: seq<FieldType>): string {
    id + "<" + PrintAll(args) + ">"
  }

  // ---------------------------------------------------------------------------
  // Declarations

  predicate IsUpper(c: char) {
    'A' <= c <= 'Z'
  }

  /** `TypeResolutionContext::new`. */
  function Declare(items: seq<TypeItem>, done: Items): Result<Items, CompileError> {
    if items == [] then Success(done)
    else if items[0].name in done then Failure(DuplicateType(items[0].name))
    else if items[0].name == "" || !IsUpper(items[0].name[0])
    then Failure(TypeNameMustStartWithUpperCaseLetter(items[0].name))
    else Declare(items[1..], done[items[0].name := items[0]])
  }

  function ReadAnnotations(raw: seq<RawAnnotation>): Result<seq<Annotation>, CompileError> {
    if raw == [] then Success([])
    else if raw[0].Unrecognised? then Failure(UnknownAnnotationOnField(raw[0].name))
    else
      match ReadAnnotations(raw[1..])
      case Failure(e) => Failure(e)
      case Success(rest) => Success([raw[0].annotation] + rest)
  }

  predicate Indexes(annotations: seq<Annotation>) {
    PrimaryKey in annotations || Unique in annotations || Index in annotations
  }

  /** A field of the given type with its annotations checked. */
  function FieldOf(decl: FieldDecl, ty: FieldType): Result<Info, CompileError> {
    match ReadAnnotations(decl.annotations)
    case Failure(e) => Failure(e)
    case Success(annotations) =>
      if Indexes(annotations) && !ty.Primitive? then Failure(IndexOnNonPrimitiveField(decl.name))
      else Success(Info(ty, annotations))
  }

  function Primaries(fields: Fields): set<string> {
    set n | n in fields && IsPrimary(fields[n].annotations)
  }

  function CheckPrimaries(name: string, fields: Fields): Result<Fields, CompileError> {
    if |Primaries(fields)| > 1 then Failure(MultiplePrimaryKeys(name)) else Success(fields)
  }

  /** Type parameters bound to arguments; a repeated parameter takes its last argument. */
  function Bind<T>(names: seq<string>, values: seq<T>): map<string, T>
    requires |names| == |values|
  {
    if names == [] then map[]
    else Bind(names[..|names| - 1], values[..|values| - 1])[names[|names| - 1] := values[|values| - 1]]
  }

  // ---------------------------------------------------------------------------
  // Resolution

  /** What the name and the resolved arguments of a type expression come to before any specialisation. */
  datatype Head = Known(ty: FieldType) | Instance(item: TypeItem)

  function HeadOf(items: Items, env: map<string, FieldType>, id: string, args: seq<FieldType>)
    : (r: Result<Head, CompileError>)
    ensures r.Success? && r.value.Instance? ==> id in items && r.value.item == items[id] && |items[id].generics| == |args|
  {
    if id in env then
      if args != [] then Failure(CannotSpecializeTypeParameter(id)) else Success(Known(env[id]))
    else if PrimOf(id).Some? then
      if args != [] then Failure(CannotSpecializePrimitiveType(id)) else Success(Known(Primitive(PrimOf(id).value)))
    else if id == "set" then
      if |args| == 1 && args[0].Table? then Success(Known(SetOf(args[0]))) else Failure(BadSetTypeParameter)
    else if id !in items then Failure(MissingType(id))
    else if |items[id].generics| != |args| then Failure(ArgCountMismatch(id))
    else Success(Instance(items[id]))
  }

  /** `resolve_type_expr`; `fuel` bounds how deep specialisations trigger further ones. */
  function Resolve(items: Items, fuel: nat, res: Resolved, env: map<string, FieldType>, e: TypeExpr)
    : Result<(FieldType, Resolved), CompileError>
    decreases fuel, e, 1
  {
    match ResolveArgs(items, fuel, res, env, e.args, [])
    case Failure(err) => Failure(err)
    case Success((args, res')) =>
      match HeadOf(items, env, e.id, args)
      case Failure(err) => Failure(err)
      case Success(Known(ty)) => Success((ty, res'))
      case Success(Instance(item)) =>
        var repr := Repr(e.id, args);
        if repr in res' then Success((Table(repr), res'))
        else if fuel == 0 then Failure(OutOfFuel)
        else
          match ResolveFields(items, fuel - 1, res'[repr := map[]], Bind(item.generics, args), item.fields, map[])
          case Failure(err) => Failure(err)
          case Success((fields, res'')) =>
            match CheckPrimaries(e.id, fields)
            case Failure(err) => Failure(err)
            case Success(_) => Success((Table(repr), res''[repr := fields]))
  }

  function ResolveArgs(items: Items, fuel: nat, res: Resolved, env: map<string, FieldType>, es: seq<TypeExpr>,
                       done: seq<FieldType>): Result<(seq<FieldType>, Resolved), CompileError>
    decreases fuel, es, 0
  {
    if es == [] then Success((done, res)) else
    match Resolve(items, fuel, res, env, es[0])
    case Failure(err) => Failure(err)
    case Success((ty, res')) => ResolveArgs(items, fuel, res', env, es[1..], done + [ty])
  }

  function ResolveFields(items: Items, fuel: nat, res: Resolved, env: map<string, FieldType>, decls: seq<FieldDecl>,
                         done: Fields): Result<(Fields, Resolved), CompileError>
    decreases fuel, decls, 2
  {
    if decls == [] then Success((done, res))
    else if decls[0].name in done then Failure(DuplicateField(decls[0].name))
    else
      match Resolve(items, fuel, res, env, decls[0].value)
      case Failure(err) => Failure(err)
      case Success((ty, res')) =>
        match FieldOf(decls[0], ty)
        case Failure(err) => Failure(err)
        case Success(info) => ResolveFields(items, fuel, res', env, decls[1..], done[decls[0].name := info])
  }

  datatype Compiled = Compiled(types: Resolved, exports: map<string, FieldType>)

  function ResolveExports(items: Items, fuel: nat, res: Resolved, exports: seq<ExportDecl>, done: map<string, FieldType>)
    : Result<Compiled, CompileError>
    decreases |exports|
  {
    if exports == [] then Success(Compiled(res, done))
    else if exports[0].name in done then Failure(DuplicateExport(exports[0].name))
    else
      match Resolve(items, fuel, res, map[], exports[0].ty)
      case Failure(err) => Failure(err)
      case Success((ty, res')) => ResolveExports(items, fuel, res', exports[1..], done[exports[0].name := ty])
  }

  /** `compile`. */
  function Compile(items: seq<TypeItem>, exports: seq<ExportDecl>, fuel: nat): Result<Compiled, CompileError> {
    match Declare(items, map[])
    case Failure(err) => Failure(err)
    case Success(declared) => ResolveExports(declared, fuel, map[], exports, map[])
  }

  // ---------------------------------------------------------------------------
  // The resolution context

  /** `TypeResolutionContext`: the memo table changes while types are resolved. */
  class TypeResolutionContext {
    const unresolved: Items
    var resolved: Resolved

    constructor (declared: Items)
      ensures unresolved == declared && resolved == map[]
    {
      unresolved, resolved := declared, map[];
    }

    /** The memo table is what the specification says whenever resolution succeeds. */
    method ResolveTypeExpr(fuel: nat, env: map<string, FieldType>, e: TypeExpr) returns (r: Result<FieldType, CompileError>)
      modifies this
      ensures match Resolve(unresolved, fuel, old(resolved), env, e)
        case Failure(err) => r == Failure(err)
        case Success((ty, res)) => r == Success(ty) && resolved == res
      decreases fuel, e, 1
    {
      var args: seq<FieldType> := [];
      for i := 0 to |e.args|
        invariant ResolveArgs(unresolved, fuel, old(resolved), env, e.args, []) ==
                  ResolveArgs(unresolved, fuel, resolved, env, e.args[i..], args)
      {
        assert e.args[i..][0] == e.args[i] && e.args[i..][1..] == e.args[i + 1..];
        var arg := ResolveTypeExpr(fuel, env, e.args[i]);
        if arg.Failure? { return Failure(arg.error); }
        args := args + [arg.value];
      }
      assert e.args[|e.args|..] == [];
      var head := HeadOf(unresolved, env, e.id, args);
      if head.Failure? { return Failure(head.error); }
      if head.value.Known? { return Success(head.value.ty); }
      var item := head.value.item;
      var repr := Repr(e.id, args);
      if repr in resolved { return Success(Table(repr)); }
      if fuel == 0 { return Failure(OutOfFuel); }
      resolved := resolved[repr := map[]];
      var fields := ResolveDeclared(fuel - 1, Bind(item.generics, args), item.fields);
      if fields.Failure? { return Failure(fields.error); }
      if |Primaries(fields.value)| > 1 { return Failure(MultiplePrimaryKeys(e.id)); }
      resolved := resolved[repr := fields.value];
      r := Success(Table(repr));
    }

    /** The loop over the declared fields. */
    method ResolveDeclared(fuel: nat, env: map<string, FieldType>, decls: seq<FieldDecl>)
      returns (r: Result<Fields, CompileError>)
      modifies this
      ensures match ResolveFields(unresolved, fuel, old(resolved), env, decls, map[])
        case Failure(err) => r == Failure(err)
        case Success((fields, res)) => r == Success(fields) && resolved == res
      decreases fuel, decls, 2
    {
      var fields: Fields := map[];
      for i := 0 to |decls|
        invariant ResolveFields(unresolved, fuel, old(resolved), env, decls, map[]) ==
                  ResolveFields(unresolved, fuel, resolved, env, decls[i..], fields)
      {
        assert decls[i..][0] == decls[i] && decls[i..][1..] == decls[i + 1..];
        if decls[i].name in fields { return Failure(DuplicateField(decls[i].name)); }
        var ty := ResolveTypeExpr(fuel, env, decls[i].value);
        if ty.Failure? { return Failure(ty.error); }
        var info := FieldOf(decls[i], ty.value);
        if info.Failure? { return Failure(info.error); }
        fields := fields[decls[i].name := info.value];
      }
      assert decls[|decls|..] == [];
      r := Success(fields);
    }
  }
}
