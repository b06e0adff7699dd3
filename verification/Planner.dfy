/**
 The storage planner: it lays a schema out on storage keys, inheriting the keys of an
 old plan where the old schema has the same field at the same place.
 */
module Planner {
  import opened Wrappers
  import opened Schemas
  import opened StoragePlans

  datatype PlanError = MissingType(name: string) | NoPrimaryKey(name: string) | OutOfKeys

  // ---------------------------------------------------------------------------
  // Recursive types and set member types

  datatype Special = Special(recursive: set<string>, members: set<string>)

  /** `collect_special_types`: walk every branch until a type repeats on it; `path` holds the types on the branch. */
  function Collect(s: Schema, path: set<string>, ty: FieldType): Result<Special, PlanError>
    decreases s.types.Keys - path, 0, ty
  {
    match ty
    case Primitive(_) => Success(Special({}, {}))
    case SetOf(member) =>
      (match Collect(s, path, member)
       case Failure(e) => Failure(e)
       case Success(sp) => Success(if member.Table? then sp.(members := sp.members + {member.name}) else sp))
    case Table(t) =>
      if t in path then Success(Special({t}, {}))
      else if t !in s.types then Failure(MissingType(t))
      else CollectFields(s, path + {t}, s.types[t])
  }

  function CollectFields(s: Schema, path: set<string>, fields: seq<Field>): Result<Special, PlanError>
    decreases s.types.Keys - path, 1, |fields|
  {
    if fields == [] then Success(Special({}, {})) else
    match Collect(s, path, fields[0].ty)
    case Failure(e) => Failure(e)
    case Success(a) =>
      match CollectFields(s, path, fields[1..])
      case Failure(e) => Failure(e)
      case Success(b) => Success(Special(a.recursive + b.recursive, a.members + b.members))
  }

  function CollectExports(s: Schema, exports: seq<Export>): Result<Special, PlanError> {
    if exports == [] then Success(Special({}, {})) else
    match Collect(s, {}, exports[0].ty)
    case Failure(e) => Failure(e)
    case Success(a) =>
      match CollectExports(s, exports[1..])
      case Failure(e) => Failure(e)
      case Success(b) => Success(Special(a.recursive + b.recursive, a.members + b.members))
  }

  // ---------------------------------------------------------------------------
  // The old tree

  /** Where the walk of the new schema stands in the old plan: the old node and the type it was laid out for. */
  datatype OldPoint = OldPoint(ty: FieldType, node: StorageNode)

  function ReduceSet(p: OldPoint): Option<OldPoint> {
    if p.ty.SetOf? && p.node.set_.Some? then Some(OldPoint(p.ty.member, p.node.set_.value)) else None
  }

  function ValidateType(p: Option<OldPoint>, expected: FieldType): Option<OldPoint> {
    if p.Some? && p.value.ty == expected then p else None
  }

  /** The first of the alternative names that the old node has a child for. */
  function FirstPresent(children: seq<Child>, names: seq<string>): Option<string> {
    if names == [] then None
    else if FindChild(children, names[0]).Some? then Some(names[0])
    else FirstPresent(children, names[1..])
  }

  function ResolveSubfield(prior: Schema, p: OldPoint, names: seq<string>): Option<OldPoint> {
    var name := FirstPresent(p.node.children, names);
    if name.None? || !p.ty.Table? || p.ty.name !in prior.types then None else
    var field := FindField(prior.types[p.ty.name], name.value);
    var child := FindChild(p.node.children, name.value);
    if field.None? || child.None? then None else Some(OldPoint(field.value.ty, child.value))
  }

  function Renames(annotations: seq<Annotation>): seq<string> {
    if annotations == [] then []
    else (if annotations[0].RenameFrom? then [annotations[0].from] else []) + Renames(annotations[1..])
  }

  /** The field's own name first, then its `@rename_from` names. */
  function AltNames(f: Field): seq<string> {
    [f.name] + Renames(f.annotations)
  }

  /** The old point that a field of a table inherits from. */
  function SubPoint(prior: Schema, p: Option<OldPoint>, f: Field): Option<OldPoint> {
    if p.None? then None else ValidateType(ResolveSubfield(prior, p.value, AltNames(f)), f.ty)
  }

  /** The old point that the member of a set inherits from. */
  function MemberPoint(p: Option<OldPoint>, member: FieldType): Option<OldPoint> {
    if p.None? then None else ValidateType(ReduceSet(p.value), member)
  }

  // ---------------------------------------------------------------------------
  // Generation

  /** Fixed inputs of one planning run. */
  datatype Inputs = Inputs(schema: Schema, prior: Schema, recursive: set<string>, members: set<string>)

  /** Used keys and the stream of candidates that clock and random generator deliver. */
  datatype State = State(used: set<Key>, candidates: seq<Key>)

  /** `rand_storage_key`: the first candidate not used before; the stream running dry is the loop not ending. */
  function FreshKey(st: State): Result<(Key, State), PlanError>
    decreases |st.candidates|
  {
    if st.candidates == [] then Failure(OutOfKeys)
    else if st.candidates[0] in st.used then FreshKey(st.(candidates := st.candidates[1..]))
    else Success((st.candidates[0], State(st.used + {st.candidates[0]}, st.candidates[1..])))
  }

  function KeyFor(st: State, p: Option<OldPoint>): Result<(Key, State), PlanError> {
    if p.Some? then Success((p.value.node.key, st)) else FreshKey(st)
  }

  predicate HasPrimary(fields: seq<Field>) {
    exists f <- fields :: IsPrimary(f.annotations)
  }

  /** Below `path`, every type that repeats on a branch is known to be recursive. */
  ghost predicate Covered(cx: Inputs, path: set<string>, ty: FieldType) {
    var r := Collect(cx.schema, path, ty);
    r.Success? && r.value.recursive <= cx.recursive && r.value.members <= cx.members
  }

  ghost predicate CoveredFields(cx: Inputs, path: set<string>, fields: seq<Field>) {
    var r := CollectFields(cx.schema, path, fields);
    r.Success? && r.value.recursive <= cx.recursive && r.value.members <= cx.members
  }

  /**
   `generate_field`. `stack` is `fields_in_stack`; `path` holds all types being expanded, which bounds the recursion:
   no type is expanded twice on one branch.
   */
  function GenField(cx: Inputs, st: State, stack: map<string, Key>, ghost path: set<string>, ty: FieldType,
                    prior: Option<OldPoint>): Result<(StorageNode, State), PlanError>
    requires Covered(cx, path, ty) && stack.Keys == path * cx.recursive
    decreases cx.schema.types.Keys - path, 0, ty
  {
    match ty
    case Primitive(_) =>
      (match KeyFor(st, prior)
       case Failure(e) => Failure(e)
       case Success((key, st')) => Success((StorageNode(key, false, None, None, []), st')))
    case SetOf(member) =>
      (match GenField(cx, st, stack, path, member, MemberPoint(prior, member))
       case Failure(e) => Failure(e)
       case Success((inner, st')) =>
         match KeyFor(st', prior)
         case Failure(e) => Failure(e)
         case Success((key, st'')) => Success((StorageNode(key, false, None, Some(inner), []), st'')))
    case Table(t) =>
      if t in stack then
        match KeyFor(st, prior)
        case Failure(e) => Failure(e)
        case Success((key, st')) => Success((StorageNode(key, false, Some(stack[t]), None, []), st'))
      else if t !in cx.schema.types then Failure(MissingType(t))
      else
        match KeyFor(st, prior)
        case Failure(e) => Failure(e)
        case Success((key, st')) =>
          match GenFields(cx, st', PushType(cx, stack, t, key), path + {t}, cx.schema.types[t], prior)
          case Failure(e) => Failure(e)
          case Success((children, st'')) =>
            if t in cx.members && !HasPrimary(cx.schema.types[t]) then Failure(NoPrimaryKey(t))
            else Success((StorageNode(key, true, None, None, children), st''))
  }

  function PushType(cx: Inputs, stack: map<string, Key>, t: string, key: Key): map<string, Key> {
    if t in cx.recursive then stack[t := key] else stack
  }

  function GenFields(cx: Inputs, st: State, stack: map<string, Key>, ghost path: set<string>, fields: seq<Field>,
                     prior: Option<OldPoint>): Result<(seq<Child>, State), PlanError>
    requires CoveredFields(cx, path, fields) && stack.Keys == path * cx.recursive
    decreases cx.schema.types.Keys - path, 1, |fields|
  {
    if fields == [] then Success(([], st)) else
    match GenField(cx, st, stack, path, fields[0].ty, SubPoint(cx.prior, prior, fields[0]))
    case Failure(e) => Failure(e)
    case Success((node, st')) =>
      match GenFields(cx, st', stack, path, fields[1..], prior)
      case Failure(e) => Failure(e)
      case Success((rest, st'')) => Success(([Child(fields[0].name, node)] + rest, st''))
  }

  function FindExport(exports: seq<Export>, name: string): Option<Export> {
    if exports == [] then None
    else if exports[0].name == name then Some(exports[0])
    else FindExport(exports[1..], name)
  }

  /** The old point of an export: same name in old schema and old plan, same type. */
  function ExportPoint(oldPlan: Plan, prior: Schema, e: Export): Option<OldPoint> {
    var oldExport := FindExport(prior.exports, e.name);
    var node := FindChild(oldPlan, e.name);
    if oldExport.None? || node.None? then None
    else ValidateType(Some(OldPoint(oldExport.value.ty, node.value)), e.ty)
  }

  ghost predicate CoveredExports(cx: Inputs, exports: seq<Export>) {
    forall e <- exports :: Covered(cx, {}, e.ty)
  }

  function GenExports(cx: Inputs, st: State, oldPlan: Plan, exports: seq<Export>): Result<(Plan, State), PlanError>
    requires CoveredExports(cx, exports)
    decreases exports
  {
    if exports == [] then Success(([], st)) else
    match GenField(cx, st, map[], {}, exports[0].ty, ExportPoint(oldPlan, cx.prior, exports[0]))
    case Failure(e) => Failure(e)
    case Success((node, st')) =>
      match GenExports(cx, st', oldPlan, exports[1..])
      case Failure(e) => Failure(e)
      case Success((rest, st'')) => Success(([Child(exports[0].name, node)] + rest, st''))
  }

  lemma {:induction false} CollectedExports(cx: Inputs, exports: seq<Export>)
    requires var r := CollectExports(cx.schema, exports);
      r.Success? && r.value.recursive <= cx.recursive && r.value.members <= cx.members
    ensures CoveredExports(cx, exports)
  {
    if exports != [] {
      CollectedExports(cx, exports[1..]);
      forall e <- exports ensures Covered(cx, {}, e.ty) {
        if e != exports[0] { assert e in exports[1..]; }
      }
    }
  }

  function InputsFor(prior: Schema, s: Schema, sp: Special): Inputs {
    Inputs(s, prior, sp.recursive, sp.members)
  }

  /** `generate_plan_for_schema`. */
  function GeneratePlan(oldPlan: Plan, prior: Schema, s: Schema, candidates: seq<Key>): Result<Plan, PlanError> {
    match CollectExports(s, s.exports)
    case Failure(e) => Failure(e)
    case Success(sp) =>
      var cx := InputsFor(prior, s, sp);
      CollectedExports(cx, s.exports);
      match GenExports(cx, State(KeysOf(oldPlan), candidates), oldPlan, s.exports)
      case Failure(e) => Failure(e)
      case Success((plan, _)) => Success(plan)
  }

  // ---------------------------------------------------------------------------
  // The planner objects

  /** `collect_special_types` with its branch set and its two sinks. */
  class TypeCollector {
    const schema: Schema
    var state: set<string>
    var recursive: set<string>
    var members: set<string>

    constructor (schema: Schema)
      ensures this.schema == schema && state == {} && recursive == {} && members == {}
    {
      this.schema, state, recursive, members := schema, {}, {}, {};
    }

    ghost predicate Added(sp: Special, recursiveBefore: set<string>, membersBefore: set<string>)
      reads this
    {
      recursive == recursiveBefore + sp.recursive && members == membersBefore + sp.members
    }

    /** The branch set is restored whenever the walk succeeds. */
    method Visit(ty: FieldType) returns (err: Option<PlanError>)
      modifies this
      ensures match Collect(schema, old(state), ty)
        case Failure(e) => err == Some(e)
        case Success(sp) => err.None? && state == old(state) && Added(sp, old(recursive), old(members))
      decreases schema.types.Keys - state, 0, ty
    {
      err := None;
      match ty {
        case Primitive(_) =>
        case SetOf(member) =>
          if member.Table? { members := members + {member.name}; }
          err := Visit(member);
        case Table(t) =>
          if t in state {
            recursive := recursive + {t};
          } else if t !in schema.types {
            err := Some(MissingType(t));
          } else {
            ghost var before := state;
            state := state + {t};
            err := VisitFields(schema.types[t]);
            if err.None? {
              state := state - {t};
              assert state == before;
            }
          }
      }
    }

    method VisitFields(fields: seq<Field>) returns (err: Option<PlanError>)
      modifies this
      ensures match CollectFields(schema, old(state), fields)
        case Failure(e) => err == Some(e)
        case Success(sp) => err.None? && state == old(state) && Added(sp, old(recursive), old(members))
      decreases schema.types.Keys - state, 1, |fields|
    {
      if fields == [] { return None; }
      err := Visit(fields[0].ty);
      if err.None? { err := VisitFields(fields[1..]); }
    }
  }

  /** `PlanState`: the used keys and the stack of recursive types change while the tree is generated. */
  class PlanState {
    const cx: Inputs
    var usedStorageKeys: set<Key>
    var candidates: seq<Key>
    var fieldsInStack: map<string, Key>

    constructor (cx: Inputs, used: set<Key>, candidates: seq<Key>)
      ensures this.cx == cx && View() == State(used, candidates) && fieldsInStack == map[]
    {
      this.cx, usedStorageKeys, this.candidates, fieldsInStack := cx, used, candidates, map[];
    }

    ghost function View(): State
      reads this
    {
      State(usedStorageKeys, candidates)
    }

    method RandStorageKey() returns (r: Option<Key>)
      modifies this`usedStorageKeys, this`candidates
      ensures match FreshKey(old(View()))
        case Failure(_) => r.None?
        case Success((key, st)) => r == Some(key) && View() == st
    {
      while candidates != []
        invariant usedStorageKeys == old(usedStorageKeys)
        invariant FreshKey(View()) == FreshKey(old(View()))
        decreases |candidates|
      {
        var ret := candidates[0];
        candidates := candidates[1..];
        if ret !in usedStorageKeys {
          usedStorageKeys := usedStorageKeys + {ret};
          return Some(ret);
        }
      }
      r := None;
    }

    method KeyOrFresh(prior: Option<OldPoint>) returns (r: Option<Key>)
      modifies this`usedStorageKeys, this`candidates
      ensures match KeyFor(old(View()), prior)
        case Failure(_) => r.None?
        case Success((key, st)) => r == Some(key) && View() == st
    {
      if prior.Some? { return Some(prior.value.node.key); }
      r := RandStorageKey();
    }

    /** The stack of recursive types is restored on every successful return. */
    method GenerateField(ty: FieldType, prior: Option<OldPoint>, ghost path: set<string>)
      returns (r: Option<StorageNode>)
      requires Covered(cx, path, ty) && fieldsInStack.Keys == path * cx.recursive
      modifies this
      ensures match GenField(cx, old(View()), old(fieldsInStack), path, ty, prior)
        case Failure(_) => r.None?
        case Success((node, st)) => r == Some(node) && View() == st && fieldsInStack == old(fieldsInStack)
      decreases cx.schema.types.Keys - path, 1, ty
    {
      match ty {
        case Primitive(_) =>
          var key := KeyOrFresh(prior);
          if key.None? { return None; }
          r := Some(StorageNode(key.value, false, None, None, []));
        case SetOf(member) =>
          var inner := GenerateField(member, MemberPoint(prior, member), path);
          if inner.None? { return None; }
          var key := KeyOrFresh(prior);
          if key.None? { return None; }
          r := Some(StorageNode(key.value, false, None, Some(inner.value), []));
        case Table(t) =>
          if t in fieldsInStack {
            var reference := fieldsInStack[t];
            var key := KeyOrFresh(prior);
            if key.None? { return None; }
            return Some(StorageNode(key.value, false, Some(reference), None, []));
          }
          r := ExpandTable(t, prior, path);
      }
    }

    method ExpandTable(t: string, prior: Option<OldPoint>, ghost path: set<string>) returns (r: Option<StorageNode>)
      requires Covered(cx, path, Table(t)) && fieldsInStack.Keys == path * cx.recursive && t !in fieldsInStack
      modifies this
      ensures match GenField(cx, old(View()), old(fieldsInStack), path, Table(t), prior)
        case Failure(_) => r.None?
        case Success((node, st)) => r == Some(node) && View() == st && fieldsInStack == old(fieldsInStack)
      decreases cx.schema.types.Keys - path, 0
    {
      if t !in cx.schema.types { return None; }
      var storageKey := KeyOrFresh(prior);
      if storageKey.None? { return None; }
      ghost var stack := fieldsInStack;
      var isRecursive := t in cx.recursive;
      if isRecursive { fieldsInStack := fieldsInStack[t := storageKey.value]; }
      assert fieldsInStack == PushType(cx, stack, t, storageKey.value);
      var children := GenerateFields(cx.schema.types[t], prior, path + {t});
      if children.None? { return None; }
      if isRecursive { fieldsInStack := fieldsInStack - {t}; }
      assert fieldsInStack == stack;
      if t in cx.members && !HasPrimary(cx.schema.types[t]) { return None; }
      r := Some(StorageNode(storageKey.value, true, None, None, children.value));
    }

    method GenerateFields(fields: seq<Field>, prior: Option<OldPoint>, ghost path: set<string>)
      returns (r: Option<seq<Child>>)
      requires CoveredFields(cx, path, fields) && fieldsInStack.Keys == path * cx.recursive
      modifies this
      ensures match GenFields(cx, old(View()), old(fieldsInStack), path, fields, prior)
        case Failure(_) => r.None?
        case Success((children, st)) => r == Some(children) && View() == st && fieldsInStack == old(fieldsInStack)
      decreases cx.schema.types.Keys - path, 2, |fields|
    {
      if fields == [] { return Some([]); }
      var node := GenerateField(fields[0].ty, SubPoint(cx.prior, prior, fields[0]), path);
      if node.None? { return None; }
      var rest := GenerateFields(fields[1..], prior, path);
      if rest.None? { return None; }
      r := Some([Child(fields[0].name, node.value)] + rest.value);
    }
  }
}
