/**
 Which data paths walk: over a generated plan, the outcome of walking a well-typed path
 is decided by the schema alone. The one gap is a set element whose table type already
 occurs above it: the walker does not resolve the reference there, so no field of such
 an element can be entered.
 */
module WalkTyping {
  import opened Wrappers
  import opened ByteStrings
  import opened Schemas
  import opened StoragePlans
  import opened Planner
  import opened PlannerProperties
  import opened KeyDistinctness
  import opened PathWalker
  import opened KeySpace

  // ---------------------------------------------------------------------------
  // Paths through the schema

  /** A type, and the tables expanded above it; entering a repeated table goes back to its first occurrence. */
  datatype Spot = Spot(ty: FieldType, branch: seq<string>)

  function IndexOf(branch: seq<string>, t: string): (i: nat)
    requires t in branch
    ensures i < |branch| && branch[i] == t
  {
    if branch[0] == t then 0 else 1 + IndexOf(branch[1..], t)
  }

  function FieldSpot(branch: seq<string>, ty: FieldType): Spot {
    if ty.Table? && ty.name in branch then Spot(ty, branch[..IndexOf(branch, ty.name)]) else Spot(ty, branch)
  }

  /** The typing of one step. */
  function SpotAfter(s: Schema, spot: Spot, step: Step): Option<Spot> {
    match step
    case Into(name) =>
      if !spot.ty.Table? || spot.ty.name !in s.types then None else
      var f := FindField(s.types[spot.ty.name], name);
      if f.None? then None else Some(FieldSpot(spot.branch + [spot.ty.name], f.value.ty))
    case Entry(_) => if spot.ty.SetOf? then Some(Spot(spot.ty.member, spot.branch)) else None
  }

  predicate Typed(s: Schema, spot: Spot, p: seq<Step>)
    decreases |p|
  {
    p == [] || (SpotAfter(s, spot, p[0]).Some? && Typed(s, SpotAfter(s, spot, p[0]).value, p[1..]))
  }

  function SpotAt(s: Schema, spot: Spot, p: seq<Step>): Spot
    requires Typed(s, spot, p)
    decreases |p|
  {
    if p == [] then spot else SpotAt(s, SpotAfter(s, spot, p[0]).value, p[1..])
  }

  /** A table that occurs above itself without having been entered as a field: a recursive set element. */
  predicate Dead(spot: Spot) {
    spot.ty.Table? && spot.ty.name in spot.branch
  }

  /** How much deeper a step goes; a set entry counts twice. */
  function Cost(step: Step): nat {
    if step.Into? then 1 else 2
  }

  function StepError(spot: Spot, depth: nat, step: Step): Option<WalkError> {
    if step.Into? && Dead(spot) then Some(FieldNotFound(step.name))
    else if depth + Cost(step) > MAX_DEPTH then Some(PathTooDeep)
    else None
  }

  /** The error that walking a typed path must give, or none. */
  function Predict(s: Schema, spot: Spot, depth: nat, p: seq<Step>): Option<WalkError>
    requires Typed(s, spot, p)
    decreases |p|
  {
    if p == [] then None
    else if StepError(spot, depth, p[0]).Some? then StepError(spot, depth, p[0])
    else Predict(s, SpotAfter(s, spot, p[0]).value, depth + Cost(p[0]), p[1..])
  }

  /** The layout a walk must end on. */
  predicate LandsOn(s: Schema, spot: Spot, n: StorageNode) {
    match spot.ty
    case Primitive(_) => n.set_.None? && n.children == []
    case SetOf(_) => n.set_.Some? && n.children == []
    case Table(t) =>
      n.set_.None? &&
      if Dead(spot) then n.children == []
      else
        t in s.types && |n.children| == |s.types[t]| &&
        forall i :: 0 <= i < |n.children| ==> n.children[i].name == s.types[t][i].name
  }

  // ---------------------------------------------------------------------------
  // The trail of a walk

  /** A table expanded above the walker, with its layout. */
  datatype Level = Level(name: string, node: StorageNode)

  function Names(trail: seq<Level>): (r: seq<string>)
    ensures |r| == |trail| && forall i :: 0 <= i < |r| ==> r[i] == trail[i].name
  {
    seq(|trail|, i requires 0 <= i < |trail| => trail[i].name)
  }

  function NameSet(trail: seq<Level>): set<string> {
    set i | 0 <= i < |trail| :: trail[i].name
  }

  /** The planner's stack of recursive types at the end of the trail. */
  function StackOf(cx: Inputs, trail: seq<Level>): map<string, Key> {
    if trail == [] then map[] else
    var last := trail[|trail| - 1];
    PushType(cx, StackOf(cx, trail[..|trail| - 1]), last.name, last.node.key)
  }

  predicate OnChain(w: Walker, n: StorageNode)
    decreases w
  {
    w.node == n || (w.link.Some? && OnChain(w.link.value, n))
  }

  predicate ChainWithin(root: StorageNode, w: Walker)
    decreases w
  {
    Within(root, w.node) && (w.link.Some? ==> ChainWithin(root, w.link.value))
  }

  ghost predicate LevelOk(cx: Inputs, above: seq<Level>, l: Level) {
    l.name !in NameSet(above) && Covered(cx, NameSet(above), Table(l.name)) &&
    Fits(cx.schema, cx.recursive, StackOf(cx, above), Table(l.name), l.node)
  }

  ghost predicate OnBranch(cx: Inputs, w: Walker, trail: seq<Level>) {
    forall i :: 0 <= i < |trail| ==> OnChain(w, trail[i].node) && LevelOk(cx, trail[..i], trail[i])
  }

  /** The walker stands on the layout of `ty`, below the tables of the trail. */
  ghost predicate Standing(cx: Inputs, root: StorageNode, w: Walker, ty: FieldType, trail: seq<Level>) {
    Covered(cx, NameSet(trail), ty) && Fits(cx.schema, cx.recursive, StackOf(cx, trail), ty, w.node) &&
    OnBranch(cx, w, trail) && ChainWithin(root, w)
  }

  // ---------------------------------------------------------------------------
  // Facts about trails

  lemma {:induction false} NameSetSnoc(trail: seq<Level>, l: Level)
    ensures NameSet(trail + [l]) == NameSet(trail) + {l.name}
  {
    var all := trail + [l];
    assert all[|trail|] == l;
    forall x <- NameSet(trail) ensures x in NameSet(all) {
      var i :| 0 <= i < |trail| && trail[i].name == x;
      assert all[i].name == x;
    }
  }

  lemma {:induction false} StackKeys(cx: Inputs, trail: seq<Level>)
    ensures StackOf(cx, trail).Keys == NameSet(trail) * cx.recursive
  {
    if trail != [] {
      var (init, last) := (trail[..|trail| - 1], trail[|trail| - 1]);
      StackKeys(cx, init);
      NameSetSnoc(init, last);
      assert trail == init + [last];
    }
  }

  /** A recursive table of the trail is on the planner's stack with the key of its layout. */
  lemma {:induction false} StackAt(cx: Inputs, w: Walker, trail: seq<Level>, i: nat)
    requires i < |trail| && OnBranch(cx, w, trail) && trail[i].name in cx.recursive
    ensures trail[i].name in StackOf(cx, trail) && StackOf(cx, trail)[trail[i].name] == trail[i].node.key
  {
    var (init, last) := (trail[..|trail| - 1], trail[|trail| - 1]);
    if i < |init| {
      BranchPrefix(cx, w, trail, |init|);
      StackAt(cx, w, init, i);
      assert LevelOk(cx, trail[..|init|], trail[|init|]);
      assert init[i].name in NameSet(init);
    }
  }

  lemma {:induction false} BranchPrefix(cx: Inputs, w: Walker, trail: seq<Level>, k: nat)
    requires k <= |trail| && OnBranch(cx, w, trail)
    ensures OnBranch(cx, w, trail[..k])
  {
    forall i | 0 <= i < k ensures OnChain(w, trail[..k][i].node) && LevelOk(cx, trail[..k][..i], trail[..k][i]) {
      assert trail[..k][..i] == trail[..i];
    }
  }

  lemma {:induction false} BranchGrows(cx: Inputs, w: Walker, w': Walker, trail: seq<Level>)
    requires OnBranch(cx, w, trail) && w'.link.Some? && (w'.link.value == w || w'.link.value.link == Some(w))
    ensures OnBranch(cx, w', trail)
  {
    forall i | 0 <= i < |trail| ensures OnChain(w', trail[i].node) && LevelOk(cx, trail[..i], trail[i]) {
      assert OnChain(w, trail[i].node);
    }
  }

  /** In a plan with distinct keys the upward search finds the node that was meant. */
  lemma {:induction false} SearchFinds(root: StorageNode, w: Walker, n: StorageNode)
    requires Distinct(root) && ChainWithin(root, w) && OnChain(w, n)
    ensures FindReference(Some(w), n.key) == Some(n)
    decreases w
  {
    ChainNodeWithin(root, w, n);
    if w.node.key == n.key {
      KeyIdentifiesNode(root, w.node, n);
    } else {
      SearchFinds(root, w.link.value, n);
    }
  }

  lemma {:induction false} ChainNodeWithin(root: StorageNode, w: Walker, n: StorageNode)
    requires ChainWithin(root, w) && OnChain(w, n)
    ensures Within(root, n)
    decreases w
  {
    if w.node != n { ChainNodeWithin(root, w.link.value, n); }
  }

  lemma {:induction false} CoveredAt(cx: Inputs, path: set<string>, fields: seq<Field>, i: nat)
    requires i < |fields| && CoveredFields(cx, path, fields)
    ensures Covered(cx, path, fields[i].ty)
  {
    if i > 0 { CoveredAt(cx, path, fields[1..], i - 1); }
  }

  // ---------------------------------------------------------------------------
  // One step

  /** A live table spot is expanded: its children are its fields, below one more level. */
  lemma {:induction false} ExpandedTable(cx: Inputs, root: StorageNode, w: Walker, t: string, trail: seq<Level>)
    requires Standing(cx, root, w, Table(t), trail) && t !in NameSet(trail)
    ensures t in cx.schema.types && w.node.set_.None?
    ensures var trail' := trail + [Level(t, w.node)];
      OnBranch(cx, w, trail') && CoveredFields(cx, NameSet(trail'), cx.schema.types[t]) &&
      FitsAll(cx.schema, cx.recursive, StackOf(cx, trail'), cx.schema.types[t], w.node.children)
  {
    var trail' := trail + [Level(t, w.node)];
    StackKeys(cx, trail);
    NameSetSnoc(trail, Level(t, w.node));
    assert trail'[..|trail|] == trail;
    forall i | 0 <= i < |trail'| ensures OnChain(w, trail'[i].node) && LevelOk(cx, trail'[..i], trail'[i]) {
      if i < |trail| { assert trail'[..i] == trail[..i]; }
    }
  }

  lemma {:induction false} FieldChild(s: Schema, t: string, n: StorageNode, name: string) returns (i: nat)
    requires WellFormed(s) && t in s.types && |n.children| == |s.types[t]| && FindField(s.types[t], name).Some?
    requires forall i :: 0 <= i < |n.children| ==> n.children[i].name == s.types[t][i].name
    ensures i < |s.types[t]| && FindField(s.types[t], name) == Some(s.types[t][i])
    ensures FindChild(n.children, name) == Some(n.children[i].node)
  {
    i := FindFieldIndex(s.types[t], name);
    FindChildAt(n.children, i);
  }

  lemma {:induction false} NamesSnoc(trail: seq<Level>, l: Level)
    ensures Names(trail + [l]) == Names(trail) + [l.name]
  {
  }

  lemma {:induction false} NameSetNames(trail: seq<Level>, t: string)
    ensures t in NameSet(trail) <==> t in Names(trail)
  {
    if t in NameSet(trail) {
      var i :| 0 <= i < |trail| && trail[i].name == t;
      assert Names(trail)[i] == t;
    }
  }

  /** The trail after entering a field of type `ty`. */
  function FieldTrail(full: seq<Level>, ty: FieldType): seq<Level> {
    if ty.Table? && ty.name in Names(full) then full[..IndexOf(Names(full), ty.name)] else full
  }

  /** The walker after entering a field with layout `child`: on the layout itself, or on the one it repeats. */
  function FieldWalker(w: Walker, full: seq<Level>, ty: FieldType, child: StorageNode): Walker {
    if ty.Table? && ty.name in Names(full)
    then Walker(full[IndexOf(Names(full), ty.name)].node, child.key, Some(w), w.depth + 1, false)
    else Walker(child, child.key, Some(w), w.depth + 1, child.flattened)
  }

  /** Entering a field of a live table spot. */
  lemma {:induction false} FieldStep(cx: Inputs, root: StorageNode, w: Walker, t: string, trail: seq<Level>,
                                     name: string)
    returns (trail': seq<Level>)
    requires WellFormed(cx.schema) && Distinct(root) && Standing(cx, root, w, Table(t), trail) && t !in NameSet(trail)
    requires SpotAfter(cx.schema, Spot(Table(t), Names(trail)), Into(name)).Some?
    ensures w.depth >= MAX_DEPTH ==> EnterField(w, name) == Failure(PathTooDeep)
    ensures var (spot', full) :=
        (SpotAfter(cx.schema, Spot(Table(t), Names(trail)), Into(name)).value, trail + [Level(t, w.node)]);
      trail' == FieldTrail(full, spot'.ty) && FindChild(w.node.children, name).Some? &&
      (w.depth < MAX_DEPTH ==>
        spot'.branch == Names(trail') &&
        EnterField(w, name) == Success(FieldWalker(w, full, spot'.ty, FindChild(w.node.children, name).value)) &&
        Standing(cx, root, EnterField(w, name).value, spot'.ty, trail'))
  {
    ExpandedTable(cx, root, w, t, trail);
    var i := FieldChild(cx.schema, t, w.node, name);
    var full := trail + [Level(t, w.node)];
    NamesSnoc(trail, Level(t, w.node));
    var ty := cx.schema.types[t][i].ty;
    CoveredAt(cx, NameSet(full), cx.schema.types[t], i);
    trail' := FieldTrail(full, ty);
    if ty.Table? { NameSetNames(full, ty.name); }
    if ty.Table? && ty.name in Names(full) {
      RepeatedField(cx, root, w, full, ty.name, w.node.children[i].node, name);
    } else {
      PlainField(cx, root, w, full, ty, i, name);
    }
  }

  /** Any other field has its own layout. */
  lemma {:induction false} PlainField(cx: Inputs, root: StorageNode, w: Walker, full: seq<Level>, ty: FieldType, i: nat,
                                      name: string)
    requires OnBranch(cx, w, full) && ChainWithin(root, w) && (ty.Table? ==> ty.name !in Names(full))
    requires i < |w.node.children| && Covered(cx, NameSet(full), ty)
    requires Fits(cx.schema, cx.recursive, StackOf(cx, full), ty, w.node.children[i].node)
    requires w.node.set_.None? && FindChild(w.node.children, name) == Some(w.node.children[i].node)
    ensures w.depth >= MAX_DEPTH ==> EnterField(w, name) == Failure(PathTooDeep)
    ensures w.depth < MAX_DEPTH ==>
      EnterField(w, name) == Success(FieldWalker(w, full, ty, w.node.children[i].node)) &&
      Standing(cx, root, EnterField(w, name).value, ty, full)
  {
    StackKeys(cx, full);
    if ty.Table? { NameSetNames(full, ty.name); }
    if w.depth < MAX_DEPTH {
      BranchGrows(cx, w, FieldWalker(w, full, ty, w.node.children[i].node), full);
      assert Within(w.node, w.node.children[i].node);
      WithinTransitive(root, w.node, w.node.children[i].node);
    }
  }

  /** A field whose table is on the trail refers to that table's layout, and the search finds it. */
  lemma {:induction false} RepeatedTarget(cx: Inputs, root: StorageNode, w: Walker, full: seq<Level>, j: nat,
                                          child: StorageNode)
    requires Distinct(root) && OnBranch(cx, w, full) && ChainWithin(root, w) && j < |full|
    requires Covered(cx, NameSet(full), Table(full[j].name))
    requires Fits(cx.schema, cx.recursive, StackOf(cx, full), Table(full[j].name), child)
    ensures child.reference.Some? && FindReference(Some(w), child.reference.value) == Some(full[j].node)
  {
    assert full[j].name in NameSet(full);
    StackAt(cx, w, full, j);
    SearchFinds(root, w, full[j].node);
  }

  lemma {:induction false} RepeatedStanding(cx: Inputs, root: StorageNode, w: Walker, full: seq<Level>, j: nat,
                                            w': Walker)
    requires OnBranch(cx, w, full) && ChainWithin(root, w) && j < |full|
    requires w'.node == full[j].node && w'.link == Some(w)
    ensures Standing(cx, root, w', Table(full[j].name), full[..j])
  {
    BranchGrows(cx, w, w', full);
    BranchPrefix(cx, w', full, j);
    ChainNodeWithin(root, w, full[j].node);
    assert LevelOk(cx, full[..j], full[j]);
  }

  lemma {:induction false} RepeatedSpot(full: seq<Level>, u: string)
    requires u in Names(full)
    ensures FieldSpot(Names(full), Table(u)) == Spot(Table(u), Names(FieldTrail(full, Table(u))))
  {
    var j := IndexOf(Names(full), u);
    assert Names(full)[..j] == Names(full[..j]);
  }

  lemma {:induction false} RepeatedField(cx: Inputs, root: StorageNode, w: Walker, full: seq<Level>, u: string,
                                         child: StorageNode, name: string)
    requires Distinct(root) && OnBranch(cx, w, full) && ChainWithin(root, w) && u in Names(full)
    requires Covered(cx, NameSet(full), Table(u)) && Fits(cx.schema, cx.recursive, StackOf(cx, full), Table(u), child)
    requires w.node.set_.None? && FindChild(w.node.children, name) == Some(child)
    ensures FieldSpot(Names(full), Table(u)) == Spot(Table(u), Names(FieldTrail(full, Table(u))))
    ensures w.depth >= MAX_DEPTH ==> EnterField(w, name) == Failure(PathTooDeep)
    ensures w.depth < MAX_DEPTH ==>
      EnterField(w, name) == Success(FieldWalker(w, full, Table(u), child)) &&
      Standing(cx, root, EnterField(w, name).value, Table(u), FieldTrail(full, Table(u)))
  {
    var j := IndexOf(Names(full), u);
    RepeatedSpot(full, u);
    RepeatedTarget(cx, root, w, full, j, child);
    if w.depth < MAX_DEPTH { RepeatedStanding(cx, root, w, full, j, FieldWalker(w, full, Table(u), child)); }
  }

  /** Entering a set entry. */
  lemma {:induction false} EntryStep(cx: Inputs, root: StorageNode, w: Walker, member: FieldType, trail: seq<Level>,
                                     pk: Bytes)
    requires Standing(cx, root, w, SetOf(member), trail)
    ensures w.depth + 2 > MAX_DEPTH ==> EnterSet(w, pk) == Failure(PathTooDeep)
    ensures w.depth + 2 <= MAX_DEPTH ==>
      EnterSet(w, pk).Success? && EnterSet(w, pk).value.depth == w.depth + 2 &&
      Standing(cx, root, EnterSet(w, pk).value, member, trail)
  {
    if w.depth + 2 <= MAX_DEPTH {
      BranchGrows(cx, w, EnterSet(w, pk).value, trail);
      assert Within(w.node, w.node.set_.value);
      WithinTransitive(root, w.node, w.node.set_.value);
    }
  }

  /** A dead spot is an unresolved reference: it has no children. */
  lemma {:induction false} DeadSpot(cx: Inputs, root: StorageNode, w: Walker, t: string, trail: seq<Level>)
    requires Standing(cx, root, w, Table(t), trail) && t in NameSet(trail)
    ensures w.node.set_.None? && w.node.children == []
  {
    StackKeys(cx, trail);
  }

  lemma {:induction false} StandingLands(cx: Inputs, root: StorageNode, w: Walker, ty: FieldType, trail: seq<Level>)
    requires Standing(cx, root, w, ty, trail)
    ensures LandsOn(cx.schema, Spot(ty, Names(trail)), w.node)
  {
    if ty.Table? {
      NameSetNames(trail, ty.name);
      if ty.name in NameSet(trail) {
        DeadSpot(cx, root, w, ty.name, trail);
      } else {
        ExpandedTable(cx, root, w, ty.name, trail);
      }
    }
  }

  // ---------------------------------------------------------------------------
  // Whole walks

  lemma {:induction false} StepMatches(cx: Inputs, root: StorageNode, w: Walker, ty: FieldType, trail: seq<Level>,
                                       step: Step)
    returns (trail': seq<Level>)
    requires WellFormed(cx.schema) && Distinct(root) && Standing(cx, root, w, ty, trail)
    requires SpotAfter(cx.schema, Spot(ty, Names(trail)), step).Some?
    ensures match StepError(Spot(ty, Names(trail)), w.depth, step)
      case Some(e) => Enter(w, step) == Failure(e)
      case None =>
        var spot' := SpotAfter(cx.schema, Spot(ty, Names(trail)), step).value;
        Enter(w, step).Success? && Enter(w, step).value.depth == w.depth + Cost(step) &&
        spot'.branch == Names(trail') && Standing(cx, root, Enter(w, step).value, spot'.ty, trail')
  {
    trail' := trail;
    match step
    case Entry(pk) => EntryStep(cx, root, w, ty.member, trail, pk);
    case Into(name) =>
      NameSetNames(trail, ty.name);
      if ty.name in NameSet(trail) {
        DeadSpot(cx, root, w, ty.name, trail);
      } else {
        trail' := FieldStep(cx, root, w, ty.name, trail, name);
      }
  }

  /** The walk ends as predicted. */
  predicate AsPredicted(s: Schema, spot: Spot, w: Walker, p: seq<Step>)
    requires Typed(s, spot, p)
  {
    match Predict(s, spot, w.depth, p)
    case Some(e) => Walk(w, p) == Failure(e)
    case None => Walk(w, p).Success? && LandsOn(s, SpotAt(s, spot, p), Walk(w, p).value.node)
  }

  lemma {:induction false} WalkFrom(cx: Inputs, root: StorageNode, w: Walker, ty: FieldType, trail: seq<Level>,
                                    p: seq<Step>)
    requires WellFormed(cx.schema) && Distinct(root) && Standing(cx, root, w, ty, trail)
    requires Typed(cx.schema, Spot(ty, Names(trail)), p)
    ensures AsPredicted(cx.schema, Spot(ty, Names(trail)), w, p)
    decreases |p|
  {
    var spot := Spot(ty, Names(trail));
    if p == [] {
      StandingLands(cx, root, w, ty, trail);
    } else {
      var trail' := StepMatches(cx, root, w, ty, trail, p[0]);
      if StepError(spot, w.depth, p[0]).None? {
        WalkFrom(cx, root, Enter(w, p[0]).value, SpotAfter(cx.schema, spot, p[0]).value.ty, trail', p[1..]);
        PredictedStep(cx.schema, spot, w, p);
      } else {
        PredictedError(cx.schema, spot, w, p);
      }
    }
  }

  lemma {:induction false} PredictedStep(s: Schema, spot: Spot, w: Walker, p: seq<Step>)
    requires p != [] && Typed(s, spot, p) && StepError(spot, w.depth, p[0]).None?
    requires Enter(w, p[0]).Success? && Enter(w, p[0]).value.depth == w.depth + Cost(p[0])
    requires AsPredicted(s, SpotAfter(s, spot, p[0]).value, Enter(w, p[0]).value, p[1..])
    ensures AsPredicted(s, spot, w, p)
  {
  }

  lemma {:induction false} PredictedError(s: Schema, spot: Spot, w: Walker, p: seq<Step>)
    requires p != [] && Typed(s, spot, p) && StepError(spot, w.depth, p[0]).Some?
    requires Enter(w, p[0]) == Failure(StepError(spot, w.depth, p[0]).value)
    ensures AsPredicted(s, spot, w, p)
  {
  }

  /** A plan laid out for the schema, with pairwise distinct keys. */
  ghost predicate PlanFor(s: Schema, plan: Plan) {
    WellFormed(s) && CollectExports(s, s.exports).Success? &&
    PlanFits(s, CollectExports(s, s.exports).value.recursive, plan) && DistinctAll(plan)
  }

  ghost function PlanInputs(s: Schema): Inputs
    requires CollectExports(s, s.exports).Success?
  {
    InputsFor(s, s, CollectExports(s, s.exports).value)
  }

  lemma {:induction false} RootStanding(s: Schema, plan: Plan, i: nat)
    requires PlanFor(s, plan) && i < |s.exports|
    ensures FromExport(plan, s.exports[i].name).Success?
    ensures var w := FromExport(plan, s.exports[i].name).value;
      w.depth == 1 && w.node == plan[i].node && Distinct(w.node) && Standing(PlanInputs(s), w.node, w, s.exports[i].ty, [])
  {
    FindChildAt(plan, i);
    DistinctAt(plan, i);
    var cx := PlanInputs(s);
    CollectedExports(cx, s.exports);
    assert s.exports[i] in s.exports;
    assert NameSet([]) == {} && StackOf(cx, []) == map[];
  }

  /**
   Every well-typed path over a plan for the schema ends exactly as the schema predicts: with the predicted error, or on
   the layout of the path's type.
   */
  lemma {:induction false} WalkMatchesSchema(s: Schema, plan: Plan, i: nat, p: seq<Step>)
    requires PlanFor(s, plan) && i < |s.exports| && Typed(s, Spot(s.exports[i].ty, []), p)
    ensures match Predict(s, Spot(s.exports[i].ty, []), 1, p)
      case Some(e) => WalkPlan(plan, s.exports[i].name, p) == Failure(e)
      case None =>
        WalkPlan(plan, s.exports[i].name, p).Success? &&
        LandsOn(s, SpotAt(s, Spot(s.exports[i].ty, []), p), WalkPlan(plan, s.exports[i].name, p).value.node)
  {
    RootStanding(s, plan, i);
    var w := FromExport(plan, s.exports[i].name).value;
    assert Names([]) == [];
    WalkFrom(PlanInputs(s), w.node, w, s.exports[i].ty, [], p);
  }

  // ---------------------------------------------------------------------------
  // When a path walks

  function Depth(p: seq<Step>): nat {
    if p == [] then 0 else Cost(p[0]) + Depth(p[1..])
  }

  /** Some field step leaves a recursive set element. */
  predicate LeavesDeadSpot(s: Schema, spot: Spot, p: seq<Step>)
    requires Typed(s, spot, p)
    decreases |p|
  {
    p != [] && ((p[0].Into? && Dead(spot)) || LeavesDeadSpot(s, SpotAfter(s, spot, p[0]).value, p[1..]))
  }

  lemma {:induction false} NoErrorIff(s: Schema, spot: Spot, depth: nat, p: seq<Step>)
    requires Typed(s, spot, p) && depth <= MAX_DEPTH
    ensures Predict(s, spot, depth, p).None? <==> depth + Depth(p) <= MAX_DEPTH && !LeavesDeadSpot(s, spot, p)
    decreases |p|
  {
    if p != [] {
      if StepError(spot, depth, p[0]).None? { NoErrorIff(s, SpotAfter(s, spot, p[0]).value, depth + Cost(p[0]), p[1..]); }
    }
  }

  /** A well-typed path walks if and only if it is at most 63 levels deep and enters no field of a recursive set element. */
  lemma {:induction false} PathWalksIff(s: Schema, plan: Plan, i: nat, p: seq<Step>)
    requires PlanFor(s, plan) && i < |s.exports| && Typed(s, Spot(s.exports[i].ty, []), p)
    ensures WalkPlan(plan, s.exports[i].name, p).Success? <==>
            Depth(p) <= 63 && !LeavesDeadSpot(s, Spot(s.exports[i].ty, []), p)
  {
    WalkMatchesSchema(s, plan, i, p);
    NoErrorIff(s, Spot(s.exports[i].ty, []), 1, p);
  }

  /** Deeper walks never exceed the limit. */
  lemma {:induction false} DepthBounded(w: Walker, p: seq<Step>)
    requires w.depth <= MAX_DEPTH && Walk(w, p).Success?
    ensures Walk(w, p).value.depth == w.depth + Depth(p) <= 64
    decreases |p|
  {
    if p != [] { DepthBounded(Enter(w, p[0]).value, p[1..]); }
  }

  // ---------------------------------------------------------------------------
  // Schemas without recursive sets

  /** The tables of the branch were met in this order, each covered by the planner's first pass. */
  ghost predicate BranchCovered(cx: Inputs, branch: seq<string>) {
    forall i :: 0 <= i < |branch| ==>
      branch[i] !in branch[..i] && Covered(cx, (set t <- branch[..i]), Table(branch[i]))
  }

  ghost predicate SpotCovered(cx: Inputs, spot: Spot) {
    BranchCovered(cx, spot.branch) && Covered(cx, (set t <- spot.branch), spot.ty)
  }

  lemma {:induction false} SpotStaysCovered(cx: Inputs, spot: Spot, step: Step)
    requires SpotCovered(cx, spot) && !Dead(spot) && SpotAfter(cx.schema, spot, step).Some?
    ensures SpotCovered(cx, SpotAfter(cx.schema, spot, step).value)
  {
    if step.Into? {
      var t := spot.ty.name;
      var full := spot.branch + [t];
      assert (set x <- full) == (set x <- spot.branch) + {t};
      var i := FindFieldIndex(cx.schema.types[t], step.name);
      CoveredAt(cx, (set x <- full), cx.schema.types[t], i);
      forall i | 0 <= i < |full| ensures full[i] !in full[..i] && Covered(cx, (set x <- full[..i]), Table(full[i])) {
        assert full[..i] == spot.branch[..i];
      }
      FieldSpotCovered(cx, full, cx.schema.types[t][i].ty);
    }
  }

  lemma {:induction false} FieldSpotCovered(cx: Inputs, branch: seq<string>, ty: FieldType)
    requires BranchCovered(cx, branch) && Covered(cx, (set t <- branch), ty)
    ensures SpotCovered(cx, FieldSpot(branch, ty))
  {
    if ty.Table? && ty.name in branch {
      var j := IndexOf(branch, ty.name);
      forall i | 0 <= i < j
        ensures branch[..j][i] !in branch[..j][..i] && Covered(cx, (set x <- branch[..j][..i]), Table(branch[..j][i]))
      {
        assert branch[..j][..i] == branch[..i];
      }
    }
  }

  /** A dead spot needs a table type that is both recursive and a set member. */
  lemma {:induction false} NoDeadSpot(cx: Inputs, spot: Spot, p: seq<Step>)
    requires SpotCovered(cx, spot) && !Dead(spot) && Typed(cx.schema, spot, p) && cx.recursive !! cx.members
    ensures !LeavesDeadSpot(cx.schema, spot, p)
    decreases |p|
  {
    if p != [] {
      var spot' := SpotAfter(cx.schema, spot, p[0]).value;
      SpotStaysCovered(cx, spot, p[0]);
      FieldSpotIsLive(cx, spot, p[0]);
      NoDeadSpot(cx, spot', p[1..]);
    }
  }

  lemma {:induction false} FieldSpotIsLive(cx: Inputs, spot: Spot, step: Step)
    requires SpotCovered(cx, spot) && !Dead(spot) && SpotAfter(cx.schema, spot, step).Some? && cx.recursive !! cx.members
    ensures !Dead(SpotAfter(cx.schema, spot, step).value)
  {
    var spot' := SpotAfter(cx.schema, spot, step).value;
    match step
    case Entry(_) =>
      assert Collect(cx.schema, (set t <- spot.branch), spot.ty.member).Success?;
    case Into(name) =>
      var full := spot.branch + [spot.ty.name];
      if spot'.ty.Table? && spot'.ty.name in full { FirstIndex(full, spot'.ty.name); }
  }

  lemma {:induction false} FirstIndex(branch: seq<string>, t: string)
    requires t in branch
    ensures t !in branch[..IndexOf(branch, t)]
  {
    if branch[0] != t {
      FirstIndex(branch[1..], t);
      var i := IndexOf(branch, t);
      assert branch[..i] == [branch[0]] + branch[1..][..i - 1];
    }
  }

  /** If no recursive table type is a set member, every well-typed path of at most 63 levels walks. */
  lemma {:induction false} AllPathsWalk(s: Schema, plan: Plan, i: nat, p: seq<Step>)
    requires PlanFor(s, plan) && i < |s.exports| && Typed(s, Spot(s.exports[i].ty, []), p) && Depth(p) <= 63
    requires CollectExports(s, s.exports).value.recursive !! CollectExports(s, s.exports).value.members
    ensures WalkPlan(plan, s.exports[i].name, p).Success?
  {
    var cx := PlanInputs(s);
    CollectedExports(cx, s.exports);
    assert s.exports[i] in s.exports;
    assert (set t <- Spot(s.exports[i].ty, []).branch) == {};
    NoDeadSpot(cx, Spot(s.exports[i].ty, []), p);
    PathWalksIff(s, plan, i, p);
  }

  /** `type T { @primary id: string, kids: set<T> }  export set<T> e` */
  function RecursiveSet(t: string, e: string, id: string, kids: string): Schema {
    Schema(map[t := [Field(id, Primitive(StringType), [PrimaryKey]), Field(kids, SetOf(Table(t)), [])]],
           [Export(e, SetOf(Table(t)))])
  }

  /** Elements of the outer set can be read. */
  lemma {:induction false} OuterElementsAreOpen(t: string, e: string, id: string, kids: string, plan: Plan, a: Bytes)
    requires id != kids && PlanFor(RecursiveSet(t, e, id, kids), plan)
    ensures WalkPlan(plan, e, [Entry(a), Into(id)]).Success?
  {
    var s := RecursiveSet(t, e, id, kids);
    var (p, p1) := ([Entry(a), Into(id)], [Into(id)]);
    assert p[1..] == p1 && p1[1..] == [];
    var (outer, element) := (Spot(SetOf(Table(t)), []), Spot(Table(t), []));
    assert SpotAfter(s, outer, p[0]) == Some(element);
    assert SpotAfter(s, element, p1[0]).Some?;
    assert Typed(s, element, p1);
    assert !LeavesDeadSpot(s, element, p1);
    assert Depth([]) == 0;
    assert Depth(p1) == 1;
    PathWalksIff(s, plan, 0, p);
  }

  lemma {:induction false} DeadPrediction(s: Schema, spot: Spot, depth: nat, p: seq<Step>)
    requires Typed(s, spot, p) && p != [] && p[0].Into? && Dead(spot)
    ensures Predict(s, spot, depth, p) == Some(FieldNotFound(p[0].name))
  {
  }

  /** Elements of the inner set cannot, whatever the plan. */
  lemma {:induction false} RecursiveSetElementsAreClosed(t: string, e: string, id: string, kids: string, plan: Plan,
                                                         a: Bytes, b: Bytes)
    requires id != kids && PlanFor(RecursiveSet(t, e, id, kids), plan)
    ensures WalkPlan(plan, e, [Entry(a), Into(kids), Entry(b), Into(id)]) == Failure(FieldNotFound(id))
  {
    var s := RecursiveSet(t, e, id, kids);
    var (q, q1) := ([Entry(a), Into(kids), Entry(b), Into(id)], [Into(kids), Entry(b), Into(id)]);
    var (q2, q3) := ([Entry(b), Into(id)], [Into(id)]);
    assert q[1..] == q1 && q1[1..] == q2 && q2[1..] == q3 && q3[1..] == [];
    var (outer, element, inner, closed) :=
      (Spot(SetOf(Table(t)), []), Spot(Table(t), []), Spot(SetOf(Table(t)), [t]), Spot(Table(t), [t]));
    assert WellFormed(s) && t in s.types;
    FindFieldAt(s.types[t], 1);
    assert element.branch + [t] == [t];
    assert SpotAfter(s, closed, q3[0]).Some? && Dead(closed);
    assert Typed(s, closed, q3);
    DeadPrediction(s, closed, 6, q3);
    assert SpotAfter(s, inner, q2[0]) == Some(closed);
    assert Typed(s, inner, q2) && Predict(s, inner, 4, q2) == Some(FieldNotFound(id));
    assert SpotAfter(s, element, q1[0]) == Some(inner);
    assert Typed(s, element, q1) && Predict(s, element, 3, q1) == Some(FieldNotFound(id));
    assert SpotAfter(s, outer, q[0]) == Some(element);
    WalkMatchesSchema(s, plan, 0, q);
  }

  // ---------------------------------------------------------------------------
  // Generated plans qualify

  lemma {:induction false} FitsShaped(s: Schema, recursive: set<string>, stack: map<string, Key>, ty: FieldType,
                                      n: StorageNode)
    requires WellFormed(s) && SetsOfTables(ty) && Fits(s, recursive, stack, ty, n)
    ensures Shaped(n)
    decreases n
  {
    match ty
    case Primitive(_) =>
    case SetOf(member) => FitsShaped(s, recursive, stack, member, n.set_.value);
    case Table(t) =>
      if t !in stack {
        forall i | 0 <= i < |n.children| ensures Shaped(n.children[i].node) {
          assert s.types[t][i] in s.types[t];
          FitsShaped(s, recursive, PushStack(recursive, stack, t, n.key), s.types[t][i].ty, n.children[i].node);
        }
      }
  }

  function PushStack(recursive: set<string>, stack: map<string, Key>, t: string, key: Key): map<string, Key> {
    if t in recursive then stack[t := key] else stack
  }

  /** Plans for a schema are in the shape that keeps keys apart. */
  lemma {:induction false} PlanForIsGood(s: Schema, plan: Plan)
    requires PlanFor(s, plan)
    ensures GoodPlan(plan)
  {
    forall i | 0 <= i < |plan| ensures Shaped(plan[i].node) {
      assert s.exports[i] in s.exports;
      FitsShaped(s, CollectExports(s, s.exports).value.recursive, map[], s.exports[i].ty, plan[i].node);
    }
  }

  /** A plan migrated from a distinct one is a plan for the new schema exactly if its renames are injective. */
  lemma {:induction false} MigratedPlanQualifies(oldPlan: Plan, prior: Schema, s: Schema, candidates: seq<Key>)
    requires WellFormed(s) && DistinctAll(oldPlan) && GeneratePlan(oldPlan, prior, s, candidates).Success?
    ensures CollectExports(s, s.exports).Success?
    ensures PlanFor(s, GeneratePlan(oldPlan, prior, s, candidates).value) <==>
            AllInjective(InputsFor(prior, s, CollectExports(s, s.exports).value), oldPlan, s.exports)
  {
    GeneratedPlanFits(oldPlan, prior, s, candidates);
    MigrationKeepsKeysDistinct(oldPlan, prior, s, candidates);
  }

  // ---------------------------------------------------------------------------
  // The recursive set has a plan

  /** The planner's state after it has taken the first `i` keys. */
  function Taken(keys: seq<Key>, i: nat): State
    requires i <= |keys|
  {
    State(set j | 0 <= j < i :: keys[j], keys[i..])
  }

  lemma {:induction false} TakeNext(keys: seq<Key>, i: nat)
    requires i < |keys| && forall a, b :: 0 <= a < b < |keys| ==> keys[a] != keys[b]
    ensures FreshKey(Taken(keys, i)) == Success((keys[i], Taken(keys, i + 1)))
  {
    assert keys[i..][1..] == keys[i + 1..];
    assert Taken(keys, i).used + {keys[i]} == Taken(keys, i + 1).used;
  }

  lemma {:induction false} RecursiveSetPass(t: string, e: string, id: string, kids: string)
    ensures var (s, fields) := (RecursiveSet(t, e, id, kids), RecursiveSet(t, e, id, kids).types[t]);
      CollectFields(s, {t}, fields[1..]) == CollectFields(s, {t}, fields) == Success(Special({t}, {t})) &&
      CollectExports(s, s.exports) == Success(Special({t}, {t}))
  {
    var (s, fields) := (RecursiveSet(t, e, id, kids), RecursiveSet(t, e, id, kids).types[t]);
    assert fields[1..][1..] == [] && s.exports[1..] == [] && {} + {t} == {t};
    assert CollectFields(s, {t}, []) == Success(Special({}, {}));
    assert Collect(s, {t}, fields[1].ty) == Success(Special({t}, {t}));
    assert {t} + {} == {t};
    assert CollectFields(s, {t}, fields[1..]) == Success(Special({t}, {t}));
    assert CollectFields(s, {t}, fields) == Success(Special({t}, {t}));
    assert Collect(s, {}, Table(t)) == Success(Special({t}, {t}));
    assert Collect(s, {}, s.exports[0].ty) == Success(Special({t}, {t} + {t})) && {t} + {t} == {t};
    assert CollectExports(s, s.exports[1..]) == Success(Special({}, {}));
  }

  /** Any five distinct candidate keys make one, so the two results above are about plans that exist. */
  lemma {:induction false} RecursiveSetHasPlan(t: string, e: string, id: string, kids: string, keys: seq<Key>)
    requires id != kids && |keys| == 5 && forall a, b :: 0 <= a < b < |keys| ==> keys[a] != keys[b]
    ensures GeneratePlan([], Schema(map[], []), RecursiveSet(t, e, id, kids), keys).Success?
    ensures PlanFor(RecursiveSet(t, e, id, kids), GeneratePlan([], Schema(map[], []), RecursiveSet(t, e, id, kids), keys).value)
  {
    var (s, prior) := (RecursiveSet(t, e, id, kids), Schema(map[], []));
    RecursiveSetPass(t, e, id, kids);
    var cx := InputsFor(prior, s, Special({t}, {t}));
    CollectedExports(cx, s.exports);
    RecursiveSetFields(cx, t, e, id, kids, keys);
    TakeNext(keys, 0);
    TakeNext(keys, 4);
    assert Taken(keys, 0) == State({}, keys) && KeysOf([]) == {};
    assert ExportPoint([], prior, s.exports[0]) == None;
    assert map[][t := keys[0]] == map[t := keys[0]] && {} + {t} == {t} && s.exports[1..] == [];
    assert HasPrimary(s.types[t]) by { assert s.types[t][0] in s.types[t] && IsPrimary(s.types[t][0].annotations); }
    assert GenField(cx, Taken(keys, 0), map[], {}, Table(t), None).Success?;
    assert GenField(cx, Taken(keys, 0), map[], {}, s.exports[0].ty, None).Success?;
    var st := GenField(cx, Taken(keys, 0), map[], {}, s.exports[0].ty, None).value.1;
    assert GenExports(cx, st, [], s.exports[1..]) == Success(([], st));
    assert GenExports(cx, State({}, keys), [], s.exports).Success?;
    FirstPlanIsDistinct(s, keys);
    GeneratedPlanFits([], prior, s, keys);
  }

  lemma {:induction false} RecursiveSetFields(cx: Inputs, t: string, e: string, id: string, kids: string, keys: seq<Key>)
    requires cx == InputsFor(Schema(map[], []), RecursiveSet(t, e, id, kids), Special({t}, {t}))
    requires |keys| == 5 && forall a, b :: 0 <= a < b < |keys| ==> keys[a] != keys[b]
    ensures var (stack, fields) := (map[t := keys[0]], cx.schema.types[t]);
      CoveredFields(cx, {t}, fields) && stack.Keys == {t} * cx.recursive &&
      GenFields(cx, Taken(keys, 1), stack, {t}, fields, None).Success? &&
      GenFields(cx, Taken(keys, 1), stack, {t}, fields, None).value.1 == Taken(keys, 4)
  {
    RecursiveSetPass(t, e, id, kids);
    var (stack, fields) := (map[t := keys[0]], cx.schema.types[t]);
    TakeNext(keys, 1);
    TakeNext(keys, 2);
    TakeNext(keys, 3);
    assert fields[1..][1..] == [];
    assert GenFields(cx, Taken(keys, 4), stack, {t}, [], None) == Success(([], Taken(keys, 4)));
    assert GenField(cx, Taken(keys, 2), stack, {t}, Table(t), None).value.1 == Taken(keys, 3);
    assert GenField(cx, Taken(keys, 2), stack, {t}, fields[1].ty, None).value.1 == Taken(keys, 4);
    assert GenFields(cx, Taken(keys, 2), stack, {t}, fields[1..], None).value.1 == Taken(keys, 4);
  }
}
