/**
 The path walker: it follows a data path through a storage plan and spells the flattened
 byte key of the place it stands on. Walkers are immutable and linked to their parents.
 */
module PathWalker {
  import opened Wrappers
  import opened ByteStrings
  import opened StoragePlans

  datatype WalkError = FieldNotFound(name: string) | EnterFieldOnSet | ReferenceNodeNotFound | NotSet | PathTooDeep

  const MAX_DEPTH: nat := 64

  /** `node` has its subspace reference resolved; `key` is the walker's own key component. */
  datatype Walker = Walker(node: StorageNode, key: Bytes, link: Option<Walker>, depth: nat, flatten: bool)

  /** One step of a data path; set entries are named by their serialised primary key. */
  datatype Step = Into(name: string) | Entry(primaryKey: Bytes)

  function FromExport(plan: Plan, name: string): Result<Walker, WalkError> {
    var node := FindChild(plan, name);
    if node.None? then Failure(FieldNotFound(name))
    else Success(Walker(node.value, node.value.key, None, 1, node.value.flattened))
  }

  /** The nearest walker node, going up, that carries the key. */
  function FindReference(w: Option<Walker>, key: Key): Option<StorageNode>
    decreases w
  {
    if w.None? then None
    else if w.value.node.key == key then Some(w.value.node)
    else FindReference(w.value.link, key)
  }

  function Descend(w: Walker, node: StorageNode, key: Bytes, flatten: bool): Result<Walker, WalkError> {
    if w.depth >= MAX_DEPTH then Failure(PathTooDeep) else Success(Walker(node, key, Some(w), w.depth + 1, flatten))
  }

  function EnterField(w: Walker, name: string): Result<Walker, WalkError> {
    if w.node.set_.Some? then Failure(EnterFieldOnSet) else
    var child := FindChild(w.node.children, name);
    if child.None? then Failure(FieldNotFound(name)) else
    if child.value.reference.None? then Descend(w, child.value, child.value.key, child.value.flattened) else
    var target := FindReference(Some(w), child.value.reference.value);
    if target.None? then Failure(ReferenceNodeNotFound) else Descend(w, target.value, child.value.key, false)
  }

  /** `x` is the walker or one above it. */
  ghost predicate AtOrAbove(w: Walker, x: Walker)
    decreases w
  {
    x == w || (w.link.Some? && AtOrAbove(w.link.value, x))
  }

  lemma {:induction false} ReferenceFound(w: Walker, key: Key)
    ensures FindReference(Some(w), key).Some? <==> exists x :: AtOrAbove(w, x) && x.node.key == key
    ensures FindReference(Some(w), key).Some? ==> FindReference(Some(w), key).value.key == key
    decreases w
  {
    if w.node.key == key {
      assert AtOrAbove(w, w);
    } else if w.link.Some? {
      ReferenceFound(w.link.value, key);
      assert forall x :: AtOrAbove(w, x) <==> x == w || AtOrAbove(w.link.value, x);
    } else {
      assert FindReference(w.link, key).None?;
    }
  }

  /** Which error entering a field ends in, if any: on a set, no such field, no layout to refer to, or too deep. */
  lemma {:induction false} FieldErrors(w: Walker, name: string)
    ensures var (child, r) := (FindChild(w.node.children, name), EnterField(w, name));
      var dangling := child.Some? && child.value.reference.Some? &&
        !exists x :: AtOrAbove(w, x) && x.node.key == child.value.reference.value;
      if w.node.set_.Some? then r == Failure(EnterFieldOnSet)
      else if child.None? then r == Failure(FieldNotFound(name))
      else if dangling then r == Failure(ReferenceNodeNotFound)
      else if w.depth >= 64 then r == Failure(PathTooDeep)
      else r.Success?
  {
    var child := FindChild(w.node.children, name);
    if child.Some? && child.value.reference.Some? { ReferenceFound(w, child.value.reference.value); }
  }

  /** The component of a set entry: data marker, primary key, terminator. */
  function EntryKey(primaryKey: Bytes): Bytes {
    [0] + primaryKey + [0]
  }

  function EnterSet(w: Walker, primaryKey: Bytes): Result<Walker, WalkError> {
    if w.node.set_.None? then Failure(NotSet) else
    var member := w.node.set_.value;
    match Descend(w, member, EntryKey(primaryKey), false)
    case Failure(e) => Failure(e)
    case Success(intermediate) => Descend(intermediate, member, member.key, true)
  }

  /** And entering a set entry: not a set, or too deep; an entry takes two levels. */
  lemma {:induction false} EntryErrors(w: Walker, primaryKey: Bytes)
    ensures var r := EnterSet(w, primaryKey);
      if w.node.set_.None? then r == Failure(NotSet)
      else if w.depth + 2 > 64 then r == Failure(PathTooDeep)
      else r.Success? && r.value.depth == w.depth + 2
  {
  }

  function Enter(w: Walker, step: Step): Result<Walker, WalkError> {
    match step
    case Into(name) => EnterField(w, name)
    case Entry(primaryKey) => EnterSet(w, primaryKey)
  }

  function Walk(w: Walker, steps: seq<Step>): Result<Walker, WalkError>
    decreases |steps|
  {
    if steps == [] then Success(w) else
    match Enter(w, steps[0])
    case Failure(e) => Failure(e)
    case Success(w') => Walk(w', steps[1..])
  }

  function WalkPlan(plan: Plan, export_: string, steps: seq<Step>): Result<Walker, WalkError> {
    match FromExport(plan, export_)
    case Failure(e) => Failure(e)
    case Success(w) => Walk(w, steps)
  }

  lemma {:induction false} WalkConcat(w: Walker, p: seq<Step>, q: seq<Step>)
    ensures Walk(w, p + q) == match Walk(w, p) case Failure(e) => Failure(e) case Success(x) => Walk(x, q)
    decreases |p|
  {
    if p == [] {
      assert p + q == q;
    } else {
      assert (p + q)[0] == p[0] && (p + q)[1..] == p[1..] + q;
      if Enter(w, p[0]).Success? { WalkConcat(Enter(w, p[0]).value, p[1..], q); }
    }
  }

  // ---------------------------------------------------------------------------
  // Keys

  /** What the walker and its ancestors put in front of the keys below it: flattened components are left out. */
  function Base(w: Option<Walker>): Bytes
    decreases w
  {
    if w.None? then [] else Base(w.value.link) + (if w.value.flatten then [] else w.value.key)
  }

  /** The key of the walker's place; its own component is always there. */
  function KeyOf(w: Walker): Bytes {
    Base(w.link) + w.key
  }

  const INDEX_MARK: Byte := 1
  const DATA_MARK: Byte := 0

  function FastScanPrefix(w: Walker): Bytes {
    KeyOf(w) + [INDEX_MARK]
  }

  function DataPrefix(w: Walker): Bytes {
    KeyOf(w) + [DATA_MARK]
  }

  function Flatten(components: seq<Bytes>): Bytes {
    if components == [] then [] else components[0] + Flatten(components[1..])
  }

  lemma {:induction false} FlattenSnoc(cs: seq<Bytes>, c: Bytes)
    ensures Flatten(cs + [c]) == Flatten(cs) + c
  {
    if cs == [] {
      assert cs + [c] == [c];
    } else {
      assert (cs + [c])[1..] == cs[1..] + [c];
      FlattenSnoc(cs[1..], c);
    }
  }

  function Reversed(cs: seq<Bytes>): (r: seq<Bytes>)
    ensures |r| == |cs|
  {
    if cs == [] then [] else Reversed(cs[1..]) + [cs[0]]
  }

  lemma {:induction false} ReversedSnoc(cs: seq<Bytes>, c: Bytes)
    ensures Reversed(cs + [c]) == [c] + Reversed(cs)
  {
    if cs != [] {
      assert (cs + [c])[1..] == cs[1..] + [c];
      ReversedSnoc(cs[1..], c);
    } else {
      assert (cs + [c])[1..] == [];
    }
  }

  /** `generate_key`: collect components going up, reverse them, concatenate. */
  method GenerateKey(w: Walker) returns (key: Bytes)
    ensures key == KeyOf(w)
  {
    var components := [w.key];
    var link := w.link;
    assert Flatten(Reversed(components)) == w.key by { assert Reversed(components) == [w.key]; }
    while link.Some?
      invariant KeyOf(w) == Base(link) + Flatten(Reversed(components))
      decreases link
    {
      if !link.value.flatten {
        ReversedSnoc(components, link.value.key);
        assert ([link.value.key] + Reversed(components))[1..] == Reversed(components);
        components := components + [link.value.key];
      }
      link := link.value.link;
    }
    key := Concatenate(Reversed(components));
  }

  method Concatenate(components: seq<Bytes>) returns (key: Bytes)
    ensures key == Flatten(components)
  {
    key := [];
    for i := 0 to |components|
      invariant key == Flatten(components[..i])
    {
      assert components[..i + 1] == components[..i] + [components[i]];
      FlattenSnoc(components[..i], components[i]);
      key := key + components[i];
    }
    assert components[..|components|] == components;
  }

  /** `enter_field` with its upward search. */
  method EnterFieldSearching(w: Walker, name: string) returns (r: Result<Walker, WalkError>)
    ensures r == EnterField(w, name)
  {
    if w.node.set_.Some? { return Failure(EnterFieldOnSet); }
    var child := FindChild(w.node.children, name);
    if child.None? { return Failure(FieldNotFound(name)); }
    if child.value.reference.None? { return Descend(w, child.value, child.value.key, child.value.flattened); }
    var me := Some(w);
    while me.Some?
      invariant FindReference(Some(w), child.value.reference.value) == FindReference(me, child.value.reference.value)
      decreases me
    {
      if me.value.node.key == child.value.reference.value {
        return Descend(w, me.value.node, child.value.key, false);
      }
      me := me.value.link;
    }
    r := Failure(ReferenceNodeNotFound);
  }
}
