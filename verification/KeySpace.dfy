/**
 Distinct places have distinct keys, and the byte ranges that the executor scans and
 deletes hold exactly the places below a set or an entry.
 */
module KeySpace {
  import opened Wrappers
  import opened ByteStrings
  import opened KeyEncoding
  import opened StoragePlans
  import opened PathWalker

  // ---------------------------------------------------------------------------
  // Plans and walkers in good shape

  /** Flattened nodes are tables; a set node has no children of its own, and its member is not a set. */
  predicate Shaped(n: StorageNode)
    decreases n
  {
    (n.flattened ==> n.set_.None?) &&
    (n.set_.Some? ==> n.children == [] && n.set_.value.set_.None? && Shaped(n.set_.value)) &&
    forall i :: 0 <= i < |n.children| ==> Shaped(n.children[i].node)
  }

  predicate ShapedPlan(plan: Plan) {
    forall i :: 0 <= i < |plan| ==> Shaped(plan[i].node)
  }

  /** Every node on the chain is distinct below itself; a flattened walker stands on its own node, a table. */
  predicate Sound(w: Walker)
    decreases w
  {
    Distinct(w.node) && Shaped(w.node) &&
    (w.flatten ==> w.key == w.node.key && w.node.set_.None?) &&
    (w.link.Some? ==> Sound(w.link.value))
  }

  lemma {:induction false} ReferenceSound(w: Walker, key: Key)
    requires Sound(w) && FindReference(Some(w), key).Some?
    ensures var n := FindReference(Some(w), key).value; Distinct(n) && Shaped(n)
    decreases w
  {
    if w.node.key != key { ReferenceSound(w.link.value, key); }
  }

  lemma {:induction false} SoundStep(w: Walker, step: Step)
    requires Sound(w) && Enter(w, step).Success?
    ensures Sound(Enter(w, step).value)
  {
    match step
    case Into(name) =>
      var i := FindChildIndex(w.node.children, name);
      DistinctAt(w.node.children, i);
      var child := w.node.children[i].node;
      if child.reference.Some? { ReferenceSound(w, child.reference.value); }
    case Entry(primaryKey) =>
  }

  // ---------------------------------------------------------------------------
  // The key of a place below a walker

  /** All entry steps use serialised primary keys. */
  ghost predicate ProperPath(p: seq<Step>) {
    forall i :: 0 <= i < |p| && p[i].Entry? ==> IsPrimaryKey(p[i].primaryKey)
  }

  /** The child node that a field step goes to, before its reference is resolved. */
  function RawChild(w: Walker, name: string): StorageNode
    requires FindChild(w.node.children, name).Some?
  {
    FindChild(w.node.children, name).value
  }

  /** How the key of a field's place, or of a place below the field, goes on after the base. */
  ghost predicate FieldStart(c: StorageNode, more: bool, t: Bytes) {
    |t| >= 12 && t[..12] in Keys(c) && (!more ==> t == c.key) &&
    (more && c.reference.None? && c.flattened ==> t[..12] in KeysOf(c.children))
  }

  ghost predicate EntryStart(pk: Bytes, t: Bytes) {
    EntryKey(pk) <= t && |t| >= |EntryKey(pk)| + 12
  }

  ghost predicate TailStarts(w: Walker, step: Step, more: bool, t: Bytes) {
    match step
    case Into(name) => FindChild(w.node.children, name).Some? && FieldStart(RawChild(w, name), more, t)
    case Entry(pk) => EntryStart(pk, t)
  }

  /** The key of a place strictly below a walker: the walker's base and a tail that shows the first step. */
  lemma {:induction false} KeyBelow(w: Walker, p: seq<Step>) returns (t: Bytes)
    requires Sound(w) && p != [] && Walk(w, p).Success?
    ensures KeyOf(Walk(w, p).value) == Base(Some(w)) + t
    ensures TailStarts(w, p[0], |p| > 1, t) && |t| >= 12
    decreases |p|
  {
    var w' := Enter(w, p[0]).value;
    SoundStep(w, p[0]);
    if |p| == 1 {
      assert Walk(w', p[1..]) == Success(w');
      t := LastStep(w, p[0]);
    } else {
      var t' := KeyBelow(w', p[1..]);
      match p[0]
      case Entry(pk) => t := EntryTail(w, pk, t');
      case Into(name) => t := FieldTail(w, name, p[1], |p| > 2, t');
    }
  }

  lemma {:induction false} LastStep(w: Walker, step: Step) returns (t: Bytes)
    requires Enter(w, step).Success?
    ensures KeyOf(Enter(w, step).value) == Base(Some(w)) + t
    ensures TailStarts(w, step, false, t) && |t| >= 12
  {
    var w' := Enter(w, step).value;
    match step
    case Into(name) =>
      t := RawChild(w, name).key;
      assert t[..12] == t;
    case Entry(pk) =>
      t := EntryKey(pk) + w'.key;
      assert Base(w'.link) == Base(Some(w)) + EntryKey(pk);
  }

  lemma {:induction false} EntryTail(w: Walker, pk: Bytes, t': Bytes) returns (t: Bytes)
    requires EnterSet(w, pk).Success? && |t'| >= 12
    ensures Base(Some(EnterSet(w, pk).value)) + t' == Base(Some(w)) + t
    ensures EntryStart(pk, t)
  {
    assert Base(Some(EnterSet(w, pk).value)) == Base(Some(w)) + EntryKey(pk);
    t := EntryKey(pk) + t';
  }

  lemma {:induction false} FieldTail(w: Walker, name: string, next: Step, more: bool, t': Bytes) returns (t: Bytes)
    requires Sound(w) && EnterField(w, name).Success? && Enter(EnterField(w, name).value, next).Success?
    requires TailStarts(EnterField(w, name).value, next, more, t') && |t'| >= 12
    ensures Base(Some(EnterField(w, name).value)) + t' == Base(Some(w)) + t
    ensures FieldStart(RawChild(w, name), true, t)
  {
    FieldBase(w, name);
    if EnterField(w, name).value.flatten {
      t := t';
      FlattenedTail(RawChild(w, name), next, more, t');
    } else {
      t := RawChild(w, name).key + t';
      Associate(Base(Some(w)), RawChild(w, name).key, t');
      OpenTail(RawChild(w, name), t');
    }
  }

  /** A flattened field adds nothing to the base; any other adds its key. */
  lemma {:induction false} FieldBase(w: Walker, name: string)
    requires Sound(w) && EnterField(w, name).Success?
    ensures var (w', c) := (EnterField(w, name).value, RawChild(w, name));
      Shaped(c) && w'.link == Some(w) && w'.key == c.key &&
      (if w'.flatten then w'.node == c && c.flattened && Base(Some(w')) == Base(Some(w))
       else (c.reference.Some? || !c.flattened) && Base(Some(w')) == Base(Some(w)) + c.key)
  {
    var i := FindChildIndex(w.node.children, name);
  }

  lemma {:induction false} OpenTail(c: StorageNode, t: Bytes)
    requires c.reference.Some? || !c.flattened
    ensures FieldStart(c, true, c.key + t)
  {
    assert (c.key + t)[..12] == c.key;
  }

  lemma {:induction false} FlattenedTail(c: StorageNode, next: Step, more: bool, t: Bytes)
    requires c.flattened && Shaped(c) && |t| >= 12 && next.Into? && FindChild(c.children, next.name).Some?
    requires FieldStart(FindChild(c.children, next.name).value, more, t)
    ensures FieldStart(c, true, t)
  {
    var j := FindChildIndex(c.children, next.name);
    KeysOfAt(c.children, j);
  }

  // ---------------------------------------------------------------------------
  // Prefixes of keys are prefixes of paths

  /** What may follow the key of a place: nothing, or at a set the index marker and more. */
  predicate Suffix(w: Walker, x: Bytes) {
    x == [] || (w.node.set_.Some? && x[0] == INDEX_MARK)
  }

  /** No place strictly below a walker has a key that is a prefix of the walker's own. */
  lemma {:induction false} NotBelow(w: Walker, p: seq<Step>, x: Bytes)
    requires Sound(w) && p != [] && Walk(w, p).Success? && Suffix(w, x)
    ensures !(KeyOf(Walk(w, p).value) <= KeyOf(w) + x)
  {
    var t := KeyBelow(w, p);
    if w.flatten {
      assert KeyOf(w) + x == Base(Some(w)) + w.key;
      PrefixCancel(Base(Some(w)), t, w.key);
      OwnKeyDiffers(w, p[0], |p| > 1, t);
    } else {
      PrefixCancel(Base(Some(w)), t, x);
    }
  }

  lemma {:induction false} OwnKeyDiffers(w: Walker, step: Step, more: bool, t: Bytes)
    requires Sound(w) && w.flatten && Enter(w, step).Success? && TailStarts(w, step, more, t) && |t| >= 12
    ensures !(t <= w.key)
  {
    var j := FindChildIndex(w.node.children, step.name);
    KeysOfAt(w.node.children, j);
    assert t[..12] != w.key;
  }

  /** Two places below one walker whose keys start alike start with the same step. */
  lemma {:induction false} SameFirstStep(w: Walker, p: seq<Step>, q: seq<Step>, x: Bytes)
    requires Sound(w) && p != [] && q != [] && Walk(w, p).Success? && Walk(w, q).Success?
    requires ProperPath(p) && ProperPath(q)
    requires KeyOf(Walk(w, p).value) <= KeyOf(Walk(w, q).value) + x
    ensures p[0] == q[0]
  {
    var t := KeyBelow(w, p);
    var u := KeyBelow(w, q);
    Associate(Base(Some(w)), u, x);
    PrefixCancel(Base(Some(w)), t, u + x);
    if w.node.set_.Some? {
      SameEntry(p[0].primaryKey, q[0].primaryKey, t, u, x);
    } else {
      SameField(w, p[0].name, q[0].name, t, u, x);
    }
  }

  lemma {:induction false} SameEntry(pk: Bytes, qk: Bytes, t: Bytes, u: Bytes, x: Bytes)
    requires IsPrimaryKey(pk) && IsPrimaryKey(qk) && EntryKey(pk) <= t && EntryKey(qk) <= u && t <= u + x
    ensures pk == qk
  {
    PrefixesComparable(EntryKey(pk), EntryKey(qk), u + x);
    assert EntryKey(pk) == [0] + (pk + [0]) && EntryKey(qk) == [0] + (qk + [0]);
    PrefixCancel([0], pk + [0], qk + [0]);
    PrefixCancel([0], qk + [0], pk + [0]);
    EntryComponentsApart(pk, qk);
  }

  lemma {:induction false} SameField(w: Walker, f: string, g: string, t: Bytes, u: Bytes, x: Bytes)
    requires Distinct(w.node) && FindChild(w.node.children, f).Some? && FindChild(w.node.children, g).Some?
    requires |t| >= 12 && |u| >= 12 && t[..12] in Keys(RawChild(w, f)) && u[..12] in Keys(RawChild(w, g)) && t <= u + x
    ensures f == g
  {
    assert t[..12] == u[..12];
    var i := FindChildIndex(w.node.children, f);
    var j := FindChildIndex(w.node.children, g);
    if i != j { DistinctApart(w.node.children, if i < j then i else j, if i < j then j else i); }
  }

  /** The key of a place is a prefix of another place's key (or index key) only if its path is. */
  lemma {:induction false} PrefixMeansAncestor(w: Walker, p: seq<Step>, q: seq<Step>, x: Bytes)
    requires Sound(w) && Walk(w, p).Success? && Walk(w, q).Success? && ProperPath(p) && ProperPath(q)
    requires Suffix(Walk(w, q).value, x) && KeyOf(Walk(w, p).value) <= KeyOf(Walk(w, q).value) + x
    ensures p <= q
    decreases |p|
  {
    if p != [] {
      if q == [] {
        NotBelow(w, p, x);
      } else {
        SameFirstStep(w, p, q, x);
        SoundStep(w, p[0]);
        PrefixMeansAncestor(Enter(w, p[0]).value, p[1..], q[1..], x);
        assert p == [p[0]] + p[1..] && q == [q[0]] + q[1..];
      }
    }
  }

  // ---------------------------------------------------------------------------
  // Cells of a whole plan

  /** A key that the executor reads or writes: the place of a path, or the index entry of a set member. */
  datatype Cell = Data(export_: string, path: seq<Step>) | Index(export_: string, path: seq<Step>, primaryKey: Bytes)

  ghost predicate GoodPlan(plan: Plan) {
    DistinctAll(plan) && ShapedPlan(plan)
  }

  ghost predicate IsCell(plan: Plan, c: Cell) {
    WalkPlan(plan, c.export_, c.path).Success? && ProperPath(c.path) &&
    (c.Index? ==> WalkPlan(plan, c.export_, c.path).value.node.set_.Some? && IsPrimaryKey(c.primaryKey))
  }

  /** What the key of a cell has after the key of its place. */
  function CellSuffix(c: Cell): Bytes {
    if c.Data? then [] else [INDEX_MARK] + c.primaryKey
  }

  function CellKey(plan: Plan, c: Cell): Bytes
    requires WalkPlan(plan, c.export_, c.path).Success?
  {
    KeyOf(WalkPlan(plan, c.export_, c.path).value) + CellSuffix(c)
  }

  lemma {:induction false} RootSound(plan: Plan, e: string)
    requires GoodPlan(plan) && FromExport(plan, e).Success?
    ensures Sound(FromExport(plan, e).value)
  {
    var i := FindChildIndex(plan, e);
    DistinctAt(plan, i);
  }

  /** The first twelve bytes of a key belong to its export. */
  lemma {:induction false} RootStart(plan: Plan, e: string, p: seq<Step>)
    requires GoodPlan(plan) && WalkPlan(plan, e, p).Success?
    ensures var k := KeyOf(WalkPlan(plan, e, p).value); |k| >= 12 && k[..12] in Keys(FromExport(plan, e).value.node)
  {
    var w := FromExport(plan, e).value;
    RootSound(plan, e);
    var k := KeyOf(WalkPlan(plan, e, p).value);
    if p == [] {
      assert k == w.key && k[..12] == k;
    } else {
      var t := KeyBelow(w, p);
      if w.flatten {
        assert k == t;
        var j := FindChildIndex(w.node.children, p[0].name);
        KeysOfAt(w.node.children, j);
      } else {
        assert k == w.key + t && k[..12] == w.key;
      }
    }
  }

  lemma {:induction false} ExportsApart(plan: Plan, e: string, p: seq<Step>, f: string, q: seq<Step>, x: Bytes)
    requires GoodPlan(plan) && WalkPlan(plan, e, p).Success? && WalkPlan(plan, f, q).Success?
    requires KeyOf(WalkPlan(plan, e, p).value) <= KeyOf(WalkPlan(plan, f, q).value) + x
    ensures e == f
  {
    RootStart(plan, e, p);
    RootStart(plan, f, q);
    var (k, l) := (KeyOf(WalkPlan(plan, e, p).value), KeyOf(WalkPlan(plan, f, q).value));
    assert k[..12] == l[..12];
    var i := FindChildIndex(plan, e);
    var j := FindChildIndex(plan, f);
    if i != j { DistinctApart(plan, if i < j then i else j, if i < j then j else i); }
  }

  /** A place whose key is a prefix of a cell's key is an ancestor of the cell. */
  lemma {:induction false} AncestorOf(plan: Plan, e: string, p: seq<Step>, c: Cell)
    requires GoodPlan(plan) && WalkPlan(plan, e, p).Success? && ProperPath(p) && IsCell(plan, c)
    requires KeyOf(WalkPlan(plan, e, p).value) <= CellKey(plan, c)
    ensures e == c.export_ && p <= c.path
  {
    ExportsApart(plan, e, p, c.export_, c.path, CellSuffix(c));
    RootSound(plan, e);
    PrefixMeansAncestor(FromExport(plan, e).value, p, c.path, CellSuffix(c));
  }

  lemma {:induction false} WalkOn(plan: Plan, e: string, p: seq<Step>, q: seq<Step>)
    requires GoodPlan(plan) && WalkPlan(plan, e, p).Success? && WalkPlan(plan, e, q).Success? && p <= q
    ensures Sound(WalkPlan(plan, e, p).value)
    ensures Walk(WalkPlan(plan, e, p).value, q[|p|..]) == WalkPlan(plan, e, q)
  {
    var root := FromExport(plan, e).value;
    RootSound(plan, e);
    SoundWalk(root, p);
    assert q == p + q[|p|..];
    WalkConcat(root, p, q[|p|..]);
  }

  /** A set is never flattened: keys below it start with its own key. */
  lemma {:induction false} SetBase(w: Walker)
    requires Sound(w) && w.node.set_.Some?
    ensures Base(Some(w)) == KeyOf(w)
  {
  }

  /** Below a set, the key of a cell goes on with the data marker and the entry. */
  lemma {:induction false} CellBelowSet(plan: Plan, e: string, p: seq<Step>, c: Cell) returns (t: Bytes)
    requires GoodPlan(plan) && WalkPlan(plan, e, p).Success? && WalkPlan(plan, e, p).value.node.set_.Some?
    requires IsCell(plan, c) && c.export_ == e && p < c.path
    ensures c.path[|p|].Entry? && EntryStart(c.path[|p|].primaryKey, t)
    ensures CellKey(plan, c) == KeyOf(WalkPlan(plan, e, p).value) + t
  {
    var w := WalkPlan(plan, e, p).value;
    WalkOn(plan, e, p, c.path);
    SetBase(w);
    var u := KeyBelow(w, c.path[|p|..]);
    assert c.path[|p|..][0] == c.path[|p|];
    Associate(KeyOf(w), u, CellSuffix(c));
    t := u + CellSuffix(c);
  }

  lemma {:induction false} SoundWalk(w: Walker, p: seq<Step>)
    requires Sound(w) && Walk(w, p).Success?
    ensures Sound(Walk(w, p).value)
    decreases |p|
  {
    if p != [] {
      SoundStep(w, p[0]);
      SoundWalk(Enter(w, p[0]).value, p[1..]);
    }
  }

  /** Different cells never share a key. */
  lemma {:induction false} CellsApart(plan: Plan, c: Cell, d: Cell)
    requires GoodPlan(plan) && IsCell(plan, c) && IsCell(plan, d) && CellKey(plan, c) == CellKey(plan, d)
    ensures c == d
  {
    var (k, l) := (KeyOf(WalkPlan(plan, c.export_, c.path).value), KeyOf(WalkPlan(plan, d.export_, d.path).value));
    AncestorOf(plan, c.export_, c.path, d);
    AncestorOf(plan, d.export_, d.path, c);
    assert c.path == d.path;
    assert CellSuffix(c) == CellKey(plan, c)[|k|..] == CellSuffix(d);
    if c.Index? && d.Index? { assert c.primaryKey == CellSuffix(c)[1..] == d.primaryKey; }
  }

  // ---------------------------------------------------------------------------
  // The executor's ranges

  /** A key that continues the key of a place belongs to a cell below the place, or to an index entry at it. */
  lemma {:induction false} AtOrBelow(plan: Plan, e: string, p: seq<Step>, x: Bytes, c: Cell)
    requires GoodPlan(plan) && WalkPlan(plan, e, p).Success? && ProperPath(p) && IsCell(plan, c)
    requires x != [] && KeyOf(WalkPlan(plan, e, p).value) + x <= CellKey(plan, c)
    ensures c.export_ == e && (p < c.path || (c.path == p && c.Index? && x[0] == INDEX_MARK))
  {
    var k := KeyOf(WalkPlan(plan, e, p).value);
    assert k <= k + x;
    AncestorOf(plan, e, p, c);
    if c.path == p {
      assert CellKey(plan, c) == k + CellSuffix(c);
      PrefixCancel(k, x, CellSuffix(c));
    }
  }

  /** The data range of a set holds exactly the cells strictly below it. */
  lemma {:induction false} DataRangeExact(plan: Plan, e: string, p: seq<Step>, c: Cell)
    requires GoodPlan(plan) && WalkPlan(plan, e, p).Success? && WalkPlan(plan, e, p).value.node.set_.Some? && ProperPath(p)
    requires IsCell(plan, c)
    ensures var lo := DataPrefix(WalkPlan(plan, e, p).value);
      InRange(CellKey(plan, c), lo, Bump(lo)) <==> c.export_ == e && p < c.path
  {
    var w := WalkPlan(plan, e, p).value;
    var (lo, k) := (DataPrefix(w), CellKey(plan, c));
    PrefixRange(lo, k);
    if c.export_ == e && p < c.path {
      var t := CellBelowSet(plan, e, p, c);
      PrefixCancel(KeyOf(w), [DATA_MARK], t);
    } else if lo <= k {
      AtOrBelow(plan, e, p, [DATA_MARK], c);
    }
  }

  /** The fast-scan range of a set holds exactly the index entries of its own members. */
  lemma {:induction false} FastScanRangeExact(plan: Plan, e: string, p: seq<Step>, c: Cell)
    requires GoodPlan(plan) && WalkPlan(plan, e, p).Success? && WalkPlan(plan, e, p).value.node.set_.Some? && ProperPath(p)
    requires IsCell(plan, c)
    ensures var lo := FastScanPrefix(WalkPlan(plan, e, p).value);
      InRange(CellKey(plan, c), lo, Bump(lo)) <==> c.Index? && c.export_ == e && c.path == p
  {
    var w := WalkPlan(plan, e, p).value;
    var (lo, k) := (FastScanPrefix(w), CellKey(plan, c));
    PrefixRange(lo, k);
    if c.Index? && c.export_ == e && c.path == p {
      PrefixCancel(KeyOf(w), [INDEX_MARK], CellSuffix(c));
    } else if lo <= k {
      AtOrBelow(plan, e, p, [INDEX_MARK], c);
      if p < c.path {
        var t := CellBelowSet(plan, e, p, c);
        PrefixCancel(KeyOf(w), [INDEX_MARK], t);
      }
    }
  }

  lemma {:induction false} OwnEntry(pk: Bytes, qk: Bytes, t: Bytes)
    requires IsPrimaryKey(pk) && IsPrimaryKey(qk) && EntryStart(qk, t)
    ensures EntryKey(pk) <= t <==> pk == qk
  {
    if EntryKey(pk) <= t {
      assert t + [] == t;
      SameEntry(pk, qk, EntryKey(pk), t, []);
    }
  }

  /** Below a set, the key starts with an entry's component exactly if the path goes through the entry. */
  lemma {:induction false} ThroughEntry(plan: Plan, e: string, p: seq<Step>, pk: Bytes, c: Cell)
    requires GoodPlan(plan) && WalkPlan(plan, e, p).Success? && WalkPlan(plan, e, p).value.node.set_.Some?
    requires IsPrimaryKey(pk) && IsCell(plan, c) && c.export_ == e && p < c.path
    ensures KeyOf(WalkPlan(plan, e, p).value) + EntryKey(pk) <= CellKey(plan, c) <==> c.path[|p|] == Entry(pk)
  {
    var t := CellBelowSet(plan, e, p, c);
    PrefixCancel(KeyOf(WalkPlan(plan, e, p).value), EntryKey(pk), t);
    OwnEntry(pk, c.path[|p|].primaryKey, t);
  }

  lemma {:induction false} PathThrough(p: seq<Step>, step: Step, q: seq<Step>)
    ensures p + [step] <= q <==> p < q && q[|p|] == step
  {
    if p < q { assert q[..|p| + 1] == p + [q[|p|]]; }
  }

  /** The range that deletes one entry's data holds exactly the cells at and below that entry. */
  lemma {:induction false} EntryRangeExact(plan: Plan, e: string, p: seq<Step>, pk: Bytes, c: Cell)
    requires GoodPlan(plan) && WalkPlan(plan, e, p).Success? && WalkPlan(plan, e, p).value.node.set_.Some? && ProperPath(p)
    requires IsPrimaryKey(pk) && IsCell(plan, c)
    ensures var lo := KeyOf(WalkPlan(plan, e, p).value) + EntryKey(pk);
      InRange(CellKey(plan, c), lo, Bump(lo)) <==> c.export_ == e && p + [Entry(pk)] <= c.path
  {
    var (lo, k) := (KeyOf(WalkPlan(plan, e, p).value) + EntryKey(pk), CellKey(plan, c));
    PrefixRange(lo, k);
    PathThrough(p, Entry(pk), c.path);
    if c.export_ == e && p < c.path {
      ThroughEntry(plan, e, p, pk, c);
    } else if lo <= k {
      AtOrBelow(plan, e, p, EntryKey(pk), c);
    }
  }

  /** With a NUL in a string key it does not: the range of entry `s` holds the key of entry `s` NUL `t`, for every set. */
  lemma {:induction false} NulEntryInRange(plan: Plan, e: string, p: seq<Step>, s: Bytes, t: Bytes)
    requires GoodPlan(plan) && WalkPlan(plan, e, p).Success? && WalkPlan(plan, e, p).value.node.set_.Some?
    requires EnterSet(WalkPlan(plan, e, p).value, Encode(String(s + [0] + t))).Success?
    ensures var (w, pk, qk) := (WalkPlan(plan, e, p).value, Encode(String(s)), Encode(String(s + [0] + t)));
      var lo := KeyOf(w) + EntryKey(pk);
      pk != qk && InRange(KeyOf(EnterSet(w, qk).value), lo, Bump(lo))
  {
    RootSound(plan, e);
    SoundWalk(FromExport(plan, e).value, p);
    NulRowInRange(WalkPlan(plan, e, p).value, s, t);
  }

  lemma {:induction false} NulRowInRange(w: Walker, s: Bytes, t: Bytes)
    requires Sound(w) && w.node.set_.Some? && EnterSet(w, Encode(String(s + [0] + t))).Success?
    ensures var (pk, qk) := (Encode(String(s)), Encode(String(s + [0] + t)));
      var lo := KeyOf(w) + EntryKey(pk);
      pk != qk && InRange(KeyOf(EnterSet(w, qk).value), lo, Bump(lo))
  {
    var (pk, qk) := (Encode(String(s)), Encode(String(s + [0] + t)));
    var (lo, k) := (KeyOf(w) + EntryKey(pk), KeyOf(EnterSet(w, qk).value));
    EntryRowKey(w, qk);
    NulEntryExtends(s, t);
    Regroup(KeyOf(w), EntryKey(pk), t + [0], w.node.set_.value.key);
    LongerInRange(lo, t + [0] + w.node.set_.value.key);
  }

  lemma {:induction false} EntryRowKey(w: Walker, pk: Bytes)
    requires Sound(w) && w.node.set_.Some? && EnterSet(w, pk).Success?
    ensures KeyOf(EnterSet(w, pk).value) == KeyOf(w) + EntryKey(pk) + w.node.set_.value.key
  {
    SetBase(w);
  }

  /** The keys of a set member: `01` and the primary key for its index entry, `00`, the primary key and `00` for its row. */
  lemma {:induction false} MemberLayout(plan: Plan, e: string, p: seq<Step>, pk: Bytes)
    requires GoodPlan(plan) && WalkPlan(plan, e, p).Success? && WalkPlan(plan, e, p).value.node.set_.Some?
    requires WalkPlan(plan, e, p + [Entry(pk)]).Success?
    ensures var w := WalkPlan(plan, e, p).value;
      CellKey(plan, Index(e, p, pk)) == KeyOf(w) + ([1] + pk) &&
      CellKey(plan, Data(e, p + [Entry(pk)])) == KeyOf(w) + ([0] + pk + [0]) + w.node.set_.value.key
  {
    var w := WalkPlan(plan, e, p).value;
    RootSound(plan, e);
    SoundWalk(FromExport(plan, e).value, p);
    WalkConcat(FromExport(plan, e).value, p, [Entry(pk)]);
    assert [Entry(pk)][1..] == [];
    EntryRowKey(w, pk);
    assert CellSuffix(Data(e, p + [Entry(pk)])) == [];
    assert CellSuffix(Index(e, p, pk)) == [1] + pk;
  }

  lemma {:induction false} Regroup(a: Bytes, b: Bytes, c: Bytes, d: Bytes)
    ensures a + (b + c) + d == a + b + (c + d)
  {
  }

  lemma {:induction false} LongerInRange(lo: Bytes, x: Bytes)
    requires lo != [] && lo[|lo| - 1] < 255
    ensures InRange(lo + x, lo, Bump(lo))
  {
    PrefixRange(lo, lo + x);
  }

  lemma {:induction false} NulEntryExtends(s: Bytes, t: Bytes)
    ensures EntryKey(Encode(String(s + [0] + t))) == EntryKey(Encode(String(s))) + (t + [0])
    ensures Encode(String(s)) != Encode(String(s + [0] + t))
  {
    assert Encode(String(s + [0] + t)) == [2] + (s + [0] + t);
    assert |Encode(String(s))| == |s| + 1;
  }
}
