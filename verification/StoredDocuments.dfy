/**
 Documents in the byte space: the executor's writes, deletes and scans on the key-value
 store, proved to do to the stored keys what the cell model does to the cells.
 */
module StoredDocuments {
  import opened Wrappers
  import opened ByteStrings
  import opened KeyEncoding
  import opened StoragePlans
  import opened PathWalker
  import opened KeySpace
  import opened DocumentStore
  import MemKv

  type Contents = map<Bytes, Stored>

  // ---------------------------------------------------------------------------
  // The executor's operations on visible contents

  function WithoutRange(m: Contents, lo: Bytes, hi: Bytes): Contents {
    map k | k in m && !InRange(k, lo, hi) :: m[k]
  }

  /** `delete_set`. */
  function DeleteSet(m: Contents, w: Walker): Contents {
    var cleared := WithoutRange(m, FastScanPrefix(w), Bump(FastScanPrefix(w)));
    WithoutRange(cleared, DataPrefix(w), Bump(DataPrefix(w)))
  }

  /** `delete_entry_from_set`. */
  function DeleteEntry(m: Contents, w: Walker, pk: Bytes): Contents {
    var lo := DataPrefix(w) + pk + [0];
    WithoutRange(m - {FastScanPrefix(w) + pk}, lo, Bump(lo))
  }

  /** `walk_and_insert`; a walk that fails is a panic and leaves nothing to commit. */
  function Insert(m: Contents, w: Walker, doc: Doc): Result<Contents, WalkError>
    decreases doc, 0
  {
    match doc
    case Nothing => Success(m - {KeyOf(w)})
    case Prim(v) => Success(m[KeyOf(w) := Packed(v)])
    case Row(fields) => InsertFields(m[KeyOf(w) := Marker], w, fields)
    case Rows(members) =>
      if w.node.set_.None? then Failure(NotSet)
      else InsertMembers(DeleteSet(m[KeyOf(w) := Marker], w), w, members)
  }

  function InsertFields(m: Contents, w: Walker, fields: seq<Part>): Result<Contents, WalkError>
    decreases fields, 0
  {
    if fields == [] then Success(m) else
    match EnterField(w, fields[0].name)
    case Failure(e) => Failure(e)
    case Success(w') =>
      match Insert(m, w', fields[0].doc)
      case Failure(e) => Failure(e)
      case Success(m') => InsertFields(m', w, fields[1..])
  }

  function InsertMembers(m: Contents, w: Walker, members: seq<Member>): Result<Contents, WalkError>
    decreases members, 0
  {
    if members == [] then Success(m) else
    match InsertMember(m, w, members[0].primaryKey, members[0].doc)
    case Failure(e) => Failure(e)
    case Success(m') => InsertMembers(m', w, members[1..])
  }

  /** `InsertIntoSet`: the index entry, then the row. */
  function InsertMember(m: Contents, w: Walker, pk: Bytes, doc: Doc): Result<Contents, WalkError>
    decreases doc, 1
  {
    match EnterSet(w, pk)
    case Failure(e) => Failure(e)
    case Success(w') => Insert(m[FastScanPrefix(w) + pk := Marker], w', doc)
  }

  // ---------------------------------------------------------------------------
  // The same on a transaction

  /** `delete_set` on a transaction. */
  method RunDeleteSet(txn: MemKv.MemTransaction<Stored>, w: Walker)
    modifies txn
    ensures MemKv.Live(txn.buffer) == DeleteSet(MemKv.Live(old(txn.buffer)), w)
  {
    var key := GenerateKey(w);
    var (scan, data) := (key + [INDEX_MARK], key + [DATA_MARK]);
    MemKv.EraseRangeLive(txn.View(), scan, Bump(scan));
    txn.DeleteRange(scan, Bump(scan));
    MemKv.EraseRangeLive(txn.View(), data, Bump(data));
    txn.DeleteRange(data, Bump(data));
  }

  /** `delete_entry_from_set` on a transaction. */
  method RunDeleteEntry(txn: MemKv.MemTransaction<Stored>, w: Walker, pk: Bytes)
    modifies txn
    ensures MemKv.Live(txn.buffer) == DeleteEntry(MemKv.Live(old(txn.buffer)), w, pk)
  {
    var key := GenerateKey(w);
    var lo := key + [DATA_MARK] + pk + [0];
    MemKv.WriteLive(txn.View(), key + [INDEX_MARK] + pk, None);
    txn.Delete(key + [INDEX_MARK] + pk);
    MemKv.EraseRangeLive(txn.View(), lo, Bump(lo));
    txn.DeleteRange(lo, Bump(lo));
  }

  method PutStored(txn: MemKv.MemTransaction<Stored>, key: Bytes, value: Stored)
    modifies txn
    ensures MemKv.Live(txn.buffer) == MemKv.Live(old(txn.buffer))[key := value]
  {
    MemKv.WriteLive(txn.View(), key, Some(value));
    txn.Put(key, value);
  }

  /** `walk_and_insert` on a transaction, with its loops over fields and members. */
  method WalkAndInsert(txn: MemKv.MemTransaction<Stored>, w: Walker, doc: Doc) returns (err: Option<WalkError>)
    modifies txn
    ensures match Insert(MemKv.Live(old(txn.buffer)), w, doc)
      case Failure(e) => err == Some(e)
      case Success(m) => err.None? && MemKv.Live(txn.buffer) == m
    decreases doc
  {
    var key := GenerateKey(w);
    err := None;
    match doc {
      case Nothing =>
        MemKv.WriteLive(txn.View(), key, None);
        txn.Delete(key);
      case Prim(v) => PutStored(txn, key, Packed(v));
      case Row(fields) =>
        PutStored(txn, key, Marker);
        ghost var m := MemKv.Live(txn.buffer);
        for i := 0 to |fields|
          invariant err.None? && InsertFields(m, w, fields) == InsertFields(MemKv.Live(txn.buffer), w, fields[i..])
        {
          assert fields[i..][0] == fields[i] && fields[i..][1..] == fields[i + 1..];
          var w' := EnterFieldSearching(w, fields[i].name);
          if w'.Failure? { return Some(w'.error); }
          err := WalkAndInsert(txn, w'.value, fields[i].doc);
          if err.Some? { return; }
        }
        assert fields[|fields|..] == [];
      case Rows(members) =>
        PutStored(txn, key, Marker);
        if w.node.set_.None? { return Some(NotSet); }
        RunDeleteSet(txn, w);
        ghost var m := MemKv.Live(txn.buffer);
        for i := 0 to |members|
          invariant err.None? && InsertMembers(m, w, members) == InsertMembers(MemKv.Live(txn.buffer), w, members[i..])
        {
          assert members[i..][0] == members[i] && members[i..][1..] == members[i + 1..];
          var w' := EnterSet(w, members[i].primaryKey);
          if w'.Failure? { return Some(w'.error); }
          PutStored(txn, key + [INDEX_MARK] + members[i].primaryKey, Marker);
          err := WalkAndInsert(txn, w'.value, members[i].doc);
          if err.Some? { return; }
        }
        assert members[|members|..] == [];
    }
  }

  // ---------------------------------------------------------------------------
  // Contents and cells

  ghost predicate Kept(plan: Plan, m: Contents, a: Cells, c: Cell)
    requires c in a
  {
    IsCell(plan, c) && CellKey(plan, c) in m && m[CellKey(plan, c)] == a[c]
  }

  ghost predicate Named(plan: Plan, a: Cells, k: Bytes) {
    exists c :: c in a && IsCell(plan, c) && CellKey(plan, c) == k
  }

  /** The contents are exactly the keys of the cells, with the same values. */
  ghost predicate Represents(plan: Plan, m: Contents, a: Cells) {
    (forall c <- a :: Kept(plan, m, a, c)) && (forall k <- m :: Named(plan, a, k))
  }

  lemma {:induction false} EmptyRepresents(plan: Plan)
    ensures Represents(plan, map[], map[])
  {
  }

  lemma {:induction false} SameKey(plan: Plan, c: Cell, d: Cell)
    requires GoodPlan(plan) && IsCell(plan, c) && IsCell(plan, d)
    ensures CellKey(plan, c) == CellKey(plan, d) <==> c == d
  {
    if CellKey(plan, c) == CellKey(plan, d) { CellsApart(plan, c, d); }
  }

  /** Looking a cell up in the contents is looking it up in the cells. */
  lemma {:induction false} CellLookup(plan: Plan, m: Contents, a: Cells, c: Cell)
    requires GoodPlan(plan) && Represents(plan, m, a) && IsCell(plan, c)
    ensures CellKey(plan, c) in m <==> c in a
    ensures c in a ==> m[CellKey(plan, c)] == a[c]
  {
    if c in a {
      assert Kept(plan, m, a, c);
    } else if CellKey(plan, c) in m {
      assert Named(plan, a, CellKey(plan, c));
      var d :| d in a && IsCell(plan, d) && CellKey(plan, d) == CellKey(plan, c);
      SameKey(plan, c, d);
    }
  }

  lemma {:induction false} PutCell(plan: Plan, m: Contents, a: Cells, c: Cell, v: Stored)
    requires GoodPlan(plan) && Represents(plan, m, a) && IsCell(plan, c)
    ensures Represents(plan, m[CellKey(plan, c) := v], a[c := v])
  {
    var (m', a') := (m[CellKey(plan, c) := v], a[c := v]);
    forall d <- a' ensures Kept(plan, m', a', d) {
      if d != c {
        assert Kept(plan, m, a, d);
        SameKey(plan, c, d);
      }
    }
    forall k <- m' ensures Named(plan, a', k) {
      PutNamed(plan, m, a, c, v, k);
    }
  }

  lemma {:induction false} PutNamed(plan: Plan, m: Contents, a: Cells, c: Cell, v: Stored, k: Bytes)
    requires Represents(plan, m, a) && IsCell(plan, c) && (k in m || k == CellKey(plan, c))
    ensures Named(plan, a[c := v], k)
  {
    if k == CellKey(plan, c) {
      assert c in a[c := v];
    } else {
      assert Named(plan, a, k);
      var d :| d in a && IsCell(plan, d) && CellKey(plan, d) == k;
      assert d in a[c := v];
    }
  }

  /** Dropping keys by a test on bytes drops the cells with those keys. */
  lemma {:induction false} FilterCells(plan: Plan, m: Contents, a: Cells, m': Contents, a': Cells)
    requires Represents(plan, m, a)
    requires m'.Keys <= m.Keys && (forall k <- m' :: m'[k] == m[k]) && a'.Keys <= a.Keys && (forall c <- a' :: a'[c] == a[c])
    requires forall c <- a :: IsCell(plan, c) && (c in a' <==> CellKey(plan, c) in m')
    ensures Represents(plan, m', a')
  {
    forall c <- a' ensures Kept(plan, m', a', c) {
      assert Kept(plan, m, a, c);
    }
    forall k <- m' ensures Named(plan, a', k) {
      assert Named(plan, a, k);
      var c :| c in a && IsCell(plan, c) && CellKey(plan, c) == k;
      assert c in a';
    }
  }

  lemma {:induction false} RemoveCell(plan: Plan, m: Contents, a: Cells, c: Cell)
    requires GoodPlan(plan) && Represents(plan, m, a) && IsCell(plan, c)
    ensures Represents(plan, m - {CellKey(plan, c)}, a - {c})
  {
    var (m', a') := (m - {CellKey(plan, c)}, a - {c});
    forall d <- a ensures IsCell(plan, d) && (d in a' <==> CellKey(plan, d) in m') {
      RemovedCell(plan, m, a, c, d);
    }
    FilterCells(plan, m, a, m', a');
  }

  lemma {:induction false} RemovedCell(plan: Plan, m: Contents, a: Cells, c: Cell, d: Cell)
    requires GoodPlan(plan) && d in a && Kept(plan, m, a, d) && IsCell(plan, c)
    ensures IsCell(plan, d) && (d in a - {c} <==> CellKey(plan, d) in m - {CellKey(plan, c)})
  {
    SameKey(plan, c, d);
  }

  ghost predicate SetPlace(plan: Plan, e: string, p: seq<Step>) {
    WalkPlan(plan, e, p).Success? && ProperPath(p) && WalkPlan(plan, e, p).value.node.set_.Some?
  }

  lemma {:induction false} DeleteSetRefines(plan: Plan, m: Contents, a: Cells, e: string, p: seq<Step>)
    requires GoodPlan(plan) && Represents(plan, m, a) && SetPlace(plan, e, p)
    ensures Represents(plan, DeleteSet(m, WalkPlan(plan, e, p).value), Clear(a, e, p))
  {
    var w := WalkPlan(plan, e, p).value;
    var (m', a') := (DeleteSet(m, w), Clear(a, e, p));
    forall c <- a ensures IsCell(plan, c) && (c in a' <==> CellKey(plan, c) in m') {
      assert Kept(plan, m, a, c);
      FastScanRangeExact(plan, e, p, c);
      DataRangeExact(plan, e, p, c);
    }
    FilterCells(plan, m, a, m', a');
  }

  lemma {:induction false} DeleteEntryRefines(plan: Plan, m: Contents, a: Cells, e: string, p: seq<Step>, pk: Bytes)
    requires GoodPlan(plan) && Represents(plan, m, a) && SetPlace(plan, e, p) && IsPrimaryKey(pk)
    ensures Represents(plan, DeleteEntry(m, WalkPlan(plan, e, p).value, pk), DropEntry(a, e, p, pk))
  {
    var (m', a') := (DeleteEntry(m, WalkPlan(plan, e, p).value, pk), DropEntry(a, e, p, pk));
    forall c <- a ensures IsCell(plan, c) && (c in a' <==> CellKey(plan, c) in m') {
      DroppedCell(plan, m, a, e, p, pk, c);
    }
    FilterCells(plan, m, a, m', a');
  }

  lemma {:induction false} LeftByDelete(m: Contents, w: Walker, pk: Bytes, k: Bytes)
    ensures var lo := KeyOf(w) + EntryKey(pk);
      k in DeleteEntry(m, w, pk) <==> k in m && k != FastScanPrefix(w) + pk && !InRange(k, lo, Bump(lo))
  {
    Associate(KeyOf(w), [DATA_MARK], pk);
    Associate(KeyOf(w), [DATA_MARK] + pk, [0]);
  }

  lemma {:induction false} DroppedCell(plan: Plan, m: Contents, a: Cells, e: string, p: seq<Step>, pk: Bytes, c: Cell)
    requires GoodPlan(plan) && c in a && Kept(plan, m, a, c) && SetPlace(plan, e, p) && IsPrimaryKey(pk)
    ensures IsCell(plan, c)
    ensures c in DropEntry(a, e, p, pk) <==> CellKey(plan, c) in DeleteEntry(m, WalkPlan(plan, e, p).value, pk)
  {
    LeftByDelete(m, WalkPlan(plan, e, p).value, pk, CellKey(plan, c));
    IndexCell(plan, e, p, pk);
    EntryRangeExact(plan, e, p, pk, c);
    SameKey(plan, c, Index(e, p, pk));
  }

  // ---------------------------------------------------------------------------
  // Writing refines writing

  lemma {:induction false} StepPlace(plan: Plan, e: string, p: seq<Step>, step: Step)
    requires WalkPlan(plan, e, p).Success? && ProperPath(p) && Enter(WalkPlan(plan, e, p).value, step).Success?
    requires step.Entry? ==> IsPrimaryKey(step.primaryKey)
    ensures WalkPlan(plan, e, p + [step]) == Enter(WalkPlan(plan, e, p).value, step) && ProperPath(p + [step])
  {
    WalkConcat(FromExport(plan, e).value, p, [step]);
    var w := WalkPlan(plan, e, p).value;
    assert [step][1..] == [];
    assert Walk(Enter(w, step).value, []) == Success(Enter(w, step).value);
  }

  lemma {:induction false} DataCell(plan: Plan, e: string, p: seq<Step>)
    requires WalkPlan(plan, e, p).Success?
    ensures CellKey(plan, Data(e, p)) == KeyOf(WalkPlan(plan, e, p).value)
  {
    assert CellSuffix(Data(e, p)) == [];
  }

  lemma {:induction false} IndexCell(plan: Plan, e: string, p: seq<Step>, pk: Bytes)
    requires WalkPlan(plan, e, p).Success?
    ensures CellKey(plan, Index(e, p, pk)) == FastScanPrefix(WalkPlan(plan, e, p).value) + pk
  {
    Associate(KeyOf(WalkPlan(plan, e, p).value), [INDEX_MARK], pk);
  }

  /** Writing a document to the store does to the keys what writing it to the cells does to the cells. */
  lemma {:induction false} InsertRefines(primary: Primary, plan: Plan, m: Contents, a: Cells, e: string, p: seq<Step>,
                                         doc: Doc)
    requires GoodPlan(plan) && Represents(plan, m, a) && WalkPlan(plan, e, p).Success? && ProperPath(p)
    requires Proper(primary, e, p, doc) && Insert(m, WalkPlan(plan, e, p).value, doc).Success?
    ensures Represents(plan, Insert(m, WalkPlan(plan, e, p).value, doc).value, Write(a, e, p, doc))
    decreases doc, 0
  {
    var w := WalkPlan(plan, e, p).value;
    DataCell(plan, e, p);
    match doc
    case Nothing => RemoveCell(plan, m, a, Data(e, p));
    case Prim(v) => PutCell(plan, m, a, Data(e, p), Packed(v));
    case Row(fields) =>
      PutCell(plan, m, a, Data(e, p), Marker);
      FieldsRefine(primary, plan, m[KeyOf(w) := Marker], a[Data(e, p) := Marker], e, p, fields);
    case Rows(members) =>
      PutCell(plan, m, a, Data(e, p), Marker);
      DeleteSetRefines(plan, m[KeyOf(w) := Marker], a[Data(e, p) := Marker], e, p);
      MembersRefine(primary, plan, DeleteSet(m[KeyOf(w) := Marker], w), Clear(a[Data(e, p) := Marker], e, p), e, p, members);
  }

  lemma {:induction false} FieldsRefine(primary: Primary, plan: Plan, m: Contents, a: Cells, e: string, p: seq<Step>,
                                        fields: seq<Part>)
    requires GoodPlan(plan) && Represents(plan, m, a) && WalkPlan(plan, e, p).Success? && ProperPath(p)
    requires forall i :: 0 <= i < |fields| ==> Proper(primary, e, p + [Into(fields[i].name)], fields[i].doc)
    requires InsertFields(m, WalkPlan(plan, e, p).value, fields).Success?
    ensures Represents(plan, InsertFields(m, WalkPlan(plan, e, p).value, fields).value, WriteFields(a, e, p, fields))
    decreases fields, 0
  {
    if fields != [] {
      var step := Into(fields[0].name);
      StepPlace(plan, e, p, step);
      InsertRefines(primary, plan, m, a, e, p + [step], fields[0].doc);
      var m' := Insert(m, WalkPlan(plan, e, p + [step]).value, fields[0].doc).value;
      FieldsRefine(primary, plan, m', Write(a, e, p + [step], fields[0].doc), e, p, fields[1..]);
    }
  }

  lemma {:induction false} MembersRefine(primary: Primary, plan: Plan, m: Contents, a: Cells, e: string, p: seq<Step>,
                                         members: seq<Member>)
    requires GoodPlan(plan) && Represents(plan, m, a) && SetPlace(plan, e, p)
    requires forall i :: 0 <= i < |members| ==>
      IsPrimaryKey(members[i].primaryKey) && Proper(primary, e, p + [Entry(members[i].primaryKey)], members[i].doc)
    requires InsertMembers(m, WalkPlan(plan, e, p).value, members).Success?
    ensures Represents(plan, InsertMembers(m, WalkPlan(plan, e, p).value, members).value, WriteMembers(a, e, p, members))
    decreases members, 0
  {
    if members != [] {
      var (pk, doc) := (members[0].primaryKey, members[0].doc);
      MemberRefines(primary, plan, m, a, e, p, pk, doc);
      var m' := InsertMember(m, WalkPlan(plan, e, p).value, pk, doc).value;
      MembersRefine(primary, plan, m', WriteMember(a, e, p, pk, doc), e, p, members[1..]);
    }
  }

  lemma {:induction false} MemberRefines(primary: Primary, plan: Plan, m: Contents, a: Cells, e: string, p: seq<Step>,
                                         pk: Bytes, doc: Doc)
    requires GoodPlan(plan) && Represents(plan, m, a) && SetPlace(plan, e, p)
    requires IsPrimaryKey(pk) && Proper(primary, e, p + [Entry(pk)], doc)
    requires InsertMember(m, WalkPlan(plan, e, p).value, pk, doc).Success?
    ensures Represents(plan, InsertMember(m, WalkPlan(plan, e, p).value, pk, doc).value, WriteMember(a, e, p, pk, doc))
    decreases doc, 1
  {
    IndexCell(plan, e, p, pk);
    PutCell(plan, m, a, Index(e, p, pk), Marker);
    StepPlace(plan, e, p, Entry(pk));
    InsertRefines(primary, plan, m[CellKey(plan, Index(e, p, pk)) := Marker], a[Index(e, p, pk) := Marker], e,
                  p + [Entry(pk)], doc);
  }
}
