/**
 What the executor's effect nodes do, seen from outside: which effects succeed, what scans
 and reads find after them, and that everything else is as before.
 */
module EffectLaws {
  import opened Wrappers
  import opened ByteStrings
  import opened KeyEncoding
  import opened StoragePlans
  import opened PathWalker
  import opened KeySpace
  import opened DocumentStore
  import opened IndexAgreement
  import opened StoredDocuments
  import opened RoundTrip

  /** Every cell outside the entry has its value of before. */
  ghost predicate OnlyEntryChanged(plan: Plan, m: Contents, m': Contents, e: string, q: seq<Step>, pk: Bytes) {
    forall c :: IsCell(plan, c) && !Below(e, q + [Entry(pk)], c) && c != Index(e, q, pk) ==> SameCell(plan, m, m', c)
  }

  ghost predicate SameCell(plan: Plan, m: Contents, m': Contents, c: Cell)
    requires IsCell(plan, c)
  {
    var k := CellKey(plan, c);
    (k in m <==> k in m') && (k in m ==> m[k] == m'[k])
  }

  lemma {:induction false} CellSame(plan: Plan, m: Contents, a: Cells, m': Contents, a': Cells, c: Cell)
    requires GoodPlan(plan) && Represents(plan, m, a) && Represents(plan, m', a') && IsCell(plan, c) && SameAt(a, a', c)
    ensures SameCell(plan, m, m', c)
  {
    CellLookup(plan, m, a, c);
    CellLookup(plan, m', a', c);
  }

  // ---------------------------------------------------------------------------
  // Which effects succeed

  /** An effect fails exactly if its place, or a place of its document, cannot be walked to. */
  lemma {:induction false} EffectSucceedsIff(plan: Plan, m: Contents, eff: Effect)
    ensures ApplyStored(plan, m, eff).Success? <==>
      match eff
      case InsertIntoSet(e, q, pk, row) =>
        row.Nothing? ||
        (WalkPlan(plan, e, q).Success? && WalkPlan(plan, e, q).value.node.set_.Some? &&
         EnterSet(WalkPlan(plan, e, q).value, pk).Success? && Walkable(EnterSet(WalkPlan(plan, e, q).value, pk).value, row))
      case InsertIntoTable(e, p, name, doc) =>
        doc.Nothing? ||
        (WalkPlan(plan, e, p + [Into(name)]).Success? && Walkable(WalkPlan(plan, e, p + [Into(name)]).value, doc))
      case DeleteFromSet(e, q, _) => WalkPlan(plan, e, q).Success? && WalkPlan(plan, e, q).value.node.set_.Some?
  {
    match eff
    case InsertIntoSet(e, q, pk, row) =>
      if WalkPlan(plan, e, q).Success? && EnterSet(WalkPlan(plan, e, q).value, pk).Success? {
        var w := WalkPlan(plan, e, q).value;
        InsertSucceedsIff(m[FastScanPrefix(w) + pk := Marker], EnterSet(w, pk).value, row);
      }
    case InsertIntoTable(e, p, name, doc) =>
      var r := WalkPlan(plan, e, p + [Into(name)]);
      if r.Success? { InsertSucceedsIff(m, r.value, doc); }
    case DeleteFromSet(_, _, _) =>
  }

  /** Inserting null does nothing. */
  lemma {:induction false} NullIsSkipped(plan: Plan, m: Contents, eff: Effect)
    requires (eff.InsertIntoSet? && eff.row == Nothing) || (eff.InsertIntoTable? && eff.doc == Nothing)
    ensures ApplyStored(plan, m, eff) == Success(m)
  {
  }

  // ---------------------------------------------------------------------------
  // Members

  /** The index entry of a member does not lie below the member. */
  lemma {:induction false} IndexOutside(e: string, q: seq<Step>, pk: Bytes, x: Bytes)
    ensures !Below(e, q + [Entry(pk)], Index(e, q, x))
  {
  }

  /** A scan of the set finds one member more. */
  lemma {:induction false} InsertScans(primary: Primary, plan: Plan, m: Contents, a: Cells, e: string, q: seq<Step>,
                                       pk: Bytes, row: Doc)
    requires GoodPlan(plan) && Represents(plan, m, a) && SetPlace(plan, e, q)
    requires IsPrimaryKey(pk) && Proper(primary, e, q + [Entry(pk)], row)
    requires InsertMember(m, WalkPlan(plan, e, q).value, pk, row).Success?
    ensures var w := WalkPlan(plan, e, q).value;
      ScannedKeys(InsertMember(m, w, pk, row).value, w) == ScannedKeys(m, w) + {pk}
  {
    var w := WalkPlan(plan, e, q).value;
    var (m', a') := (InsertMember(m, w, pk, row).value, WriteMember(a, e, q, pk, row));
    MemberRefines(primary, plan, m, a, e, q, pk, row);
    ScanLists(plan, m, a, e, q);
    ScanLists(plan, m', a', e, q);
    OneMore(ScannedKeys(m, w), a, ScannedKeys(m', w), a', e, q, pk, row);
  }

  lemma {:induction false} IndexedAfterInsert(a: Cells, e: string, q: seq<Step>, pk: Bytes, row: Doc, x: Bytes)
    ensures Index(e, q, x) in WriteMember(a, e, q, pk, row) <==> Index(e, q, x) in a || x == pk
  {
    IndexOutside(e, q, pk, x);
    WriteFrame(a[Index(e, q, pk) := Marker], e, q + [Entry(pk)], row, Index(e, q, x));
  }

  /** The primary keys under which the cells have index entries for a set. */
  ghost predicate Lists(s: set<Bytes>, a: Cells, e: string, q: seq<Step>) {
    forall x :: x in s <==> Index(e, q, x) in a
  }

  lemma {:induction false} ScanLists(plan: Plan, m: Contents, a: Cells, e: string, q: seq<Step>)
    requires GoodPlan(plan) && Represents(plan, m, a) && SetPlace(plan, e, q)
    ensures Lists(ScannedKeys(m, WalkPlan(plan, e, q).value), a, e, q)
  {
    var s := ScannedKeys(m, WalkPlan(plan, e, q).value);
    forall x ensures x in s <==> Index(e, q, x) in a { ScanYieldsIndex(plan, m, a, e, q, x); }
  }

  lemma {:induction false} OneMore(s: set<Bytes>, a: Cells, s': set<Bytes>, a': Cells, e: string, q: seq<Step>, pk: Bytes,
                                   row: Doc)
    requires Lists(s, a, e, q) && Lists(s', a', e, q) && a' == WriteMember(a, e, q, pk, row)
    ensures s' == s + {pk}
  {
    forall x ensures x in s' <==> x in s || x == pk { IndexedAfterInsert(a, e, q, pk, row, x); }
  }

  lemma {:induction false} OneLess(s: set<Bytes>, a: Cells, s': set<Bytes>, a': Cells, e: string, q: seq<Step>, pk: Bytes)
    requires Lists(s, a, e, q) && Lists(s', a', e, q) && a' == DropEntry(a, e, q, pk)
    ensures s' == s - {pk}
  {
    forall x ensures x in s' <==> x in s && x != pk { DroppedCells(a, e, q, pk, Index(e, q, x)); }
  }

  /** Reading the member returns the row, if the row survives storing and nothing lay below its nulls. */
  lemma {:induction false} InsertReads(primary: Primary, plan: Plan, m: Contents, a: Cells, e: string, q: seq<Step>,
                                       pk: Bytes, row: Doc)
    requires GoodPlan(plan) && Represents(plan, m, a) && SetPlace(plan, e, q)
    requires IsPrimaryKey(pk) && Proper(primary, e, q + [Entry(pk)], row)
    requires InsertMember(m, WalkPlan(plan, e, q).value, pk, row).Success?
    ensures var w := WalkPlan(plan, e, q).value;
      ReadsBack(InsertMember(m, w, pk, row).value, EnterSet(w, pk).value, row) <==>
      Survives(row) && Vacant(m, EnterSet(w, pk).value, row)
  {
    var (w, p) := (WalkPlan(plan, e, q).value, q + [Entry(pk)]);
    var (m1, a1) := (m[FastScanPrefix(w) + pk := Marker], a[Index(e, q, pk) := Marker]);
    IndexedFirst(plan, m, a, e, q, pk);
    StepPlace(plan, e, q, Entry(pk));
    InsertSucceedsIff(m1, EnterSet(w, pk).value, row);
    WriteThenRead(primary, plan, m1, a1, e, p, row);
    VacantAnyway(plan, m, a, m1, a1, e, q, pk, row);
  }

  lemma {:induction false} IndexedFirst(plan: Plan, m: Contents, a: Cells, e: string, q: seq<Step>, pk: Bytes)
    requires GoodPlan(plan) && Represents(plan, m, a) && SetPlace(plan, e, q) && IsPrimaryKey(pk)
    ensures Represents(plan, m[FastScanPrefix(WalkPlan(plan, e, q).value) + pk := Marker], a[Index(e, q, pk) := Marker])
  {
    IndexCell(plan, e, q, pk);
    PutCell(plan, m, a, Index(e, q, pk), Marker);
  }

  /** The index entry makes no difference to what can be read below the member. */
  lemma {:induction false} VacantAnyway(plan: Plan, m: Contents, a: Cells, m1: Contents, a1: Cells, e: string,
                                        q: seq<Step>, pk: Bytes, row: Doc)
    requires GoodPlan(plan) && Represents(plan, m, a) && Represents(plan, m1, a1) && a1 == a[Index(e, q, pk) := Marker]
    requires var p := q + [Entry(pk)]; WalkPlan(plan, e, p).Success? && ProperPath(p) && Walkable(WalkPlan(plan, e, p).value, row)
    ensures var w := WalkPlan(plan, e, q + [Entry(pk)]).value; Vacant(m, w, row) <==> Vacant(m1, w, row)
  {
    IndexOutside(e, q, pk, pk);
    BareSame(true, a, a1, e, q + [Entry(pk)], row);
    VacantIff(plan, m, a, e, q + [Entry(pk)], row);
    VacantIff(plan, m1, a1, e, q + [Entry(pk)], row);
  }

  lemma {:induction false} InsertLeavesOthers(primary: Primary, plan: Plan, m: Contents, a: Cells, e: string,
                                              q: seq<Step>, pk: Bytes, row: Doc)
    requires GoodPlan(plan) && Represents(plan, m, a) && SetPlace(plan, e, q)
    requires IsPrimaryKey(pk) && Proper(primary, e, q + [Entry(pk)], row)
    requires InsertMember(m, WalkPlan(plan, e, q).value, pk, row).Success?
    ensures OnlyEntryChanged(plan, m, InsertMember(m, WalkPlan(plan, e, q).value, pk, row).value, e, q, pk)
  {
    var (m', a') := (InsertMember(m, WalkPlan(plan, e, q).value, pk, row).value, WriteMember(a, e, q, pk, row));
    MemberRefines(primary, plan, m, a, e, q, pk, row);
    forall c | IsCell(plan, c) && !Below(e, q + [Entry(pk)], c) && c != Index(e, q, pk) ensures SameCell(plan, m, m', c) {
      WriteFrame(a[Index(e, q, pk) := Marker], e, q + [Entry(pk)], row, c);
      CellSame(plan, m, a, m', a', c);
    }
  }

  /**
   `InsertIntoSet` of a row: the set has its members of before and this one, reading it returns the row exactly if no
   double in it has a clear sign bit and nothing could be read before below its nulls, and all other cells are as before.
   */
  lemma {:induction false} InsertedMember(primary: Primary, plan: Plan, m: Contents, a: Cells, eff: Effect)
    requires GoodPlan(plan) && Represents(plan, m, a) && ProperEffect(primary, eff) && ApplyStored(plan, m, eff).Success?
    requires eff.InsertIntoSet? && !eff.row.Nothing?
    ensures SetPlace(plan, eff.e, eff.set_) && EnterSet(WalkPlan(plan, eff.e, eff.set_).value, eff.primaryKey).Success?
    ensures var (w, m') := (WalkPlan(plan, eff.e, eff.set_).value, ApplyStored(plan, m, eff).value);
      ScannedKeys(m', w) == ScannedKeys(m, w) + {eff.primaryKey} &&
      (ReadsBack(m', EnterSet(w, eff.primaryKey).value, eff.row) <==>
       Survives(eff.row) && Vacant(m, EnterSet(w, eff.primaryKey).value, eff.row)) &&
      OnlyEntryChanged(plan, m, m', eff.e, eff.set_, eff.primaryKey)
  {
    InsertScans(primary, plan, m, a, eff.e, eff.set_, eff.primaryKey, eff.row);
    InsertReads(primary, plan, m, a, eff.e, eff.set_, eff.primaryKey, eff.row);
    InsertLeavesOthers(primary, plan, m, a, eff.e, eff.set_, eff.primaryKey, eff.row);
  }

  lemma {:induction false} DroppedCells(a: Cells, e: string, q: seq<Step>, pk: Bytes, c: Cell)
    ensures if Below(e, q + [Entry(pk)], c) || c == Index(e, q, pk) then c !in DropEntry(a, e, q, pk)
            else SameAt(a, DropEntry(a, e, q, pk), c)
  {
  }

  lemma {:induction false} DeleteScans(plan: Plan, m: Contents, a: Cells, e: string, q: seq<Step>, pk: Bytes)
    requires GoodPlan(plan) && Represents(plan, m, a) && SetPlace(plan, e, q) && IsPrimaryKey(pk)
    ensures var w := WalkPlan(plan, e, q).value; ScannedKeys(DeleteEntry(m, w, pk), w) == ScannedKeys(m, w) - {pk}
  {
    var w := WalkPlan(plan, e, q).value;
    var (m', a') := (DeleteEntry(m, w, pk), DropEntry(a, e, q, pk));
    DeleteEntryRefines(plan, m, a, e, q, pk);
    ScanLists(plan, m, a, e, q);
    ScanLists(plan, m', a', e, q);
    OneLess(ScannedKeys(m, w), a, ScannedKeys(m', w), a', e, q, pk);
  }

  lemma {:induction false} DeleteLeavesOthers(plan: Plan, m: Contents, a: Cells, e: string, q: seq<Step>, pk: Bytes)
    requires GoodPlan(plan) && Represents(plan, m, a) && SetPlace(plan, e, q) && IsPrimaryKey(pk)
    ensures OnlyEntryChanged(plan, m, DeleteEntry(m, WalkPlan(plan, e, q).value, pk), e, q, pk)
  {
    var (m', a') := (DeleteEntry(m, WalkPlan(plan, e, q).value, pk), DropEntry(a, e, q, pk));
    DeleteEntryRefines(plan, m, a, e, q, pk);
    forall c | IsCell(plan, c) && !Below(e, q + [Entry(pk)], c) && c != Index(e, q, pk) ensures SameCell(plan, m, m', c) {
      DroppedCells(a, e, q, pk, c);
      CellSame(plan, m, a, m', a', c);
    }
  }

  /**
   `DeleteFromSet`: the set has its members of before but this one, nothing can be read at or below its place, and all
   other cells are as before.
   */
  lemma {:induction false} DeletedMember(primary: Primary, plan: Plan, m: Contents, a: Cells, eff: Effect)
    requires GoodPlan(plan) && Represents(plan, m, a) && ProperEffect(primary, eff) && ApplyStored(plan, m, eff).Success?
    requires eff.DeleteFromSet?
    ensures SetPlace(plan, eff.e, eff.set_)
    ensures var (w, m') := (WalkPlan(plan, eff.e, eff.set_).value, ApplyStored(plan, m, eff).value);
      ScannedKeys(m', w) == ScannedKeys(m, w) - {eff.primaryKey} &&
      (EnterSet(w, eff.primaryKey).Success? ==> ReadsBack(m', EnterSet(w, eff.primaryKey).value, Nothing)) &&
      OnlyEntryChanged(plan, m, m', eff.e, eff.set_, eff.primaryKey)
  {
    var (e, q, pk) := (eff.e, eff.set_, eff.primaryKey);
    var w := WalkPlan(plan, e, q).value;
    DeleteScans(plan, m, a, e, q, pk);
    DeleteLeavesOthers(plan, m, a, e, q, pk);
    DeleteEntryRefines(plan, m, a, e, q, pk);
    if EnterSet(w, pk).Success? { DeletedReads(plan, DeleteEntry(m, w, pk), DropEntry(a, e, q, pk), e, q, pk); }
  }

  lemma {:induction false} DeletedReads(plan: Plan, m: Contents, a: Cells, e: string, q: seq<Step>, pk: Bytes)
    requires GoodPlan(plan) && Represents(plan, m, a) && SetPlace(plan, e, q) && IsPrimaryKey(pk)
    requires EnterSet(WalkPlan(plan, e, q).value, pk).Success? && forall c <- a :: !Below(e, q + [Entry(pk)], c)
    ensures ReadsBack(m, EnterSet(WalkPlan(plan, e, q).value, pk).value, Nothing)
  {
    var p := q + [Entry(pk)];
    StepPlace(plan, e, q, Entry(pk));
    assert Below(e, p, Data(e, p));
    OwnKey(plan, m, a, e, p);
    NothingBelowIff(plan, m, a, e, p);
  }

  // ---------------------------------------------------------------------------
  // Fields

  /** `InsertIntoTable`: reading the field returns what was written, on the same condition, and all else is as before. */
  lemma {:induction false} InsertedField(primary: Primary, plan: Plan, m: Contents, a: Cells, eff: Effect)
    requires GoodPlan(plan) && Represents(plan, m, a) && ProperEffect(primary, eff) && ApplyStored(plan, m, eff).Success?
    requires eff.InsertIntoTable? && !eff.doc.Nothing?
    ensures WalkPlan(plan, eff.e, eff.table + [Into(eff.name)]).Success?
    ensures var (w, m') := (WalkPlan(plan, eff.e, eff.table + [Into(eff.name)]).value, ApplyStored(plan, m, eff).value);
      (ReadsBack(m', w, eff.doc) <==> Survives(eff.doc) && Vacant(m, w, eff.doc)) &&
      forall c :: IsCell(plan, c) && !Below(eff.e, eff.table + [Into(eff.name)], c) ==> SameCell(plan, m, m', c)
  {
    var p := eff.table + [Into(eff.name)];
    WriteThenRead(primary, plan, m, a, eff.e, p, eff.doc);
    forall c | IsCell(plan, c) && !Below(eff.e, p, c) ensures SameCell(plan, m, ApplyStored(plan, m, eff).value, c) {
      WriteLeavesOthers(primary, plan, m, a, eff.e, p, eff.doc, c);
    }
  }

  // ---------------------------------------------------------------------------
  // Runs

  /** A run with one more effect is the run followed by that effect. */
  lemma {:induction false} RunSnoc(plan: Plan, m: Contents, effects: seq<Effect>, eff: Effect)
    ensures RunStored(plan, m, effects + [eff]) ==
      match RunStored(plan, m, effects) case Failure(x) => Failure(x) case Success(m') => ApplyStored(plan, m', eff)
    decreases |effects|
  {
    if effects == [] {
      assert [] + [eff] == [eff] && [eff][1..] == [];
    } else {
      assert (effects + [eff])[0] == effects[0] && (effects + [eff])[1..] == effects[1..] + [eff];
      var r := ApplyStored(plan, m, effects[0]);
      if r.Success? { RunSnoc(plan, r.value, effects[1..], eff); }
    }
  }
}
