/**
 What is read back: reading a written document returns it, except that doubles with a
 clear sign bit come back as integers, and that what lay below a null is still there.
 Scans visit exactly the members of a set.
 */
module RoundTrip {
  import opened Wrappers
  import opened ByteStrings
  import opened KeyEncoding
  import opened StoragePlans
  import opened PathWalker
  import opened KeySpace
  import opened DocumentStore
  import opened IndexAgreement
  import opened StoredDocuments

  // ---------------------------------------------------------------------------
  // Reading

  /**
   Unpacking tries string, bytes, int64 and double in this order on an untagged number, so a double's bit pattern that
   fits a signed word is taken for an integer.
   */
  function Unpack(v: PrimitiveValue): PrimitiveValue {
    if v.Double? && v.bits < TOP_BIT then Int64(v.bits) else v
  }

  /** The primitive branch of `read_table_element`; a marker does not unpack. */
  function ReadPrimitive(m: Contents, w: Walker): Result<Option<PrimitiveValue>, ()> {
    if KeyOf(w) !in m then Success(None)
    else if m[KeyOf(w)].Marker? then Failure(())
    else Success(Some(Unpack(m[KeyOf(w)].value)))
  }

  /** The primary keys that a full scan of a set yields. */
  function ScannedKeys(m: Contents, w: Walker): set<Bytes> {
    set k | k in m && FastScanPrefix(w) <= k :: k[|FastScanPrefix(w)|..]
  }

  /** No field read and no scan below the place finds anything. */
  ghost predicate NothingBelow(m: Contents, w: Walker) {
    forall q :: ProperPath(q) && Walk(w, q).Success? ==>
      var x := Walk(w, q).value;
      (q != [] ==> KeyOf(x) !in m) && (x.node.set_.Some? ==> ScannedKeys(m, x) == {})
  }

  /** Reading the place field by field and member by member gives exactly the document. */
  ghost predicate ReadsBack(m: Contents, w: Walker, doc: Doc)
    decreases doc
  {
    match doc
    case Nothing => ReadPrimitive(m, w) == Success(None) && NothingBelow(m, w)
    case Prim(v) => ReadPrimitive(m, w) == Success(Some(v))
    case Row(fields) =>
      KeyOf(w) in m &&
      forall i :: 0 <= i < |fields| ==>
        EnterField(w, fields[i].name).Success? && ReadsBack(m, EnterField(w, fields[i].name).value, fields[i].doc)
    case Rows(members) =>
      KeyOf(w) in m && ScannedKeys(m, w) == PrimaryKeys(members) &&
      forall i :: 0 <= i < |members| ==>
        EnterSet(w, members[i].primaryKey).Success? && ReadsBack(m, EnterSet(w, members[i].primaryKey).value, members[i].doc)
  }

  /** No double in the document has a clear sign bit. */
  predicate Survives(doc: Doc)
    decreases doc
  {
    match doc
    case Nothing => true
    case Prim(v) => v.Double? ==> v.bits >= TOP_BIT
    case Row(fields) => forall i :: 0 <= i < |fields| ==> Survives(fields[i].doc)
    case Rows(members) => forall i :: 0 <= i < |members| ==> Survives(members[i].doc)
  }

  /** Nothing can be read below the nulls that the document does not put into a new set. */
  ghost predicate Vacant(m: Contents, w: Walker, doc: Doc)
    decreases doc
  {
    match doc
    case Nothing => NothingBelow(m, w)
    case Prim(_) => true
    case Row(fields) =>
      forall i :: 0 <= i < |fields| && EnterField(w, fields[i].name).Success? ==>
        Vacant(m, EnterField(w, fields[i].name).value, fields[i].doc)
    case Rows(_) => true
  }

  /** Every place of the document can be walked to. */
  predicate Walkable(w: Walker, doc: Doc)
    decreases doc
  {
    match doc
    case Nothing => true
    case Prim(_) => true
    case Row(fields) =>
      forall i :: 0 <= i < |fields| ==>
        EnterField(w, fields[i].name).Success? && Walkable(EnterField(w, fields[i].name).value, fields[i].doc)
    case Rows(members) =>
      w.node.set_.Some? &&
      forall i :: 0 <= i < |members| ==>
        EnterSet(w, members[i].primaryKey).Success? && Walkable(EnterSet(w, members[i].primaryKey).value, members[i].doc)
  }

  /** A write succeeds if and only if all its places can be walked to, whatever is stored. */
  lemma {:induction false} InsertSucceedsIff(m: Contents, w: Walker, doc: Doc)
    ensures Insert(m, w, doc).Success? <==> Walkable(w, doc)
    decreases doc, 0
  {
    match doc
    case Nothing =>
    case Prim(_) =>
    case Row(fields) => FieldsSucceedIff(m[KeyOf(w) := Marker], w, fields);
    case Rows(members) =>
      if w.node.set_.Some? { MembersSucceedIff(DeleteSet(m[KeyOf(w) := Marker], w), w, members); }
  }

  lemma {:induction false} FieldsSucceedIff(m: Contents, w: Walker, fields: seq<Part>)
    ensures InsertFields(m, w, fields).Success? <==> forall i :: 0 <= i < |fields| ==>
      EnterField(w, fields[i].name).Success? && Walkable(EnterField(w, fields[i].name).value, fields[i].doc)
    decreases fields, 0
  {
    if fields != [] && EnterField(w, fields[0].name).Success? {
      var w' := EnterField(w, fields[0].name).value;
      InsertSucceedsIff(m, w', fields[0].doc);
      if Walkable(w', fields[0].doc) { FieldsSucceedIff(Insert(m, w', fields[0].doc).value, w, fields[1..]); }
      assert forall i :: 1 <= i < |fields| ==> fields[i] == fields[1..][i - 1];
    }
  }

  lemma {:induction false} MembersSucceedIff(m: Contents, w: Walker, members: seq<Member>)
    ensures InsertMembers(m, w, members).Success? <==> forall i :: 0 <= i < |members| ==>
      EnterSet(w, members[i].primaryKey).Success? && Walkable(EnterSet(w, members[i].primaryKey).value, members[i].doc)
    decreases members, 0
  {
    if members != [] && EnterSet(w, members[0].primaryKey).Success? {
      var (pk, doc) := (members[0].primaryKey, members[0].doc);
      InsertSucceedsIff(m[FastScanPrefix(w) + pk := Marker], EnterSet(w, pk).value, doc);
      if Walkable(EnterSet(w, pk).value, doc) { MembersSucceedIff(InsertMember(m, w, pk, doc).value, w, members[1..]); }
      assert forall i :: 1 <= i < |members| ==> members[i] == members[1..][i - 1];
    }
  }

  // ---------------------------------------------------------------------------
  // Writing, then reading

  /** A full scan yields exactly the indexed primary keys. */
  lemma {:induction false} ScanYieldsIndex(plan: Plan, m: Contents, a: Cells, e: string, p: seq<Step>, pk: Bytes)
    requires GoodPlan(plan) && Represents(plan, m, a) && SetPlace(plan, e, p)
    ensures pk in ScannedKeys(m, WalkPlan(plan, e, p).value) <==> Index(e, p, pk) in a
  {
    var w := WalkPlan(plan, e, p).value;
    var prefix := FastScanPrefix(w);
    IndexCell(plan, e, p, pk);
    assert (prefix + pk)[|prefix|..] == pk && prefix <= prefix + pk;
    if Index(e, p, pk) in a {
      assert Kept(plan, m, a, Index(e, p, pk));
    } else if pk in ScannedKeys(m, w) {
      var k :| k in m && prefix <= k && k[|prefix|..] == pk;
      ScannedCell(plan, m, a, e, p, k);
    }
  }

  lemma {:induction false} ScannedCell(plan: Plan, m: Contents, a: Cells, e: string, p: seq<Step>, k: Bytes)
    requires GoodPlan(plan) && Represents(plan, m, a) && SetPlace(plan, e, p)
    requires k in m && FastScanPrefix(WalkPlan(plan, e, p).value) <= k
    ensures Index(e, p, k[|FastScanPrefix(WalkPlan(plan, e, p).value)|..]) in a
  {
    var prefix := FastScanPrefix(WalkPlan(plan, e, p).value);
    assert Named(plan, a, k);
    var c :| c in a && IsCell(plan, c) && CellKey(plan, c) == k;
    FastScanRangeExact(plan, e, p, c);
    PrefixRange(prefix, k);
    IndexCell(plan, e, p, c.primaryKey);
    assert c.primaryKey == (prefix + c.primaryKey)[|prefix|..];
  }

  lemma {:induction false} ScanIsMembers(plan: Plan, m: Contents, a: Cells, e: string, p: seq<Step>,
                                         members: seq<Member>)
    requires GoodPlan(plan) && Represents(plan, m, a) && SetPlace(plan, e, p) && OnlyMembers(a, e, p, members)
    ensures ScannedKeys(m, WalkPlan(plan, e, p).value) == PrimaryKeys(members)
  {
    forall pk ensures pk in ScannedKeys(m, WalkPlan(plan, e, p).value) <==> pk in PrimaryKeys(members) {
      ScanYieldsIndex(plan, m, a, e, p, pk);
    }
  }

  lemma {:induction false} OwnKey(plan: Plan, m: Contents, a: Cells, e: string, p: seq<Step>)
    requires GoodPlan(plan) && Represents(plan, m, a) && WalkPlan(plan, e, p).Success? && ProperPath(p)
    ensures KeyOf(WalkPlan(plan, e, p).value) in m <==> Data(e, p) in a
    ensures Data(e, p) in a ==> m[KeyOf(WalkPlan(plan, e, p).value)] == a[Data(e, p)]
  {
    DataCell(plan, e, p);
    CellLookup(plan, m, a, Data(e, p));
  }

  /** What can be read below a place is what the cells below it are. */
  lemma {:induction false} NothingBelowIff(plan: Plan, m: Contents, a: Cells, e: string, p: seq<Step>)
    requires GoodPlan(plan) && Represents(plan, m, a) && WalkPlan(plan, e, p).Success? && ProperPath(p)
    ensures NothingBelow(m, WalkPlan(plan, e, p).value) <==> forall c <- a :: Below(e, p, c) ==> c == Data(e, p)
  {
    var w := WalkPlan(plan, e, p).value;
    if forall c <- a :: Below(e, p, c) ==> c == Data(e, p) {
      forall q | ProperPath(q) && Walk(w, q).Success?
        ensures var x := Walk(w, q).value;
          (q != [] ==> KeyOf(x) !in m) && (x.node.set_.Some? ==> ScannedKeys(m, x) == {})
      {
        UnreadBelow(plan, m, a, e, p, q);
      }
    }
    if NothingBelow(m, w) {
      forall c <- a | Below(e, p, c) ensures c == Data(e, p) {
        if c != Data(e, p) { var q := ReadBelow(plan, m, a, e, p, c); }
      }
    }
  }

  lemma {:induction false} PlaceBelow(plan: Plan, e: string, p: seq<Step>, q: seq<Step>)
    requires WalkPlan(plan, e, p).Success? && ProperPath(p) && ProperPath(q)
    ensures WalkPlan(plan, e, p + q) == Walk(WalkPlan(plan, e, p).value, q) && ProperPath(p + q)
  {
    WalkConcat(FromExport(plan, e).value, p, q);
  }

  lemma {:induction false} UnreadBelow(plan: Plan, m: Contents, a: Cells, e: string, p: seq<Step>, q: seq<Step>)
    requires GoodPlan(plan) && Represents(plan, m, a) && WalkPlan(plan, e, p).Success? && ProperPath(p) && ProperPath(q)
    requires Walk(WalkPlan(plan, e, p).value, q).Success? && forall c <- a :: Below(e, p, c) ==> c == Data(e, p)
    ensures var x := Walk(WalkPlan(plan, e, p).value, q).value;
      (q != [] ==> KeyOf(x) !in m) && (x.node.set_.Some? ==> ScannedKeys(m, x) == {})
  {
    PlaceBelow(plan, e, p, q);
    var x := Walk(WalkPlan(plan, e, p).value, q).value;
    OwnKey(plan, m, a, e, p + q);
    assert Below(e, p, Data(e, p + q));
    if x.node.set_.Some? {
      forall pk ensures pk !in ScannedKeys(m, x) {
        ScanYieldsIndex(plan, m, a, e, p + q, pk);
        assert Below(e, p, Index(e, p + q, pk));
      }
    }
  }

  /** A cell below a place is found by reading below it. */
  lemma {:induction false} ReadBelow(plan: Plan, m: Contents, a: Cells, e: string, p: seq<Step>, c: Cell)
    returns (q: seq<Step>)
    requires GoodPlan(plan) && Represents(plan, m, a) && WalkPlan(plan, e, p).Success? && ProperPath(p)
    requires c in a && Below(e, p, c) && c != Data(e, p)
    ensures ProperPath(q) && Walk(WalkPlan(plan, e, p).value, q).Success?
    ensures var x := Walk(WalkPlan(plan, e, p).value, q).value;
      (q != [] && KeyOf(x) in m) || (x.node.set_.Some? && ScannedKeys(m, x) != {})
  {
    q := PathBelow(plan, m, a, e, p, c);
    if c.Data? {
      OwnKey(plan, m, a, e, p + q);
      assert q != [] by { assert p + [] == p; }
    } else {
      ScanYieldsIndex(plan, m, a, e, p + q, c.primaryKey);
      assert c.primaryKey in ScannedKeys(m, Walk(WalkPlan(plan, e, p).value, q).value);
    }
  }

  lemma {:induction false} PathBelow(plan: Plan, m: Contents, a: Cells, e: string, p: seq<Step>, c: Cell)
    returns (q: seq<Step>)
    requires Represents(plan, m, a) && WalkPlan(plan, e, p).Success? && ProperPath(p) && c in a && Below(e, p, c)
    ensures c.path == p + q && ProperPath(q) && ProperPath(p + q) && IsCell(plan, c)
    ensures WalkPlan(plan, e, p + q) == Walk(WalkPlan(plan, e, p).value, q)
  {
    assert Kept(plan, m, a, c);
    q := c.path[|p|..];
    assert c.path == p + q && forall i :: 0 <= i < |q| ==> q[i] == c.path[i + |p|];
    PlaceBelow(plan, e, p, q);
  }

  /** Reading back goes wrong at a double that is taken for an integer and below a null, and nowhere else. */
  ghost predicate Reads(a: Cells, e: string, p: seq<Step>, doc: Doc) {
    Survives(doc) && NullsBare(false, a, e, p, doc)
  }

  lemma {:induction false} WrittenReads(primary: Primary, plan: Plan, m: Contents, a: Cells, e: string, p: seq<Step>,
                                        doc: Doc)
    requires GoodPlan(plan) && Represents(plan, m, a) && WalkPlan(plan, e, p).Success? && ProperPath(p)
    requires Proper(primary, e, p, doc) && Written(a, e, p, doc) && Walkable(WalkPlan(plan, e, p).value, doc)
    ensures ReadsBack(m, WalkPlan(plan, e, p).value, doc) <==> Reads(a, e, p, doc)
    decreases doc, 0
  {
    match doc
    case Nothing => NullReads(plan, m, a, e, p);
    case Prim(v) => PrimReads(plan, m, a, e, p, v);
    case Row(fields) => WrittenRowReads(primary, plan, m, a, e, p, fields);
    case Rows(members) => WrittenSetReads(primary, plan, m, a, e, p, members);
  }

  lemma {:induction false} NullReads(plan: Plan, m: Contents, a: Cells, e: string, p: seq<Step>)
    requires GoodPlan(plan) && Represents(plan, m, a) && WalkPlan(plan, e, p).Success? && ProperPath(p)
    requires Written(a, e, p, Nothing)
    ensures ReadsBack(m, WalkPlan(plan, e, p).value, Nothing) <==> Reads(a, e, p, Nothing)
  {
    OwnKey(plan, m, a, e, p);
    NothingBelowIff(plan, m, a, e, p);
  }

  lemma {:induction false} PrimReads(plan: Plan, m: Contents, a: Cells, e: string, p: seq<Step>, v: PrimitiveValue)
    requires GoodPlan(plan) && Represents(plan, m, a) && WalkPlan(plan, e, p).Success? && ProperPath(p)
    requires Written(a, e, p, Prim(v))
    ensures ReadsBack(m, WalkPlan(plan, e, p).value, Prim(v)) <==> Reads(a, e, p, Prim(v))
  {
    OwnKey(plan, m, a, e, p);
  }

  lemma {:induction false} WrittenRowReads(primary: Primary, plan: Plan, m: Contents, a: Cells, e: string, p: seq<Step>,
                                           fields: seq<Part>)
    requires GoodPlan(plan) && Represents(plan, m, a) && WalkPlan(plan, e, p).Success? && ProperPath(p)
    requires Proper(primary, e, p, Row(fields)) && Written(a, e, p, Row(fields))
    requires Walkable(WalkPlan(plan, e, p).value, Row(fields))
    ensures ReadsBack(m, WalkPlan(plan, e, p).value, Row(fields)) <==> Reads(a, e, p, Row(fields))
    decreases fields, 1
  {
    OwnKey(plan, m, a, e, p);
    FieldsRead(primary, plan, m, a, e, p, fields);
    RowReads(m, WalkPlan(plan, e, p).value, a, e, p, fields);
  }

  lemma {:induction false} WrittenSetReads(primary: Primary, plan: Plan, m: Contents, a: Cells, e: string, p: seq<Step>,
                                           members: seq<Member>)
    requires GoodPlan(plan) && Represents(plan, m, a) && WalkPlan(plan, e, p).Success? && ProperPath(p)
    requires Proper(primary, e, p, Rows(members)) && Written(a, e, p, Rows(members))
    requires Walkable(WalkPlan(plan, e, p).value, Rows(members))
    ensures ReadsBack(m, WalkPlan(plan, e, p).value, Rows(members)) <==> Reads(a, e, p, Rows(members))
    decreases members, 1
  {
    OwnKey(plan, m, a, e, p);
    ScanIsMembers(plan, m, a, e, p, members);
    MembersRead(primary, plan, m, a, e, p, members);
    RowsRead(m, WalkPlan(plan, e, p).value, a, e, p, members);
  }

  lemma {:induction false} RowReads(m: Contents, w: Walker, a: Cells, e: string, p: seq<Step>, fields: seq<Part>)
    requires KeyOf(w) in m && forall i :: 0 <= i < |fields| ==> EnterField(w, fields[i].name).Success?
    requires forall i :: 0 <= i < |fields| ==>
      (ReadsBack(m, EnterField(w, fields[i].name).value, fields[i].doc) <==>
       Reads(a, e, p + [Into(fields[i].name)], fields[i].doc))
    ensures ReadsBack(m, w, Row(fields)) <==> Reads(a, e, p, Row(fields))
  {
  }

  lemma {:induction false} RowsRead(m: Contents, w: Walker, a: Cells, e: string, p: seq<Step>, members: seq<Member>)
    requires KeyOf(w) in m && ScannedKeys(m, w) == PrimaryKeys(members)
    requires forall i :: 0 <= i < |members| ==> EnterSet(w, members[i].primaryKey).Success?
    requires forall i :: 0 <= i < |members| ==>
      (ReadsBack(m, EnterSet(w, members[i].primaryKey).value, members[i].doc) <==>
       Reads(a, e, p + [Entry(members[i].primaryKey)], members[i].doc))
    ensures ReadsBack(m, w, Rows(members)) <==> Reads(a, e, p, Rows(members))
  {
  }

  lemma {:induction false} FieldsRead(primary: Primary, plan: Plan, m: Contents, a: Cells, e: string, p: seq<Step>,
                                      fields: seq<Part>)
    requires GoodPlan(plan) && Represents(plan, m, a) && WalkPlan(plan, e, p).Success? && ProperPath(p)
    requires forall i :: 0 <= i < |fields| ==>
      EnterField(WalkPlan(plan, e, p).value, fields[i].name).Success? &&
      Walkable(EnterField(WalkPlan(plan, e, p).value, fields[i].name).value, fields[i].doc) &&
      Proper(primary, e, p + [Into(fields[i].name)], fields[i].doc) && Written(a, e, p + [Into(fields[i].name)], fields[i].doc)
    ensures forall i :: 0 <= i < |fields| ==>
      (ReadsBack(m, EnterField(WalkPlan(plan, e, p).value, fields[i].name).value, fields[i].doc) <==>
       Reads(a, e, p + [Into(fields[i].name)], fields[i].doc))
    decreases fields, 0
  {
    forall i | 0 <= i < |fields|
      ensures ReadsBack(m, EnterField(WalkPlan(plan, e, p).value, fields[i].name).value, fields[i].doc) <==>
              Reads(a, e, p + [Into(fields[i].name)], fields[i].doc)
    {
      StepReads(primary, plan, m, a, e, p, Into(fields[i].name), fields[i].doc);
    }
  }

  lemma {:induction false} MembersRead(primary: Primary, plan: Plan, m: Contents, a: Cells, e: string, p: seq<Step>,
                                       members: seq<Member>)
    requires GoodPlan(plan) && Represents(plan, m, a) && WalkPlan(plan, e, p).Success? && ProperPath(p)
    requires forall i :: 0 <= i < |members| ==>
      EnterSet(WalkPlan(plan, e, p).value, members[i].primaryKey).Success? && IsPrimaryKey(members[i].primaryKey) &&
      Walkable(EnterSet(WalkPlan(plan, e, p).value, members[i].primaryKey).value, members[i].doc) &&
      Proper(primary, e, p + [Entry(members[i].primaryKey)], members[i].doc) &&
      Written(a, e, p + [Entry(members[i].primaryKey)], members[i].doc)
    ensures forall i :: 0 <= i < |members| ==>
      (ReadsBack(m, EnterSet(WalkPlan(plan, e, p).value, members[i].primaryKey).value, members[i].doc) <==>
       Reads(a, e, p + [Entry(members[i].primaryKey)], members[i].doc))
    decreases members, 0
  {
    forall i | 0 <= i < |members|
      ensures ReadsBack(m, EnterSet(WalkPlan(plan, e, p).value, members[i].primaryKey).value, members[i].doc) <==>
              Reads(a, e, p + [Entry(members[i].primaryKey)], members[i].doc)
    {
      StepReads(primary, plan, m, a, e, p, Entry(members[i].primaryKey), members[i].doc);
    }
  }

  lemma {:induction false} StepReads(primary: Primary, plan: Plan, m: Contents, a: Cells, e: string, p: seq<Step>,
                                     step: Step, doc: Doc)
    requires GoodPlan(plan) && Represents(plan, m, a) && WalkPlan(plan, e, p).Success? && ProperPath(p)
    requires Enter(WalkPlan(plan, e, p).value, step).Success? && (step.Entry? ==> IsPrimaryKey(step.primaryKey))
    requires Proper(primary, e, p + [step], doc) && Written(a, e, p + [step], doc)
    requires Walkable(Enter(WalkPlan(plan, e, p).value, step).value, doc)
    ensures ReadsBack(m, Enter(WalkPlan(plan, e, p).value, step).value, doc) <==> Reads(a, e, p + [step], doc)
    decreases doc, 1
  {
    StepPlace(plan, e, p, step);
    WrittenReads(primary, plan, m, a, e, p + [step], doc);
  }

  lemma {:induction false} VacantIff(plan: Plan, m: Contents, a: Cells, e: string, p: seq<Step>, doc: Doc)
    requires GoodPlan(plan) && Represents(plan, m, a) && WalkPlan(plan, e, p).Success? && ProperPath(p)
    requires Walkable(WalkPlan(plan, e, p).value, doc)
    ensures Vacant(m, WalkPlan(plan, e, p).value, doc) <==> NullsBare(true, a, e, p, doc)
    decreases doc
  {
    var w := WalkPlan(plan, e, p).value;
    match doc
    case Nothing => NothingBelowIff(plan, m, a, e, p);
    case Prim(_) =>
    case Row(fields) =>
      forall i | 0 <= i < |fields|
        ensures Vacant(m, EnterField(w, fields[i].name).value, fields[i].doc) <==>
                NullsBare(true, a, e, p + [Into(fields[i].name)], fields[i].doc)
      {
        StepPlace(plan, e, p, Into(fields[i].name));
        VacantIff(plan, m, a, e, p + [Into(fields[i].name)], fields[i].doc);
      }
    case Rows(_) =>
  }

  /**
   Reading after writing returns the document if and only if no double in it has a clear sign bit and nothing could be
   read, before, below the nulls that it does not put into a new set.
   */
  lemma {:induction false} WriteThenRead(primary: Primary, plan: Plan, m: Contents, a: Cells, e: string, p: seq<Step>,
                                         doc: Doc)
    requires GoodPlan(plan) && Represents(plan, m, a) && WalkPlan(plan, e, p).Success? && ProperPath(p)
    requires Proper(primary, e, p, doc) && Insert(m, WalkPlan(plan, e, p).value, doc).Success?
    ensures ReadsBack(Insert(m, WalkPlan(plan, e, p).value, doc).value, WalkPlan(plan, e, p).value, doc) <==>
            Survives(doc) && Vacant(m, WalkPlan(plan, e, p).value, doc)
  {
    var w := WalkPlan(plan, e, p).value;
    InsertSucceedsIff(m, w, doc);
    InsertRefines(primary, plan, m, a, e, p, doc);
    WriteIsWritten(primary, a, e, p, doc);
    WrittenReads(primary, plan, Insert(m, w, doc).value, Write(a, e, p, doc), e, p, doc);
    WriteBareIff(primary, a, e, p, doc);
    VacantIff(plan, m, a, e, p, doc);
  }

  /** A written primitive reads back as itself or, if it is a double with a clear sign bit, the integer of the same bits. */
  lemma {:induction false} PrimitiveReadsAs(m: Contents, w: Walker, v: PrimitiveValue)
    ensures Insert(m, w, Prim(v)).Success?
    ensures var r := ReadPrimitive(Insert(m, w, Prim(v)).value, w);
      r.Success? && r.value.Some? &&
      (r.value.value == v || (v.Double? && v.bits < TOP_BIT && r.value.value == Int64(v.bits)))
  {
  }

  /** A table or set does not read as a primitive. */
  lemma {:induction false} TablesDoNotUnpack(primary: Primary, plan: Plan, m: Contents, a: Cells, e: string, p: seq<Step>,
                                             doc: Doc)
    requires GoodPlan(plan) && Represents(plan, m, a) && WalkPlan(plan, e, p).Success? && ProperPath(p)
    requires Proper(primary, e, p, doc) && Insert(m, WalkPlan(plan, e, p).value, doc).Success? && (doc.Row? || doc.Rows?)
    ensures ReadPrimitive(Insert(m, WalkPlan(plan, e, p).value, doc).value, WalkPlan(plan, e, p).value).Failure?
  {
    InsertRefines(primary, plan, m, a, e, p, doc);
    WriteIsWritten(primary, a, e, p, doc);
    OwnKey(plan, Insert(m, WalkPlan(plan, e, p).value, doc).value, Write(a, e, p, doc), e, p);
  }

  /** A write changes no cell that is not at or below its place. */
  lemma {:induction false} WriteLeavesOthers(primary: Primary, plan: Plan, m: Contents, a: Cells, e: string,
                                             p: seq<Step>, doc: Doc, c: Cell)
    requires GoodPlan(plan) && Represents(plan, m, a) && WalkPlan(plan, e, p).Success? && ProperPath(p)
    requires Proper(primary, e, p, doc) && Insert(m, WalkPlan(plan, e, p).value, doc).Success?
    requires IsCell(plan, c) && !Below(e, p, c)
    ensures var (k, m') := (CellKey(plan, c), Insert(m, WalkPlan(plan, e, p).value, doc).value);
      (k in m <==> k in m') && (k in m ==> m[k] == m'[k])
  {
    InsertRefines(primary, plan, m, a, e, p, doc);
    WriteFrame(a, e, p, doc, c);
    CellLookup(plan, m, a, c);
    CellLookup(plan, Insert(m, WalkPlan(plan, e, p).value, doc).value, Write(a, e, p, doc), c);
  }

  // ---------------------------------------------------------------------------
  // Runs on the store

  /** An effect on the store; a walk that fails is a panic, and an insertion of null is skipped. */
  function ApplyStored(plan: Plan, m: Contents, eff: Effect): Result<Contents, WalkError> {
    match eff
    case InsertIntoSet(e, q, pk, row) =>
      if row.Nothing? then Success(m) else
      (match WalkPlan(plan, e, q)
       case Failure(x) => Failure(x)
       case Success(w) => if w.node.set_.None? then Failure(NotSet) else InsertMember(m, w, pk, row))
    case InsertIntoTable(e, p, name, doc) =>
      if doc.Nothing? then Success(m) else
      (match WalkPlan(plan, e, p + [Into(name)])
       case Failure(x) => Failure(x)
       case Success(w) => Insert(m, w, doc))
    case DeleteFromSet(e, q, pk) =>
      (match WalkPlan(plan, e, q)
       case Failure(x) => Failure(x)
       case Success(w) => if w.node.set_.None? then Failure(NotSet) else Success(DeleteEntry(m, w, pk)))
  }

  function RunStored(plan: Plan, m: Contents, effects: seq<Effect>): Result<Contents, WalkError>
    decreases |effects|
  {
    if effects == [] then Success(m) else
    match ApplyStored(plan, m, effects[0])
    case Failure(x) => Failure(x)
    case Success(m') => RunStored(plan, m', effects[1..])
  }

  /** The primary keys in the effect's own path are serialised primary keys too. */
  ghost predicate ProperEffect(primary: Primary, eff: Effect) {
    Allowed(primary, eff) &&
    match eff
    case InsertIntoSet(_, q, _, _) => ProperPath(q)
    case InsertIntoTable(_, p, _, _) => ProperPath(p)
    case DeleteFromSet(_, q, pk) => ProperPath(q) && IsPrimaryKey(pk)
  }

  lemma {:induction false} EffectRefines(primary: Primary, plan: Plan, m: Contents, a: Cells, eff: Effect)
    requires GoodPlan(plan) && Represents(plan, m, a) && ProperEffect(primary, eff) && ApplyStored(plan, m, eff).Success?
    ensures Represents(plan, ApplyStored(plan, m, eff).value, Apply(a, eff))
  {
    match eff
    case InsertIntoSet(e, q, pk, row) => if !row.Nothing? { MemberRefines(primary, plan, m, a, e, q, pk, row); }
    case InsertIntoTable(e, p, name, doc) =>
      if !doc.Nothing? { InsertRefines(primary, plan, m, a, e, p + [Into(name)], doc); }
    case DeleteFromSet(e, q, pk) => DeleteEntryRefines(plan, m, a, e, q, pk);
  }

  /** Every run on the store does to the keys what it does to the cells, and keeps index and data in agreement. */
  lemma {:induction false} StoredRunsAgree(primary: Primary, plan: Plan, m: Contents, a: Cells, effects: seq<Effect>)
    requires GoodPlan(plan) && Represents(plan, m, a) && Agrees(primary, a) && RunStored(plan, m, effects).Success?
    requires forall i :: 0 <= i < |effects| ==> ProperEffect(primary, effects[i])
    ensures Represents(plan, RunStored(plan, m, effects).value, RunEffects(a, effects))
    ensures Agrees(primary, RunEffects(a, effects))
    decreases |effects|
  {
    if effects != [] {
      EffectRefines(primary, plan, m, a, effects[0]);
      EffectAgrees(primary, a, effects[0]);
      StoredRunsAgree(primary, plan, ApplyStored(plan, m, effects[0]).value, Apply(a, effects[0]), effects[1..]);
    }
  }

  /** After any run from the empty store, a set's index key is there exactly if the member's own key is. */
  lemma {:induction false} IndexMatchesPresence(primary: Primary, plan: Plan, effects: seq<Effect>, e: string,
                                                q: seq<Step>, pk: Bytes)
    requires GoodPlan(plan) && RunStored(plan, map[], effects).Success?
    requires forall i :: 0 <= i < |effects| ==> ProperEffect(primary, effects[i])
    requires SetPlace(plan, e, q) && IsPrimaryKey(pk) && EnterSet(WalkPlan(plan, e, q).value, pk).Success?
    ensures var (m, w) := (RunStored(plan, map[], effects).value, WalkPlan(plan, e, q).value);
      FastScanPrefix(w) + pk in m <==> KeyOf(EnterSet(w, pk).value) in m
  {
    var (m, a) := (RunStored(plan, map[], effects).value, RunEffects(map[], effects));
    EmptyRepresents(plan);
    EmptyAgrees(primary);
    StoredRunsAgree(primary, plan, map[], map[], effects);
    assert AgreesAt(primary, a, e, q, pk);
    StepPlace(plan, e, q, Entry(pk));
    IndexCell(plan, e, q, pk);
    DataCell(plan, e, q + [Entry(pk)]);
    CellLookup(plan, m, a, Index(e, q, pk));
    CellLookup(plan, m, a, Data(e, q + [Entry(pk)]));
  }
}
