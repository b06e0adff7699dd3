/**
 Documents in the cell space: what the executor's write and delete nodes do, on cells
 named by data paths instead of bytes.
 */
module DocumentStore {
  import opened ByteStrings
  import opened KeyEncoding
  import opened PathWalker
  import opened KeySpace

  /** What a key holds: nothing but its presence, or a packed primitive. */
  datatype Stored = Marker | Packed(value: PrimitiveValue)

  /** A fresh value to be written; rows list their fields and sets their members by serialised primary key. */
  datatype Doc = Nothing | Prim(value: PrimitiveValue) | Row(fields: seq<Part>) | Rows(members: seq<Member>)
  datatype Part = Part(name: string, doc: Doc)
  datatype Member = Member(primaryKey: Bytes, doc: Doc)

  type Cells = map<Cell, Stored>

  /** The primary key field of a set's members, per set. */
  type Primary = (string, seq<Step>) -> string

  // ---------------------------------------------------------------------------
  // Writes

  /** `delete_set`: all data below the set and all its index entries. */
  function Clear(a: Cells, e: string, p: seq<Step>): Cells {
    map c | c in a && !(c.export_ == e && (p < c.path || (c.path == p && c.Index?))) :: a[c]
  }

  /** `delete_entry_from_set`: the entry's data and its index entry. */
  function DropEntry(a: Cells, e: string, p: seq<Step>, pk: Bytes): Cells {
    map c | c in a && c != Index(e, p, pk) && !(c.export_ == e && p + [Entry(pk)] <= c.path) :: a[c]
  }

  /** `walk_and_insert`. */
  function Write(a: Cells, e: string, p: seq<Step>, doc: Doc): Cells
    decreases doc, 0
  {
    match doc
    case Nothing => a - {Data(e, p)}
    case Prim(v) => a[Data(e, p) := Packed(v)]
    case Row(fields) => WriteFields(a[Data(e, p) := Marker], e, p, fields)
    case Rows(members) => WriteMembers(Clear(a[Data(e, p) := Marker], e, p), e, p, members)
  }

  function WriteFields(a: Cells, e: string, p: seq<Step>, fields: seq<Part>): Cells
    decreases fields
  {
    if fields == [] then a
    else WriteFields(Write(a, e, p + [Into(fields[0].name)], fields[0].doc), e, p, fields[1..])
  }

  function WriteMembers(a: Cells, e: string, p: seq<Step>, members: seq<Member>): Cells
    decreases members
  {
    if members == [] then a
    else WriteMembers(WriteMember(a, e, p, members[0].primaryKey, members[0].doc), e, p, members[1..])
  }

  function WriteMember(a: Cells, e: string, p: seq<Step>, pk: Bytes, doc: Doc): Cells
    decreases doc, 1
  {
    Write(a[Index(e, p, pk) := Marker], e, p + [Entry(pk)], doc)
  }

  // ---------------------------------------------------------------------------
  // Documents that the executor can build

  predicate DistinctParts(fields: seq<Part>) {
    forall i, j :: 0 <= i < j < |fields| ==> fields[i].name != fields[j].name
  }

  predicate DistinctMembers(members: seq<Member>) {
    forall i, j :: 0 <= i < j < |members| ==> members[i].primaryKey != members[j].primaryKey
  }

  /** The row carries the primary key it is filed under. */
  predicate Carries(doc: Doc, id: string, pk: Bytes) {
    doc.Row? && exists i :: 0 <= i < |doc.fields| && IsKeyPart(doc.fields[i], id, pk)
  }

  predicate IsKeyPart(f: Part, id: string, pk: Bytes) {
    f.name == id && f.doc.Prim? && Encode(f.doc.value) == pk
  }

  /** Field names and primary keys are distinct, and members are filed under their own primary keys. */
  ghost predicate Proper(primary: Primary, e: string, p: seq<Step>, doc: Doc)
    decreases doc
  {
    match doc
    case Nothing => true
    case Prim(_) => true
    case Row(fields) =>
      DistinctParts(fields) && forall i :: 0 <= i < |fields| ==> Proper(primary, e, p + [Into(fields[i].name)], fields[i].doc)
    case Rows(members) =>
      DistinctMembers(members) &&
      forall i :: 0 <= i < |members| ==>
        IsPrimaryKey(members[i].primaryKey) && Carries(members[i].doc, primary(e, p), members[i].primaryKey) &&
        Proper(primary, e, p + [Entry(members[i].primaryKey)], members[i].doc)
  }

  // ---------------------------------------------------------------------------
  // A write stays below its place

  predicate SameAt(a: Cells, b: Cells, c: Cell) {
    (c in a <==> c in b) && (c in a && c in b ==> a[c] == b[c])
  }

  predicate Below(e: string, p: seq<Step>, c: Cell) {
    c.export_ == e && p <= c.path
  }

  lemma {:induction false} WriteFrame(a: Cells, e: string, p: seq<Step>, doc: Doc, c: Cell)
    requires !Below(e, p, c)
    ensures SameAt(a, Write(a, e, p, doc), c)
    decreases doc
  {
    match doc
    case Nothing =>
    case Prim(_) =>
    case Row(fields) =>
      NotBelowChild(e, p, c);
      FieldsFrame(a[Data(e, p) := Marker], e, p, fields, c);
    case Rows(members) =>
      NotBelowChild(e, p, c);
      MembersFrame(Clear(a[Data(e, p) := Marker], e, p), e, p, members, c);
  }

  lemma {:induction false} NotBelowChild(e: string, p: seq<Step>, c: Cell)
    requires !Below(e, p, c)
    ensures forall step :: !Below(e, p + [step], c)
  {
    forall step ensures !Below(e, p + [step], c) {
      if p + [step] <= c.path { assert p == c.path[..|p + [step]|][..|p|] == c.path[..|p|]; }
    }
  }

  lemma {:induction false} FieldsFrame(a: Cells, e: string, p: seq<Step>, fields: seq<Part>, c: Cell)
    requires forall i :: 0 <= i < |fields| ==> !Below(e, p + [Into(fields[i].name)], c)
    ensures SameAt(a, WriteFields(a, e, p, fields), c)
    decreases fields
  {
    if fields != [] {
      var p' := p + [Into(fields[0].name)];
      WriteFrame(a, e, p', fields[0].doc, c);
      FieldsFrame(Write(a, e, p', fields[0].doc), e, p, fields[1..], c);
    }
  }

  lemma {:induction false} MembersFrame(a: Cells, e: string, p: seq<Step>, members: seq<Member>, c: Cell)
    requires forall i :: 0 <= i < |members| ==>
      !Below(e, p + [Entry(members[i].primaryKey)], c) && c != Index(e, p, members[i].primaryKey)
    ensures SameAt(a, WriteMembers(a, e, p, members), c)
    decreases members
  {
    if members != [] {
      var pk := members[0].primaryKey;
      WriteFrame(a[Index(e, p, pk) := Marker], e, p + [Entry(pk)], members[0].doc, c);
      MembersFrame(WriteMember(a, e, p, pk, members[0].doc), e, p, members[1..], c);
    }
  }

  // ---------------------------------------------------------------------------
  // Reading back what was written

  ghost function PrimaryKeys(members: seq<Member>): set<Bytes> {
    set i | 0 <= i < |members| :: members[i].primaryKey
  }

  /** The keys of the document are as it says; a set holds its members, all of them indexed, and nothing else. */
  ghost predicate Written(a: Cells, e: string, p: seq<Step>, doc: Doc)
    decreases doc
  {
    match doc
    case Nothing => Data(e, p) !in a
    case Prim(v) => Data(e, p) in a && a[Data(e, p)] == Packed(v)
    case Row(fields) =>
      Data(e, p) in a && a[Data(e, p)] == Marker &&
      forall i :: 0 <= i < |fields| ==> Written(a, e, p + [Into(fields[i].name)], fields[i].doc)
    case Rows(members) =>
      Data(e, p) in a && a[Data(e, p)] == Marker && OnlyMembers(a, e, p, members) &&
      forall i :: 0 <= i < |members| ==> Written(a, e, p + [Entry(members[i].primaryKey)], members[i].doc)
  }

  ghost predicate OnlyMembers(a: Cells, e: string, p: seq<Step>, members: seq<Member>) {
    (forall pk :: Index(e, p, pk) in a <==> pk in PrimaryKeys(members)) &&
    forall c <- a :: c.export_ == e && p < c.path ==> c.path[|p|].Entry? && c.path[|p|].primaryKey in PrimaryKeys(members)
  }

  /** This depends on the cells at and below the place only. */
  lemma {:induction false} WrittenFrame(a: Cells, b: Cells, e: string, p: seq<Step>, doc: Doc)
    requires forall c :: Below(e, p, c) ==> SameAt(a, b, c)
    requires Written(a, e, p, doc)
    ensures Written(b, e, p, doc)
    decreases doc, 0
  {
    assert Below(e, p, Data(e, p));
    match doc
    case Nothing =>
    case Prim(_) =>
    case Row(fields) =>
      forall i | 0 <= i < |fields| ensures Written(b, e, p + [Into(fields[i].name)], fields[i].doc) {
        WrittenFrameChild(a, b, e, p, Into(fields[i].name), fields[i].doc);
      }
    case Rows(members) =>
      forall i | 0 <= i < |members| ensures Written(b, e, p + [Entry(members[i].primaryKey)], members[i].doc) {
        WrittenFrameChild(a, b, e, p, Entry(members[i].primaryKey), members[i].doc);
      }
      OnlyMembersFrame(a, b, e, p, members);
  }

  lemma {:induction false} WrittenFrameChild(a: Cells, b: Cells, e: string, p: seq<Step>, step: Step, doc: Doc)
    requires forall c :: Below(e, p, c) ==> SameAt(a, b, c)
    requires Written(a, e, p + [step], doc)
    ensures Written(b, e, p + [step], doc)
    decreases doc, 1
  {
    forall c | Below(e, p + [step], c) ensures SameAt(a, b, c) {
      PathThrough(p, step, c.path);
      assert Below(e, p, c);
    }
    WrittenFrame(a, b, e, p + [step], doc);
  }

  lemma {:induction false} OnlyMembersFrame(a: Cells, b: Cells, e: string, p: seq<Step>, members: seq<Member>)
    requires forall c :: Below(e, p, c) ==> SameAt(a, b, c)
    requires OnlyMembers(a, e, p, members)
    ensures OnlyMembers(b, e, p, members)
  {
    forall pk ensures Index(e, p, pk) in b <==> pk in PrimaryKeys(members) {
      assert Below(e, p, Index(e, p, pk));
    }
    forall c <- b | c.export_ == e && p < c.path
      ensures c.path[|p|].Entry? && c.path[|p|].primaryKey in PrimaryKeys(members)
    {
      assert Below(e, p, c);
    }
  }

  /** Writing a document sets and clears the keys it names. */
  lemma {:induction false} WriteIsWritten(primary: Primary, a: Cells, e: string, p: seq<Step>, doc: Doc)
    requires Proper(primary, e, p, doc)
    ensures Written(Write(a, e, p, doc), e, p, doc)
    decreases doc
  {
    match doc
    case Nothing =>
    case Prim(_) =>
    case Row(fields) =>
      var a' := a[Data(e, p) := Marker];
      FieldsWritten(primary, a', e, p, fields);
      OwnCellKept(a', e, p, fields);
    case Rows(members) =>
      var a' := Clear(a[Data(e, p) := Marker], e, p);
      assert forall pk :: Index(e, p, pk) !in a';
      MembersWritten(primary, a', e, p, members);
      OwnSetCellKept(a', e, p, members);
      WrittenMembersOnly(a', e, p, members, {});
  }

  lemma {:induction false} OwnCellKept(a: Cells, e: string, p: seq<Step>, fields: seq<Part>)
    ensures SameAt(a, WriteFields(a, e, p, fields), Data(e, p))
  {
    forall i | 0 <= i < |fields| ensures !Below(e, p + [Into(fields[i].name)], Data(e, p)) {}
    FieldsFrame(a, e, p, fields, Data(e, p));
  }

  lemma {:induction false} OwnSetCellKept(a: Cells, e: string, p: seq<Step>, members: seq<Member>)
    ensures SameAt(a, WriteMembers(a, e, p, members), Data(e, p))
  {
    forall i | 0 <= i < |members| ensures !Below(e, p + [Entry(members[i].primaryKey)], Data(e, p)) {}
    MembersFrame(a, e, p, members, Data(e, p));
  }

  lemma {:induction false} FieldsWritten(primary: Primary, a: Cells, e: string, p: seq<Step>, fields: seq<Part>)
    requires DistinctParts(fields)
    requires forall i :: 0 <= i < |fields| ==> Proper(primary, e, p + [Into(fields[i].name)], fields[i].doc)
    ensures forall i :: 0 <= i < |fields| ==>
      Written(WriteFields(a, e, p, fields), e, p + [Into(fields[i].name)], fields[i].doc)
    decreases fields
  {
    if fields != [] {
      var (p', b) := (p + [Into(fields[0].name)], Write(a, e, p + [Into(fields[0].name)], fields[0].doc));
      WriteIsWritten(primary, a, e, p', fields[0].doc);
      FieldsWritten(primary, b, e, p, fields[1..]);
      forall c | Below(e, p', c) ensures SameAt(b, WriteFields(b, e, p, fields[1..]), c) {
        forall i | 0 <= i < |fields[1..]| ensures !Below(e, p + [Into(fields[1..][i].name)], c) {
          PathThrough(p, Into(fields[0].name), c.path);
          PathThrough(p, Into(fields[1..][i].name), c.path);
          assert fields[1..][i] == fields[i + 1];
        }
        FieldsFrame(b, e, p, fields[1..], c);
      }
      WrittenFrame(b, WriteFields(b, e, p, fields[1..]), e, p', fields[0].doc);
      forall i | 0 <= i < |fields| ensures Written(WriteFields(a, e, p, fields), e, p + [Into(fields[i].name)], fields[i].doc) {
        if i > 0 { assert fields[i] == fields[1..][i - 1]; }
      }
    }
  }

  lemma {:induction false} MembersWritten(primary: Primary, a: Cells, e: string, p: seq<Step>, members: seq<Member>)
    requires DistinctMembers(members)
    requires forall i :: 0 <= i < |members| ==> Proper(primary, e, p + [Entry(members[i].primaryKey)], members[i].doc)
    ensures forall i :: 0 <= i < |members| ==>
      Written(WriteMembers(a, e, p, members), e, p + [Entry(members[i].primaryKey)], members[i].doc)
    decreases members
  {
    if members != [] {
      var pk := members[0].primaryKey;
      var (p', b) := (p + [Entry(pk)], WriteMember(a, e, p, pk, members[0].doc));
      WriteIsWritten(primary, a[Index(e, p, pk) := Marker], e, p', members[0].doc);
      MembersWritten(primary, b, e, p, members[1..]);
      forall c | Below(e, p', c) ensures SameAt(b, WriteMembers(b, e, p, members[1..]), c) {
        LaterMembersApart(e, p, members, c);
        MembersFrame(b, e, p, members[1..], c);
      }
      WrittenFrame(b, WriteMembers(b, e, p, members[1..]), e, p', members[0].doc);
      forall i | 0 <= i < |members|
        ensures Written(WriteMembers(a, e, p, members), e, p + [Entry(members[i].primaryKey)], members[i].doc)
      {
        if i > 0 { assert members[i] == members[1..][i - 1]; }
      }
    }
  }

  lemma {:induction false} LaterMembersApart(e: string, p: seq<Step>, members: seq<Member>, c: Cell)
    requires members != [] && DistinctMembers(members) && Below(e, p + [Entry(members[0].primaryKey)], c)
    ensures forall i :: 0 <= i < |members[1..]| ==>
      !Below(e, p + [Entry(members[1..][i].primaryKey)], c) && c != Index(e, p, members[1..][i].primaryKey)
  {
    PathThrough(p, Entry(members[0].primaryKey), c.path);
    forall i | 0 <= i < |members[1..]|
      ensures !Below(e, p + [Entry(members[1..][i].primaryKey)], c) && c != Index(e, p, members[1..][i].primaryKey)
    {
      PathThrough(p, Entry(members[1..][i].primaryKey), c.path);
      assert members[1..][i] == members[i + 1];
    }
  }

  /** Writing members adds exactly their index entries and data below their entries. */
  lemma {:induction false} WrittenMembersOnly(a: Cells, e: string, p: seq<Step>, members: seq<Member>, done: set<Bytes>)
    requires forall pk :: Index(e, p, pk) in a <==> pk in done
    requires forall c <- a :: c.export_ == e && p < c.path ==> c.path[|p|].Entry? && c.path[|p|].primaryKey in done
    ensures var b := WriteMembers(a, e, p, members);
      (forall pk :: Index(e, p, pk) in b <==> pk in done + PrimaryKeys(members)) &&
      forall c <- b :: c.export_ == e && p < c.path ==>
        c.path[|p|].Entry? && c.path[|p|].primaryKey in done + PrimaryKeys(members)
    decreases members
  {
    if members != [] {
      var pk := members[0].primaryKey;
      var b := WriteMember(a, e, p, pk, members[0].doc);
      forall x ensures Index(e, p, x) in b <==> x in done + {pk} {
        WriteFrame(a[Index(e, p, pk) := Marker], e, p + [Entry(pk)], members[0].doc, Index(e, p, x));
      }
      forall c <- b | c.export_ == e && p < c.path ensures c.path[|p|].Entry? && c.path[|p|].primaryKey in done + {pk} {
        PathThrough(p, Entry(pk), c.path);
        if !Below(e, p + [Entry(pk)], c) {
          WriteFrame(a[Index(e, p, pk) := Marker], e, p + [Entry(pk)], members[0].doc, c);
        }
      }
      WrittenMembersOnly(b, e, p, members[1..], done + {pk});
      PrimaryKeysStep(members);
      assert done + {pk} + PrimaryKeys(members[1..]) == done + PrimaryKeys(members);
    }
  }

  lemma {:induction false} PrimaryKeysStep(members: seq<Member>)
    requires members != []
    ensures PrimaryKeys(members) == {members[0].primaryKey} + PrimaryKeys(members[1..])
  {
    forall x <- PrimaryKeys(members) ensures x in {members[0].primaryKey} + PrimaryKeys(members[1..]) {
      var i :| 0 <= i < |members| && members[i].primaryKey == x;
      if i > 0 { assert members[1..][i - 1].primaryKey == x; }
    }
    forall x <- PrimaryKeys(members[1..]) ensures x in PrimaryKeys(members) {
      var i :| 0 <= i < |members[1..]| && members[1..][i].primaryKey == x;
      assert members[i + 1].primaryKey == x;
    }
  }

  // ---------------------------------------------------------------------------
  // Nulls

  /**
   Below every null of the document there is no cell. `before` the document is written the null's own cell may be
   there, and sets do not count: writing them clears them.
   */
  ghost predicate NullsBare(before: bool, a: Cells, e: string, p: seq<Step>, doc: Doc)
    decreases doc
  {
    match doc
    case Nothing => forall c <- a :: Below(e, p, c) ==> before && c == Data(e, p)
    case Prim(_) => true
    case Row(fields) =>
      forall i :: 0 <= i < |fields| ==> NullsBare(before, a, e, p + [Into(fields[i].name)], fields[i].doc)
    case Rows(members) =>
      before || forall i :: 0 <= i < |members| ==> NullsBare(before, a, e, p + [Entry(members[i].primaryKey)], members[i].doc)
  }

  /** The place holds exactly the document: its keys are as it says, and nothing is left below its nulls. */
  ghost predicate Holds(a: Cells, e: string, p: seq<Step>, doc: Doc) {
    Written(a, e, p, doc) && NullsBare(false, a, e, p, doc)
  }

  lemma {:induction false} BareFrame(before: bool, a: Cells, b: Cells, e: string, p: seq<Step>, doc: Doc)
    requires forall c :: Below(e, p, c) ==> SameAt(a, b, c)
    requires NullsBare(before, a, e, p, doc)
    ensures NullsBare(before, b, e, p, doc)
    decreases doc, 0
  {
    match doc
    case Nothing => forall c <- b | Below(e, p, c) ensures before && c == Data(e, p) { assert SameAt(a, b, c); }
    case Prim(_) =>
    case Row(fields) =>
      forall i | 0 <= i < |fields| ensures NullsBare(before, b, e, p + [Into(fields[i].name)], fields[i].doc) {
        BareFrameChild(before, a, b, e, p, Into(fields[i].name), fields[i].doc);
      }
    case Rows(members) =>
      if !before {
        forall i | 0 <= i < |members| ensures NullsBare(before, b, e, p + [Entry(members[i].primaryKey)], members[i].doc) {
          BareFrameChild(before, a, b, e, p, Entry(members[i].primaryKey), members[i].doc);
        }
      }
  }

  lemma {:induction false} BareFrameChild(before: bool, a: Cells, b: Cells, e: string, p: seq<Step>, step: Step, doc: Doc)
    requires forall c :: Below(e, p, c) ==> SameAt(a, b, c)
    requires NullsBare(before, a, e, p + [step], doc)
    ensures NullsBare(before, b, e, p + [step], doc)
    decreases doc, 1
  {
    forall c | Below(e, p + [step], c) ensures SameAt(a, b, c) {
      PathThrough(p, step, c.path);
      assert Below(e, p, c);
    }
    BareFrame(before, a, b, e, p + [step], doc);
  }

  lemma {:induction false} BareSame(before: bool, a: Cells, b: Cells, e: string, p: seq<Step>, doc: Doc)
    requires forall c :: Below(e, p, c) ==> SameAt(a, b, c)
    ensures NullsBare(before, a, e, p, doc) <==> NullsBare(before, b, e, p, doc)
  {
    if NullsBare(before, a, e, p, doc) { BareFrame(before, a, b, e, p, doc); }
    if NullsBare(before, b, e, p, doc) { BareFrame(before, b, a, e, p, doc); }
  }

  lemma {:induction false} EmptyIsBare(a: Cells, e: string, p: seq<Step>, doc: Doc)
    requires forall c <- a :: !Below(e, p, c)
    ensures NullsBare(true, a, e, p, doc)
    decreases doc
  {
    match doc
    case Nothing =>
    case Prim(_) =>
    case Row(fields) =>
      forall i | 0 <= i < |fields| ensures NullsBare(true, a, e, p + [Into(fields[i].name)], fields[i].doc) {
        forall c <- a ensures !Below(e, p + [Into(fields[i].name)], c) { NotBelowChild(e, p, c); }
        EmptyIsBare(a, e, p + [Into(fields[i].name)], fields[i].doc);
      }
    case Rows(_) =>
  }

  lemma {:induction false} StepsApart(e: string, p: seq<Step>, one: Step, two: Step, c: Cell)
    requires one != two && Below(e, p + [one], c)
    ensures !Below(e, p + [two], c)
  {
    PathThrough(p, one, c.path);
    PathThrough(p, two, c.path);
  }

  /** After the write, the nulls of the document are bare exactly if they were before, apart from their own cells. */
  lemma {:induction false} WriteBareIff(primary: Primary, a: Cells, e: string, p: seq<Step>, doc: Doc)
    requires Proper(primary, e, p, doc)
    ensures NullsBare(false, Write(a, e, p, doc), e, p, doc) <==> NullsBare(true, a, e, p, doc)
    decreases doc
  {
    match doc
    case Nothing =>
    case Prim(_) =>
    case Row(fields) =>
      var a' := a[Data(e, p) := Marker];
      forall i | 0 <= i < |fields|
        ensures NullsBare(false, Write(a, e, p, doc), e, p + [Into(fields[i].name)], fields[i].doc) <==>
                NullsBare(true, a, e, p + [Into(fields[i].name)], fields[i].doc)
      {
        FieldBareIff(primary, a', e, p, fields, i);
        var p' := p + [Into(fields[i].name)];
        assert forall c :: Below(e, p', c) ==> c != Data(e, p) && SameAt(a, a', c);
        BareSame(true, a, a', e, p', fields[i].doc);
      }
    case Rows(members) =>
      var a' := Clear(a[Data(e, p) := Marker], e, p);
      forall i | 0 <= i < |members|
        ensures NullsBare(false, Write(a, e, p, doc), e, p + [Entry(members[i].primaryKey)], members[i].doc)
      {
        forall c <- a' ensures !Below(e, p + [Entry(members[i].primaryKey)], c) {
          PathThrough(p, Entry(members[i].primaryKey), c.path);
        }
        MemberBare(primary, a', e, p, members, i);
      }
  }

  lemma {:induction false} FieldBareIff(primary: Primary, a: Cells, e: string, p: seq<Step>, fields: seq<Part>, i: nat)
    requires DistinctParts(fields) && i < |fields|
    requires forall j :: 0 <= j < |fields| ==> Proper(primary, e, p + [Into(fields[j].name)], fields[j].doc)
    ensures NullsBare(false, WriteFields(a, e, p, fields), e, p + [Into(fields[i].name)], fields[i].doc) <==>
            NullsBare(true, a, e, p + [Into(fields[i].name)], fields[i].doc)
    decreases fields
  {
    var (rest, b) := (fields[1..], Write(a, e, p + [Into(fields[0].name)], fields[0].doc));
    var p' := p + [Into(fields[i].name)];
    assert forall j :: 0 <= j < |rest| ==> rest[j] == fields[j + 1];
    if i == 0 {
      WriteBareIff(primary, a, e, p', fields[0].doc);
      forall c | Below(e, p', c) ensures SameAt(b, WriteFields(b, e, p, rest), c) {
        forall j | 0 <= j < |rest| ensures !Below(e, p + [Into(rest[j].name)], c) {
          StepsApart(e, p, Into(fields[0].name), Into(rest[j].name), c);
        }
        FieldsFrame(b, e, p, rest, c);
      }
      BareSame(false, b, WriteFields(b, e, p, rest), e, p', fields[0].doc);
    } else {
      FieldBareIff(primary, b, e, p, rest, i - 1);
      forall c | Below(e, p', c) ensures SameAt(a, b, c) {
        StepsApart(e, p, Into(fields[i].name), Into(fields[0].name), c);
        WriteFrame(a, e, p + [Into(fields[0].name)], fields[0].doc, c);
      }
      BareSame(true, a, b, e, p', fields[i].doc);
    }
  }

  lemma {:induction false} MemberBare(primary: Primary, a: Cells, e: string, p: seq<Step>, members: seq<Member>, i: nat)
    requires DistinctMembers(members) && i < |members|
    requires forall j :: 0 <= j < |members| ==> Proper(primary, e, p + [Entry(members[j].primaryKey)], members[j].doc)
    requires forall c <- a :: !Below(e, p + [Entry(members[i].primaryKey)], c)
    ensures NullsBare(false, WriteMembers(a, e, p, members), e, p + [Entry(members[i].primaryKey)], members[i].doc)
    decreases members
  {
    var (pk, rest) := (members[0].primaryKey, members[1..]);
    var (a', b) := (a[Index(e, p, pk) := Marker], WriteMember(a, e, p, pk, members[0].doc));
    var p' := p + [Entry(members[i].primaryKey)];
    assert forall j :: 0 <= j < |rest| ==> rest[j] == members[j + 1];
    if i == 0 {
      EmptyIsBare(a', e, p', members[0].doc);
      WriteBareIff(primary, a', e, p', members[0].doc);
      forall c | Below(e, p', c) ensures SameAt(b, WriteMembers(b, e, p, rest), c) {
        LaterMembersApart(e, p, members, c);
        MembersFrame(b, e, p, rest, c);
      }
      BareFrame(false, b, WriteMembers(b, e, p, rest), e, p', members[0].doc);
    } else {
      forall c <- b ensures !Below(e, p', c) {
        if Below(e, p', c) {
          StepsApart(e, p, Entry(members[i].primaryKey), Entry(pk), c);
          WriteFrame(a', e, p + [Entry(pk)], members[0].doc, c);
        }
      }
      MemberBare(primary, b, e, p, rest, i - 1);
    }
  }

  /**
   Writing a document makes its place hold exactly that document if and only if nothing lies below the nulls it does not
   put into a new set: a null deletes its own key and leaves members and fields below it where they are.
   */
  lemma {:induction false} WriteHolds(primary: Primary, a: Cells, e: string, p: seq<Step>, doc: Doc)
    requires Proper(primary, e, p, doc)
    ensures Holds(Write(a, e, p, doc), e, p, doc) <==> NullsBare(true, a, e, p, doc)
  {
    WriteIsWritten(primary, a, e, p, doc);
    WriteBareIff(primary, a, e, p, doc);
  }
}
