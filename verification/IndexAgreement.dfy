/**
 The index agrees with the data: through every sequence of writes and deletes, the index
 lists exactly the members that are there, each under its stored primary key.
 */
module IndexAgreement {
  import opened Wrappers
  import opened ByteStrings
  import opened KeyEncoding
  import opened PathWalker
  import opened KeySpace
  import opened DocumentStore

  /** One member of one set: indexed if and only if present, and then storing the primary key it is filed under. */
  ghost predicate AgreesAt(primary: Primary, a: Cells, e: string, q: seq<Step>, pk: Bytes) {
    var (entry, id) := (Data(e, q + [Entry(pk)]), Data(e, q + [Entry(pk), Into(primary(e, q))]));
    (Index(e, q, pk) in a <==> entry in a) &&
    (entry in a ==> id in a && a[id].Packed? && Encode(a[id].value) == pk)
  }

  ghost predicate Agrees(primary: Primary, a: Cells) {
    forall e, q, pk :: AgreesAt(primary, a, e, q, pk)
  }

  /** A write that does not meet a member's three cells. */
  predicate Misses(primary: Primary, e: string, p: seq<Step>, e': string, q: seq<Step>, pk: Bytes) {
    e != e' || (!(p <= q) && p != q + [Entry(pk)] && p != q + [Entry(pk), Into(primary(e', q))])
  }

  lemma {:induction false} Unmet(primary: Primary, e: string, p: seq<Step>, e': string, q: seq<Step>, pk: Bytes)
    requires Misses(primary, e, p, e', q, pk)
    ensures !Below(e, p, Index(e', q, pk)) && !Below(e, p, Data(e', q + [Entry(pk)]))
    ensures !Below(e, p, Data(e', q + [Entry(pk), Into(primary(e', q))]))
  {
    var (x, y) := (q + [Entry(pk)], q + [Entry(pk), Into(primary(e', q))]);
    assert y == x + [Into(primary(e', q))];
    PrefixOfSnoc(p, q, Entry(pk));
    PrefixOfSnoc(p, x, Into(primary(e', q)));
  }

  lemma {:induction false} PrefixOfSnoc(p: seq<Step>, q: seq<Step>, step: Step)
    ensures p <= q + [step] <==> p <= q || p == q + [step]
  {
    if p <= q + [step] {
      if |p| <= |q| { assert p == (q + [step])[..|p|] == q[..|p|]; } else { assert p == (q + [step])[..|p|]; }
    }
  }

  lemma {:induction false} UnmetAgrees(primary: Primary, a: Cells, e: string, p: seq<Step>, doc: Doc, e': string,
                                       q: seq<Step>, pk: Bytes)
    requires AgreesAt(primary, a, e', q, pk) && Misses(primary, e, p, e', q, pk)
    ensures AgreesAt(primary, Write(a, e, p, doc), e', q, pk)
  {
    Unmet(primary, e, p, e', q, pk);
    WriteFrame(a, e, p, doc, Index(e', q, pk));
    WriteFrame(a, e, p, doc, Data(e', q + [Entry(pk)]));
    WriteFrame(a, e, p, doc, Data(e', q + [Entry(pk), Into(primary(e', q))]));
  }

  /** Filing a row that carries its primary key makes its member agree. */
  lemma {:induction false} MemberAgrees(primary: Primary, a: Cells, e: string, q: seq<Step>, pk: Bytes, doc: Doc)
    requires Proper(primary, e, q + [Entry(pk)], doc) && Carries(doc, primary(e, q), pk)
    ensures AgreesAt(primary, WriteMember(a, e, q, pk, doc), e, q, pk)
  {
    var (a', p) := (a[Index(e, q, pk) := Marker], q + [Entry(pk)]);
    WriteFrame(a', e, p, doc, Index(e, q, pk));
    WriteIsWritten(primary, a', e, p, doc);
    var i :| 0 <= i < |doc.fields| && IsKeyPart(doc.fields[i], primary(e, q), pk);
    assert Written(Write(a', e, p, doc), e, p + [Into(doc.fields[i].name)], doc.fields[i].doc);
    assert p + [Into(primary(e, q))] == q + [Entry(pk), Into(primary(e, q))];
  }

  /** Filing a member does not touch the members of other sets, or other members of its own. */
  lemma {:induction false} OtherMemberAgrees(primary: Primary, a: Cells, e: string, q: seq<Step>, pk: Bytes, doc: Doc,
                                             e': string, q': seq<Step>, pk': Bytes)
    requires AgreesAt(primary, a, e', q', pk') && !(e == e' && q + [Entry(pk)] <= q') && (e', q', pk') != (e, q, pk)
    ensures AgreesAt(primary, WriteMember(a, e, q, pk, doc), e', q', pk')
  {
    var p := q + [Entry(pk)];
    assert AgreesAt(primary, a[Index(e, q, pk) := Marker], e', q', pk');
    SameEntryPath(q, pk, q', pk');
    var id := q' + [Entry(pk'), Into(primary(e', q'))];
    assert p != id by { assert p[|p| - 1].Entry? && id[|id| - 1].Into?; }
    UnmetAgrees(primary, a[Index(e, q, pk) := Marker], e, p, doc, e', q', pk');
  }

  /** Members of sets at or below the place of a write stay in agreement, or are filed afresh. */
  lemma {:induction false} InnerAgrees(primary: Primary, a: Cells, e: string, p: seq<Step>, doc: Doc, q: seq<Step>,
                                       pk: Bytes)
    requires Proper(primary, e, p, doc) && p <= q && AgreesAt(primary, a, e, q, pk)
    ensures AgreesAt(primary, Write(a, e, p, doc), e, q, pk)
    decreases doc
  {
    match doc
    case Nothing =>
    case Prim(_) =>
    case Row(fields) => FieldsAgree(primary, a[Data(e, p) := Marker], e, p, fields, q, pk);
    case Rows(members) =>
      var a' := Clear(a[Data(e, p) := Marker], e, p);
      ClearedAgrees(primary, a[Data(e, p) := Marker], e, p, q, pk);
      MembersAgree(primary, a', e, p, members, q, pk);
  }

  lemma {:induction false} ClearedAgrees(primary: Primary, a: Cells, e: string, p: seq<Step>, q: seq<Step>, pk: Bytes)
    requires p <= q
    ensures AgreesAt(primary, Clear(a, e, p), e, q, pk)
  {
    assert p < q + [Entry(pk)];
  }

  lemma {:induction false} FieldsAgree(primary: Primary, a: Cells, e: string, p: seq<Step>, fields: seq<Part>,
                                       q: seq<Step>, pk: Bytes)
    requires forall i :: 0 <= i < |fields| ==> Proper(primary, e, p + [Into(fields[i].name)], fields[i].doc)
    requires p <= q && AgreesAt(primary, a, e, q, pk)
    ensures AgreesAt(primary, WriteFields(a, e, p, fields), e, q, pk)
    decreases fields
  {
    if fields != [] {
      var p' := p + [Into(fields[0].name)];
      if p' <= q {
        InnerAgrees(primary, a, e, p', fields[0].doc, q, pk);
      } else {
        assert p' != q + [Entry(pk)] by { assert p'[|p|].Into? && (q + [Entry(pk)])[|q|].Entry?; }
        UnmetAgrees(primary, a, e, p', fields[0].doc, e, q, pk);
      }
      FieldsAgree(primary, Write(a, e, p', fields[0].doc), e, p, fields[1..], q, pk);
    }
  }

  lemma {:induction false} MembersAgree(primary: Primary, a: Cells, e: string, p: seq<Step>, members: seq<Member>,
                                        q: seq<Step>, pk: Bytes)
    requires forall i :: 0 <= i < |members| ==>
      Carries(members[i].doc, primary(e, p), members[i].primaryKey) &&
      Proper(primary, e, p + [Entry(members[i].primaryKey)], members[i].doc)
    requires p <= q && AgreesAt(primary, a, e, q, pk)
    ensures AgreesAt(primary, WriteMembers(a, e, p, members), e, q, pk)
    decreases members
  {
    if members != [] {
      var (key, doc) := (members[0].primaryKey, members[0].doc);
      if p + [Entry(key)] <= q {
        assert AgreesAt(primary, a[Index(e, p, key) := Marker], e, q, pk);
        InnerAgrees(primary, a[Index(e, p, key) := Marker], e, p + [Entry(key)], doc, q, pk);
      } else if (q, pk) == (p, key) {
        MemberAgrees(primary, a, e, p, key, doc);
      } else {
        OtherMemberAgrees(primary, a, e, p, key, doc, e, q, pk);
      }
      MembersAgree(primary, WriteMember(a, e, p, key, doc), e, p, members[1..], q, pk);
    }
  }

  // ---------------------------------------------------------------------------
  // Effects and runs

  /** The executor's effect nodes, on resident sets and tables. */
  datatype Effect =
    | InsertIntoSet(e: string, set_: seq<Step>, primaryKey: Bytes, row: Doc)
    | InsertIntoTable(e: string, table: seq<Step>, name: string, doc: Doc)
    | DeleteFromSet(e: string, set_: seq<Step>, primaryKey: Bytes)

  /** What the executor and the type checker see to: rows are filed under their own key, and no key field is overwritten. */
  ghost predicate Allowed(primary: Primary, eff: Effect) {
    match eff
    case InsertIntoSet(e, q, pk, row) =>
      row.Nothing? || (IsPrimaryKey(pk) && Carries(row, primary(e, q), pk) && Proper(primary, e, q + [Entry(pk)], row))
    case InsertIntoTable(e, p, name, doc) =>
      Proper(primary, e, p + [Into(name)], doc) &&
      (p != [] && p[|p| - 1].Entry? ==> name != primary(e, p[..|p| - 1]))
    case DeleteFromSet(_, _, _) => true
  }

  /** Optional chaining skips an insertion whose value is null. */
  function Apply(a: Cells, eff: Effect): Cells {
    match eff
    case InsertIntoSet(e, q, pk, row) => if row.Nothing? then a else WriteMember(a, e, q, pk, row)
    case InsertIntoTable(e, p, name, doc) => if doc.Nothing? then a else Write(a, e, p + [Into(name)], doc)
    case DeleteFromSet(e, q, pk) => DropEntry(a, e, q, pk)
  }

  function RunEffects(a: Cells, effects: seq<Effect>): Cells
    decreases |effects|
  {
    if effects == [] then a else RunEffects(Apply(a, effects[0]), effects[1..])
  }

  lemma {:induction false} InsertIntoSetAgrees(primary: Primary, a: Cells, e: string, q: seq<Step>, pk: Bytes, row: Doc)
    requires Agrees(primary, a) && Allowed(primary, InsertIntoSet(e, q, pk, row)) && !row.Nothing?
    ensures Agrees(primary, WriteMember(a, e, q, pk, row))
  {
    forall e', q', pk' ensures AgreesAt(primary, WriteMember(a, e, q, pk, row), e', q', pk') {
      assert AgreesAt(primary, a, e', q', pk');
      if e == e' && q + [Entry(pk)] <= q' {
        assert AgreesAt(primary, a[Index(e, q, pk) := Marker], e, q', pk');
        InnerAgrees(primary, a[Index(e, q, pk) := Marker], e, q + [Entry(pk)], row, q', pk');
      } else if (e', q', pk') == (e, q, pk) {
        MemberAgrees(primary, a, e, q, pk, row);
      } else {
        OtherMemberAgrees(primary, a, e, q, pk, row, e', q', pk');
      }
    }
  }

  lemma {:induction false} InsertIntoTableAgrees(primary: Primary, a: Cells, e: string, p: seq<Step>, name: string,
                                                 doc: Doc)
    requires Agrees(primary, a) && Allowed(primary, InsertIntoTable(e, p, name, doc))
    ensures Agrees(primary, Write(a, e, p + [Into(name)], doc))
  {
    var place := p + [Into(name)];
    forall e', q, pk ensures AgreesAt(primary, Write(a, e, place, doc), e', q, pk) {
      assert AgreesAt(primary, a, e', q, pk);
      if e == e' && place <= q {
        InnerAgrees(primary, a, e, place, doc, q, pk);
      } else {
        NotAKeyField(primary, e, p, name, e', q, pk);
        UnmetAgrees(primary, a, e, place, doc, e', q, pk);
      }
    }
  }

  lemma {:induction false} NotAKeyField(primary: Primary, e: string, p: seq<Step>, name: string, e': string,
                                        q: seq<Step>, pk: Bytes)
    requires p != [] && p[|p| - 1].Entry? ==> name != primary(e, p[..|p| - 1])
    requires !(e == e' && p + [Into(name)] <= q)
    ensures Misses(primary, e, p + [Into(name)], e', q, pk)
  {
    var (place, id) := (p + [Into(name)], primary(e', q));
    assert place[|p|] == Into(name);
    if place == q + [Entry(pk), Into(id)] {
      assert p == (q + [Entry(pk), Into(id)])[..|p|] == q + [Entry(pk)];
      assert p[..|p| - 1] == q;
    }
    if place == q + [Entry(pk)] { assert place[|q|] == Entry(pk); }
  }

  lemma {:induction false} DeleteFromSetAgrees(primary: Primary, a: Cells, e: string, q: seq<Step>, pk: Bytes)
    requires Agrees(primary, a)
    ensures Agrees(primary, DropEntry(a, e, q, pk))
  {
    forall e', q', pk' ensures AgreesAt(primary, DropEntry(a, e, q, pk), e', q', pk') {
      assert AgreesAt(primary, a, e', q', pk');
      var (x, y) := (q' + [Entry(pk')], q' + [Entry(pk'), Into(primary(e', q'))]);
      assert y == x + [Into(primary(e', q'))];
      PrefixOfSnoc(q + [Entry(pk)], q', Entry(pk'));
      PrefixOfSnoc(q + [Entry(pk)], x, Into(primary(e', q')));
      SameEntryPath(q, pk, q', pk');
      assert q + [Entry(pk)] != y by { assert (q + [Entry(pk)])[|q|].Entry? && y[|q'| + 1].Into?; }
    }
  }

  lemma {:induction false} SameEntryPath(q: seq<Step>, pk: Bytes, q': seq<Step>, pk': Bytes)
    ensures q + [Entry(pk)] == q' + [Entry(pk')] <==> q == q' && pk == pk'
  {
    var (x, y) := (q + [Entry(pk)], q' + [Entry(pk')]);
    if x == y { assert q == x[..|q|] && q' == y[..|q'|] && x[|q|] == Entry(pk) && y[|q'|] == Entry(pk'); }
  }

  lemma {:induction false} EffectAgrees(primary: Primary, a: Cells, eff: Effect)
    requires Agrees(primary, a) && Allowed(primary, eff)
    ensures Agrees(primary, Apply(a, eff))
  {
    match eff
    case InsertIntoSet(e, q, pk, row) => if !row.Nothing? { InsertIntoSetAgrees(primary, a, e, q, pk, row); }
    case InsertIntoTable(e, p, name, doc) => InsertIntoTableAgrees(primary, a, e, p, name, doc);
    case DeleteFromSet(e, q, pk) => DeleteFromSetAgrees(primary, a, e, q, pk);
  }

  /** From the empty store, every sequence of effects leaves index and data in agreement. */
  lemma {:induction false} EveryRunAgrees(primary: Primary, a: Cells, effects: seq<Effect>)
    requires Agrees(primary, a) && forall i :: 0 <= i < |effects| ==> Allowed(primary, effects[i])
    ensures Agrees(primary, RunEffects(a, effects))
    decreases |effects|
  {
    if effects != [] {
      EffectAgrees(primary, a, effects[0]);
      EveryRunAgrees(primary, Apply(a, effects[0]), effects[1..]);
    }
  }

  lemma {:induction false} EmptyAgrees(primary: Primary)
    ensures Agrees(primary, map[])
  {
  }

  /** Overwriting the key field of a member breaks the agreement exactly if the key changes. */
  lemma {:induction false} KeyOverwriteBreaks(primary: Primary, a: Cells, e: string, q: seq<Step>, pk: Bytes,
                                              v: PrimitiveValue)
    requires AgreesAt(primary, a, e, q, pk) && Data(e, q + [Entry(pk)]) in a
    ensures AgreesAt(primary, Write(a, e, q + [Entry(pk), Into(primary(e, q))], Prim(v)), e, q, pk) <==> Encode(v) == pk
  {
    var id := Data(e, q + [Entry(pk), Into(primary(e, q))]);
    var b := Write(a, e, q + [Entry(pk), Into(primary(e, q))], Prim(v));
    assert b == a[id := Packed(v)];
    assert (q + [Entry(pk)])[|q|].Entry? && id.path[|q| + 1].Into? && |id.path| == |q| + 2;
    assert id != Data(e, q + [Entry(pk)]);
  }

  // ---------------------------------------------------------------------------
  // A null that leaves members behind

  /** A row with its key field and one more field. */
  function PairRow(id: string, key: PrimitiveValue, name: string, doc: Doc): Doc {
    Row([Part(id, Prim(key)), Part(name, doc)])
  }

  function KeyRow(id: string, key: PrimitiveValue): Doc {
    Row([Part(id, Prim(key))])
  }

  /** Insert a row with one member in its set `kids`, then the same row with null there. */
  function Orphaning(e: string, q: seq<Step>, id: string, key: PrimitiveValue, kids: string, kidId: string,
                     kid: PrimitiveValue): seq<Effect>
  {
    [InsertIntoSet(e, q, Encode(key), PairRow(id, key, kids, Rows([Member(Encode(kid), KeyRow(kidId, kid))]))),
     InsertIntoSet(e, q, Encode(key), PairRow(id, key, kids, Nothing))]
  }

  lemma {:induction false} PairWritten(a: Cells, e: string, q: seq<Step>, pk: Bytes, id: string, key: PrimitiveValue,
                                       name: string, doc: Doc)
    ensures var p := q + [Entry(pk)];
      WriteMember(a, e, q, pk, PairRow(id, key, name, doc)) ==
      Write(Write(a[Index(e, q, pk) := Marker][Data(e, p) := Marker], e, p + [Into(id)], Prim(key)), e, p + [Into(name)], doc)
  {
    var (p, fields) := (q + [Entry(pk)], PairRow(id, key, name, doc).fields);
    var b := a[Index(e, q, pk) := Marker][Data(e, p) := Marker];
    assert fields[1..] == [Part(name, doc)] && fields[1..][1..] == [];
    var c := Write(b, e, p + [Into(id)], Prim(key));
    assert WriteFields(b, e, p, fields) == WriteFields(c, e, p, fields[1..]);
    assert WriteFields(c, e, p, fields[1..]) == WriteFields(Write(c, e, p + [Into(name)], doc), e, p, fields[1..][1..]);
  }

  lemma {:induction false} OrphaningAllowed(primary: Primary, e: string, q: seq<Step>, id: string, key: PrimitiveValue,
                                            kids: string, kidId: string, kid: PrimitiveValue)
    requires id != kids && IsPrimaryKey(Encode(key)) && IsPrimaryKey(Encode(kid)) && primary(e, q) == id
    requires primary(e, q + [Entry(Encode(key))] + [Into(kids)]) == kidId
    ensures var effects := Orphaning(e, q, id, key, kids, kidId, kid);
      Allowed(primary, effects[0]) && Allowed(primary, effects[1])
  {
    var (p, member) := (q + [Entry(Encode(key))], Member(Encode(kid), KeyRow(kidId, kid)));
    var k := p + [Into(kids)];
    assert IsKeyPart(Part(id, Prim(key)), id, Encode(key)) && IsKeyPart(Part(kidId, Prim(kid)), kidId, Encode(kid));
    assert Carries(PairRow(id, key, kids, Nothing), id, Encode(key)) by {
      assert IsKeyPart(PairRow(id, key, kids, Nothing).fields[0], id, Encode(key));
    }
    assert Carries(PairRow(id, key, kids, Rows([member])), id, Encode(key)) by {
      assert IsKeyPart(PairRow(id, key, kids, Rows([member])).fields[0], id, Encode(key));
    }
    assert Carries(member.doc, kidId, Encode(kid)) by { assert IsKeyPart(member.doc.fields[0], kidId, Encode(kid)); }
    assert Proper(primary, e, k + [Entry(Encode(kid))], member.doc);
    assert Proper(primary, e, k, Rows([member]));
  }

  /** Two permitted insertions after which a null field still lists a member. */
  lemma {:induction false} NullLeavesMembers(primary: Primary, e: string, q: seq<Step>, id: string, key: PrimitiveValue,
                                             kids: string, kidId: string, kid: PrimitiveValue)
    requires id != kids && IsPrimaryKey(Encode(key)) && IsPrimaryKey(Encode(kid)) && primary(e, q) == id
    requires primary(e, q + [Entry(Encode(key))] + [Into(kids)]) == kidId
    ensures var (effects, k) := (Orphaning(e, q, id, key, kids, kidId, kid), q + [Entry(Encode(key))] + [Into(kids)]);
      Allowed(primary, effects[0]) && Allowed(primary, effects[1]) &&
      Data(e, k) !in RunEffects(map[], effects) && Index(e, k, Encode(kid)) in RunEffects(map[], effects)
  {
    OrphaningAllowed(primary, e, q, id, key, kids, kidId, kid);
    var (effects, pk, p) := (Orphaning(e, q, id, key, kids, kidId, kid), Encode(key), q + [Entry(Encode(key))]);
    var (k, member) := (p + [Into(kids)], Member(Encode(kid), KeyRow(kidId, kid)));
    var none: Cells := map[];
    var a := Apply(none, effects[0]);
    PairWritten(none, e, q, pk, id, key, kids, Rows([member]));
    OneMember(Write(none[Index(e, q, pk) := Marker][Data(e, p) := Marker], e, p + [Into(id)], Prim(key)), e, k, member);
    assert Index(e, k, Encode(kid)) in a;
    PairWritten(a, e, q, pk, id, key, kids, Nothing);
    assert effects[1..] == [effects[1]] && effects[1..][1..] == [];
    assert RunEffects(none, effects) == RunEffects(a, effects[1..]);
    assert RunEffects(a, effects[1..]) == RunEffects(Apply(a, effects[1]), effects[1..][1..]);
  }

  lemma {:induction false} OneMember(a: Cells, e: string, k: seq<Step>, member: Member)
    ensures Index(e, k, member.primaryKey) in Write(a, e, k, Rows([member]))
  {
    var (pk, b) := (member.primaryKey, Clear(a[Data(e, k) := Marker], e, k));
    assert [member][1..] == [];
    assert WriteMembers(b, e, k, [member]) == WriteMembers(WriteMember(b, e, k, pk, member.doc), e, k, []);
    WriteFrame(b[Index(e, k, pk) := Marker], e, k + [Entry(pk)], member.doc, Index(e, k, pk));
  }

  // ---------------------------------------------------------------------------
  // Filing rows

  /** The primary key a fresh row is filed under; a row without the field, or with a null there, is a panic. */
  function RowKey(id: string, row: Doc): Option<Bytes> {
    if row.Row? then FieldKey(id, row.fields) else None
  }

  function FieldKey(id: string, fields: seq<Part>): Option<Bytes> {
    if fields == [] then None
    else if fields[0].name == id then if fields[0].doc.Prim? then Some(Encode(fields[0].doc.value)) else None
    else FieldKey(id, fields[1..])
  }

  /** Insert into the member map: a later row with the same key replaces the earlier one. */
  function FileMember(members: seq<Member>, pk: Bytes, row: Doc): seq<Member> {
    if members == [] then [Member(pk, row)]
    else if members[0].primaryKey == pk then [Member(pk, row)] + members[1..]
    else [members[0]] + FileMember(members[1..], pk, row)
  }

  /** `BuildSet`. */
  function BuildSet(id: string, rows: seq<Doc>, members: seq<Member>): Option<Doc> {
    if rows == [] then Some(Rows(members)) else
    var pk := RowKey(id, rows[0]);
    if pk.None? then None else BuildSet(id, rows[1..], FileMember(members, pk.value, rows[0]))
  }

  lemma {:induction false} FieldKeyIndex(id: string, fields: seq<Part>) returns (i: nat)
    requires FieldKey(id, fields).Some?
    ensures i < |fields| && IsKeyPart(fields[i], id, FieldKey(id, fields).value)
  {
    if fields[0].name == id {
      i := 0;
    } else {
      i := FieldKeyIndex(id, fields[1..]);
      i := i + 1;
    }
  }

  lemma {:induction false} RowKeyCarries(id: string, row: Doc)
    requires RowKey(id, row).Some?
    ensures Carries(row, id, RowKey(id, row).value)
  {
    var i := FieldKeyIndex(id, row.fields);
  }

  predicate Filed(id: string, members: seq<Member>) {
    DistinctMembers(members) && forall i :: 0 <= i < |members| ==> Carries(members[i].doc, id, members[i].primaryKey)
  }

  lemma {:induction false} FileKeys(members: seq<Member>, pk: Bytes, row: Doc, x: Bytes)
    ensures (exists m <- FileMember(members, pk, row) :: m.primaryKey == x) <==>
            x == pk || exists m <- members :: m.primaryKey == x
  {
    if members == [] {
      assert FileMember(members, pk, row)[0].primaryKey == pk;
    } else if members[0].primaryKey == pk {
      assert FileMember(members, pk, row)[0].primaryKey == pk;
      assert forall m <- members :: m == members[0] || m in members[1..];
    } else {
      FileKeys(members[1..], pk, row, x);
      assert FileMember(members, pk, row)[0] == members[0];
      assert forall m <- members :: m == members[0] || m in members[1..];
    }
  }

  lemma {:induction false} FileKeepsFiled(id: string, members: seq<Member>, pk: Bytes, row: Doc)
    requires Filed(id, members) && Carries(row, id, pk)
    ensures Filed(id, FileMember(members, pk, row))
  {
    if members != [] && members[0].primaryKey != pk {
      FileKeepsFiled(id, members[1..], pk, row);
      FileKeys(members[1..], pk, row, members[0].primaryKey);
      FiledCons(id, members[0], FileMember(members[1..], pk, row));
    }
  }

  lemma {:induction false} FiledCons(id: string, m: Member, rest: seq<Member>)
    requires Carries(m.doc, id, m.primaryKey) && Filed(id, rest) && forall x <- rest :: x.primaryKey != m.primaryKey
    ensures Filed(id, [m] + rest)
  {
    var all := [m] + rest;
    forall i, j | 0 <= i < j < |all| ensures all[i].primaryKey != all[j].primaryKey {
      assert all[j] == rest[j - 1] && rest[j - 1] in rest;
    }
  }

  /** The row carries `pk` in its first field of that name. */
  predicate KeyedBy(id: string, row: Doc, pk: Bytes) {
    row.Row? &&
    exists i :: 0 <= i < |row.fields| && IsKeyPart(row.fields[i], id, pk) && forall j :: 0 <= j < i ==> row.fields[j].name != id
  }

  lemma {:induction false} FieldKeyIs(id: string, fields: seq<Part>, pk: Bytes)
    ensures FieldKey(id, fields) == Some(pk) <==> KeyedBy(id, Row(fields), pk)
  {
    if fields != [] {
      FieldKeyIs(id, fields[1..], pk);
      var rest := fields[1..];
      if fields[0].name != id && KeyedBy(id, Row(rest), pk) {
        var i :| 0 <= i < |rest| && IsKeyPart(rest[i], id, pk) && forall j :: 0 <= j < i ==> rest[j].name != id;
        assert fields[i + 1] == rest[i] && forall j :: 1 <= j < i + 1 ==> fields[j] == rest[j - 1];
        assert KeyedBy(id, Row(fields), pk);
      }
      if i :| 0 <= i < |fields| && IsKeyPart(fields[i], id, pk) && forall j :: 0 <= j < i ==> fields[j].name != id {
        if i > 0 {
          assert rest[i - 1] == fields[i] && forall j :: 0 <= j < i - 1 ==> rest[j] == fields[j + 1];
          assert KeyedBy(id, Row(rest), pk);
        }
      }
    }
  }

  /** Row `i` is the last of the rows with the key `pk`. */
  predicate LastKeyed(id: string, rows: seq<Doc>, i: nat, pk: Bytes) {
    i < |rows| && KeyedBy(id, rows[i], pk) && forall j :: i < j < |rows| ==> !KeyedBy(id, rows[j], pk)
  }

  predicate AnyKeyed(id: string, rows: seq<Doc>, pk: Bytes) {
    exists i :: 0 <= i < |rows| && KeyedBy(id, rows[i], pk)
  }

  lemma {:induction false} FiledMembers(id: string, members: seq<Member>, pk: Bytes, row: Doc, m: Member)
    requires DistinctMembers(members)
    ensures m in FileMember(members, pk, row) <==> m == Member(pk, row) || (m in members && m.primaryKey != pk)
  {
    if members != [] {
      var rest := members[1..];
      assert members == [members[0]] + rest;
      if members[0].primaryKey == pk {
        assert forall x <- rest :: x.primaryKey != pk;
      } else {
        FiledMembers(id, rest, pk, row, m);
      }
    }
  }

  /** Which member a set under construction has: the last row of the key, or what was there before. */
  ghost predicate Built(id: string, rows: seq<Doc>, members: seq<Member>, m: Member) {
    (exists i: nat :: LastKeyed(id, rows, i, m.primaryKey) && rows[i] == m.doc) ||
    (m in members && !AnyKeyed(id, rows, m.primaryKey))
  }

  lemma {:induction false} BuiltStep(id: string, rows: seq<Doc>, members: seq<Member>, pk: Bytes, m: Member)
    requires rows != [] && KeyedBy(id, rows[0], pk) && RowKey(id, rows[0]) == Some(pk) && DistinctMembers(members)
    ensures Built(id, rows[1..], FileMember(members, pk, rows[0]), m) <==> Built(id, rows, members, m)
  {
    var (rest, x) := (rows[1..], m.primaryKey);
    FiledMembers(id, members, pk, rows[0], m);
    FieldKeyIs(id, rows[0].fields, x);
    assert KeyedBy(id, rows[0], x) <==> x == pk;
    KeyedCons(id, rows, x);
    if i: nat :| LastKeyed(id, rest, i, x) && rest[i] == m.doc {
      assert rows[i + 1] == rest[i] && LastKeyed(id, rows, i + 1, x);
    }
    if i: nat :| LastKeyed(id, rows, i, x) && rows[i] == m.doc {
      if i > 0 {
        assert rest[i - 1] == rows[i] && LastKeyed(id, rest, i - 1, x);
      } else {
        assert !AnyKeyed(id, rest, x);
      }
    }
    if x == pk && !AnyKeyed(id, rest, x) && m == Member(pk, rows[0]) { assert LastKeyed(id, rows, 0, x); }
  }

  lemma {:induction false} KeyedCons(id: string, rows: seq<Doc>, x: Bytes)
    requires rows != []
    ensures AnyKeyed(id, rows, x) <==> KeyedBy(id, rows[0], x) || AnyKeyed(id, rows[1..], x)
    ensures forall i :: 0 < i < |rows| ==> rows[i] == rows[1..][i - 1]
  {
    var rest := rows[1..];
    if i :| 0 <= i < |rest| && KeyedBy(id, rest[i], x) { assert rows[i + 1] == rest[i]; }
    if i :| 0 <= i < |rows| && KeyedBy(id, rows[i], x) {
      if i > 0 { assert rest[i - 1] == rows[i]; }
    }
  }

  ghost predicate Keyed(id: string, row: Doc) {
    exists pk :: KeyedBy(id, row, pk)
  }

  lemma {:induction false} RowKeyIs(id: string, row: Doc)
    ensures RowKey(id, row).Some? <==> Keyed(id, row)
    ensures forall pk :: RowKey(id, row) == Some(pk) <==> KeyedBy(id, row, pk)
  {
    if row.Row? {
      forall pk ensures RowKey(id, row) == Some(pk) <==> KeyedBy(id, row, pk) { FieldKeyIs(id, row.fields, pk); }
      if RowKey(id, row).Some? { assert KeyedBy(id, row, RowKey(id, row).value); }
    }
  }

  /**
   `BuildSet` succeeds exactly if every row carries its key; the set then has, under every key of a row, the last row of
   that key, and no other members.
   */
  lemma {:induction false} BuiltSetIs(id: string, rows: seq<Doc>, members: seq<Member>)
    requires DistinctMembers(members) && Filed(id, members)
    ensures BuildSet(id, rows, members).Some? <==> forall row <- rows :: Keyed(id, row)
    ensures BuildSet(id, rows, members).Some? ==>
      BuildSet(id, rows, members).value.Rows? &&
      forall m :: m in BuildSet(id, rows, members).value.members <==> Built(id, rows, members, m)
    decreases |rows|
  {
    if rows == [] {
      assert forall m :: Built(id, rows, members, m) <==> m in members;
    } else {
      var key := RowKey(id, rows[0]);
      RowKeyIs(id, rows[0]);
      assert rows == [rows[0]] + rows[1..];
      assert (forall row <- rows :: Keyed(id, row)) <==> Keyed(id, rows[0]) && forall row <- rows[1..] :: Keyed(id, row);
      if key.Some? {
        RowKeyCarries(id, rows[0]);
        FileKeepsFiled(id, members, key.value, rows[0]);
        BuiltSetIs(id, rows[1..], FileMember(members, key.value, rows[0]));
        forall m ensures Built(id, rows[1..], FileMember(members, key.value, rows[0]), m) <==> Built(id, rows, members, m) {
          BuiltStep(id, rows, members, key.value, m);
        }
      }
    }
  }

  /** A set built from rows files every member under its own primary key, once. */
  lemma {:induction false} BuiltSetsAreFiled(id: string, rows: seq<Doc>, members: seq<Member>)
    requires Filed(id, members) && BuildSet(id, rows, members).Some?
    ensures var doc := BuildSet(id, rows, members).value; doc.Rows? && Filed(id, doc.members)
    decreases |rows|
  {
    if rows != [] {
      RowKeyCarries(id, rows[0]);
      var pk := RowKey(id, rows[0]).value;
      FileKeepsFiled(id, members, pk, rows[0]);
      BuiltSetsAreFiled(id, rows[1..], FileMember(members, pk, rows[0]));
    }
  }
}
