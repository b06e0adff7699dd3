/** Compiled schemas: exported roots and specialised table types. */
module Schemas {
  import opened Wrappers

  datatype PrimitiveType = Int64Type | DoubleType | StringType | BytesType

  datatype FieldType = Table(name: string) | Primitive(prim: PrimitiveType) | SetOf(member: FieldType)

  datatype Annotation = PrimaryKey | Unique | Index | RenameFrom(from: string)

  datatype Field = Field(name: string, ty: FieldType, annotations: seq<Annotation>)

  datatype Export = Export(name: string, ty: FieldType)

  /** Ordered maps are kept as the list of their entries in iteration order. */
  datatype Schema = Schema(types: map<string, seq<Field>>, exports: seq<Export>)

  predicate IsPrimary(annotations: seq<Annotation>) {
    PrimaryKey in annotations
  }

  predicate DistinctFields(fields: seq<Field>) {
    forall i, j :: 0 <= i < j < |fields| ==> fields[i].name != fields[j].name
  }

  /** What the schema compiler guarantees: no duplicate names, and sets of tables only. */
  ghost predicate WellFormed(s: Schema) {
    (forall t <- s.types :: DistinctFields(s.types[t]) && forall f <- s.types[t] :: SetsOfTables(f.ty)) &&
    (forall i, j :: 0 <= i < j < |s.exports| ==> s.exports[i].name != s.exports[j].name) &&
    (forall e <- s.exports :: SetsOfTables(e.ty))
  }

  predicate SetsOfTables(ty: FieldType) {
    ty.SetOf? ==> ty.member.Table?
  }

  function FindField(fields: seq<Field>, name: string): Option<Field> {
    if fields == [] then None
    else if fields[0].name == name then Some(fields[0])
    else FindField(fields[1..], name)
  }

  lemma {:induction false} FindFieldAt(fields: seq<Field>, i: nat)
    requires i < |fields| && DistinctFields(fields)
    ensures FindField(fields, fields[i].name) == Some(fields[i])
  {
    if i > 0 {
      assert fields[0].name != fields[i].name;
      FindFieldAt(fields[1..], i - 1);
    }
  }

  lemma {:induction false} FindFieldIndex(fields: seq<Field>, name: string) returns (i: nat)
    requires FindField(fields, name).Some?
    ensures i < |fields| && fields[i].name == name && FindField(fields, name) == Some(fields[i])
  {
    if fields[0].name == name {
      i := 0;
    } else {
      i := FindFieldIndex(fields[1..], name);
      i := i + 1;
    }
  }
}
