/**
 Primitive values and their order-preserving encoding as key components
 (`PrimitiveValue::serialize_for_key_component`).
 */
module KeyEncoding {
  import opened ByteStrings

  const TOP_BIT := 0x8000_0000_0000_0000
  const TWO_64 := 0x1_0000_0000_0000_0000

  type I64 = i: int | -0x8000_0000_0000_0000 <= i < 0x8000_0000_0000_0000
  type U64 = u: int | 0 <= u < 0x1_0000_0000_0000_0000

  /** Strings are their UTF-8 bytes; doubles are their 64-bit patterns. */
  datatype PrimitiveValue =
    | String(utf8: Bytes)
    | Bytes(raw: Bytes)
    | Int64(i: I64)
    | Double(bits: U64)

  /** The two's complement cast `x as u64`. */
  function AsU64(x: I64): U64 {
    if x < 0 then x + TWO_64 else x
  }

  /** `x ^ TOP_BIT`. */
  function FlipTop(x: U64): U64 {
    if x < TOP_BIT then x + TOP_BIT else x - TOP_BIT
  }

  /** `!x` on 64 bits. */
  function Complement(x: U64): U64 {
    TWO_64 - 1 - x
  }

  /** Negative patterns are complemented, the others get their sign bit set. */
  function OrderedDouble(x: U64): U64 {
    if x >= TOP_BIT then Complement(x) else FlipTop(x)
  }

  function BigEndian(n: nat, width: nat): (r: Bytes)
    ensures |r| == width
  {
    if width == 0 then [] else BigEndian(n / 256, width - 1) + [n % 256]
  }

  /** `BigEndian::write_u64`. */
  function Word(u: U64): (r: Bytes)
    ensures |r| == 8
  {
    BigEndian(u, 8)
  }

  /** Every zero byte becomes `00 FF`. */
  function Escape(b: Bytes): Bytes {
    if b == [] then [] else (if b[0] == 0 then [0, 255] else [b[0]]) + Escape(b[1..])
  }

  function Encode(v: PrimitiveValue): Bytes {
    match v
    case Bytes(b) => [1] + Escape(b) + [0]
    case String(s) => [2] + s
    case Int64(i) => [3] + Word(FlipTop(AsU64(i)))
    case Double(d) => [4] + Word(OrderedDouble(d))
  }

  // ---------------------------------------------------------------------------
  // The order of values, independent of the encoding

  predicate SameType(a: PrimitiveValue, b: PrimitiveValue) {
    (a.String? && b.String?) || (a.Bytes? && b.Bytes?) || (a.Int64? && b.Int64?) || (a.Double? && b.Double?)
  }

  /** totalOrder of IEEE 754-2019, section 5.10, on bit patterns: sign first, then magnitude. */
  predicate TotalOrderLess(a: U64, b: U64) {
    var (negA, magA) := (a >= TOP_BIT, a % TOP_BIT);
    var (negB, magB) := (b >= TOP_BIT, b % TOP_BIT);
    if negA != negB then negA else if negA then magA > magB else magA < magB
  }

  predicate ValueLess(a: PrimitiveValue, b: PrimitiveValue)
    requires SameType(a, b)
  {
    match a
    case Bytes(x) => Less(x, b.raw)
    case String(x) => Less(x, b.utf8)
    case Int64(x) => x < b.i
    case Double(x) => TotalOrderLess(x, b.bits)
  }

  // ---------------------------------------------------------------------------
  // Order preservation

  function Pow256(w: nat): (r: nat)
    ensures r > 0
  {
    if w == 0 then 1 else 256 * Pow256(w - 1)
  }

  lemma {:induction false} BigEndianOrder(a: nat, b: nat, w: nat)
    requires a < Pow256(w) && b < Pow256(w)
    ensures Less(BigEndian(a, w), BigEndian(b, w)) <==> a < b
    decreases w
  {
    if w > 0 {
      BigEndianOrder(a / 256, b / 256, w - 1);
      BigEndianOrder(b / 256, a / 256, w - 1);
      var (x, y) := (BigEndian(a / 256, w - 1), BigEndian(b / 256, w - 1));
      LessSnoc(x, a % 256, y, b % 256);
      LessTotal(x, y);
      LessIrreflexive(x);
    }
  }

  lemma {:induction false} EightBytes()
    ensures Pow256(8) == TWO_64
  {
    assert Pow256(2) == 0x1_0000;
    assert Pow256(4) == 0x1_0000_0000;
    assert Pow256(6) == 0x1_0000_0000_0000;
  }

  lemma {:induction false} WordOrder(a: U64, b: U64)
    ensures Less(Word(a), Word(b)) <==> a < b
  {
    EightBytes();
    BigEndianOrder(a, b, 8);
  }

  lemma {:induction false} TaggedOrder(tag: Byte, x: Bytes, y: Bytes)
    ensures Less([tag] + x, [tag] + y) <==> Less(x, y)
  {
    LessCancelPrefix([tag], x, y);
  }

  lemma {:induction false} EscapeOrder(a: Bytes, b: Bytes)
    ensures Less(Escape(a) + [0], Escape(b) + [0]) <==> Less(a, b)
  {
    if a != [] && b != [] && a[0] == b[0] {
      EscapeOrder(a[1..], b[1..]);
      var head := if a[0] == 0 then [0, 255] else [a[0]];
      assert Escape(a) + [0] == head + (Escape(a[1..]) + [0]);
      assert Escape(b) + [0] == head + (Escape(b[1..]) + [0]);
      LessCancelPrefix(head, Escape(a[1..]) + [0], Escape(b[1..]) + [0]);
    } else if a != [] && b == [] && a[0] == 0 {
      assert (Escape(a) + [0])[1..] == [255] + Escape(a[1..]) + [0];
      assert (Escape(b) + [0])[1..] == [];
    } else if b != [] && a == [] && b[0] == 0 {
      assert (Escape(b) + [0])[1..] == [255] + Escape(b[1..]) + [0];
      assert (Escape(a) + [0])[1..] == [];
    } else if a == [] && b == [] {
      LessIrreflexive([0]);
    }
  }

  lemma {:induction false} BytesOrder(x: Bytes, y: Bytes)
    ensures Less(Encode(PrimitiveValue.Bytes(x)), Encode(PrimitiveValue.Bytes(y))) <==> Less(x, y)
  {
    EscapeOrder(x, y);
    assert [1] + Escape(x) + [0] == [1] + (Escape(x) + [0]);
    assert [1] + Escape(y) + [0] == [1] + (Escape(y) + [0]);
    TaggedOrder(1, Escape(x) + [0], Escape(y) + [0]);
  }

  lemma {:induction false} DoubleOrder(x: U64, y: U64)
    ensures OrderedDouble(x) < OrderedDouble(y) <==> TotalOrderLess(x, y)
  {
    assert x % TOP_BIT == if x >= TOP_BIT then x - TOP_BIT else x;
    assert y % TOP_BIT == if y >= TOP_BIT then y - TOP_BIT else y;
  }

  /** Byte order of encodings is value order, for each of the four primitive types. */
  lemma {:induction false} EncodeMonotone(a: PrimitiveValue, b: PrimitiveValue)
    requires SameType(a, b)
    ensures Less(Encode(a), Encode(b)) <==> ValueLess(a, b)
  {
    match a {
      case Bytes(x) =>
        BytesOrder(x, b.raw);
      case String(x) =>
        TaggedOrder(2, x, b.utf8);
      case Int64(x) =>
        var (u, v) := (FlipTop(AsU64(x)), FlipTop(AsU64(b.i)));
        WordOrder(u, v);
        TaggedOrder(3, Word(u), Word(v));
      case Double(x) =>
        DoubleOrder(x, b.bits);
        WordOrder(OrderedDouble(x), OrderedDouble(b.bits));
        TaggedOrder(4, Word(OrderedDouble(x)), Word(OrderedDouble(b.bits)));
    }
  }

  lemma {:induction false} ValueLessTotal(a: PrimitiveValue, b: PrimitiveValue)
    requires SameType(a, b) && !ValueLess(a, b) && !ValueLess(b, a)
    ensures a == b
  {
    match a {
      case Bytes(x) => LessTotal(x, b.raw);
      case String(x) => LessTotal(x, b.utf8);
      case Int64(x) =>
      case Double(x) =>
    }
  }

  /** No two values, of whatever types, share an encoding. */
  lemma {:induction false} EncodeInjective(a: PrimitiveValue, b: PrimitiveValue)
    requires Encode(a) == Encode(b)
    ensures a == b
  {
    assert Encode(a)[0] == Encode(b)[0];
    LessIrreflexive(Encode(a));
    EncodeMonotone(a, b);
    EncodeMonotone(b, a);
    ValueLessTotal(a, b);
  }

  // ---------------------------------------------------------------------------
  // Prefix freedom of the `pk 00` component of a set entry

  /** A primary key whose encoding can be told apart from what follows it. */
  predicate NulFree(v: PrimitiveValue) {
    v.String? ==> 0 !in v.utf8
  }

  lemma {:induction false} EscapePrefixFree(a: Bytes, b: Bytes)
    ensures Escape(a) + [0, 0] <= Escape(b) + [0, 0] ==> a == b
  {
    var (s, t) := (Escape(a) + [0, 0], Escape(b) + [0, 0]);
    EscapeHead(a);
    EscapeHead(b);
    if a != [] && b != [] && s <= t {
      assert s[0] == t[0] && a[0] == b[0];
      var n := if a[0] == 0 then 2 else 1;
      assert s[n..] <= t[n..];
      EscapePrefixFree(a[1..], b[1..]);
      assert a == [a[0]] + a[1..] && b == [b[0]] + b[1..];
    }
  }

  /** How a terminated escape starts and goes on. */
  lemma {:induction false} EscapeHead(a: Bytes)
    ensures var s := Escape(a) + [0, 0];
      if a == [] then s == [0, 0]
      else s[0] == a[0] && (a[0] == 0 ==> s[1] == 255) &&
           s[if a[0] == 0 then 2 else 1..] == Escape(a[1..]) + [0, 0]
  {
  }

  lemma {:induction false} StringPrefixFree(s: Bytes, t: Bytes)
    requires s + [0] <= t + [0]
    ensures s == t || 0 in t
  {
    if |s| < |t| {
      assert t[|s|] == (t + [0])[|s|] == (s + [0])[|s|];
    } else {
      assert s == (s + [0])[..|s|] == (t + [0])[..|s|] == t;
    }
  }

  /** The type tag is the first byte, and numbers take nine bytes. */
  lemma {:induction false} EncodeShape(v: PrimitiveValue)
    ensures |Encode(v)| > 0
    ensures Encode(v)[0] == (match v case Bytes(_) => 1 case String(_) => 2 case Int64(_) => 3 case Double(_) => 4)
    ensures v.Int64? || v.Double? ==> |Encode(v)| == 9
  {
  }

  /** `Encode(v) ++ 00` is a prefix code over all NUL-free primary keys, across types. */
  lemma {:induction false} EncodePrefixFree(a: PrimitiveValue, b: PrimitiveValue)
    requires NulFree(b)
    requires Encode(a) + [0] <= Encode(b) + [0]
    ensures a == b
  {
    EncodeShape(a);
    EncodeShape(b);
    assert SameType(a, b) by {
      assert (Encode(a) + [0])[0] == (Encode(b) + [0])[0];
    }
    if a.Bytes? {
      BytesPrefixFree(a.raw, b.raw);
    } else if a.String? {
      StringKeyPrefixFree(a.utf8, b.utf8);
    } else {
      FixedPrefixFree(Encode(a), Encode(b));
      EncodeInjective(a, b);
    }
  }

  lemma {:induction false} BytesPrefixFree(a: Bytes, b: Bytes)
    requires [1] + Escape(a) + [0] + [0] <= [1] + Escape(b) + [0] + [0]
    ensures a == b
  {
    var (x, y) := ([1] + Escape(a) + [0] + [0], [1] + Escape(b) + [0] + [0]);
    assert x[1..] == Escape(a) + [0, 0] && y[1..] == Escape(b) + [0, 0];
    EscapePrefixFree(a, b);
  }

  lemma {:induction false} StringKeyPrefixFree(s: Bytes, t: Bytes)
    requires [2] + s + [0] <= [2] + t + [0]
    ensures s == t || 0 in t
  {
    assert ([2] + s + [0])[1..] == s + [0] && ([2] + t + [0])[1..] == t + [0];
    StringPrefixFree(s, t);
  }

  lemma {:induction false} FixedPrefixFree(x: Bytes, y: Bytes)
    requires |x| == |y| && x + [0] <= y + [0]
    ensures x == y
  {
    assert x == (x + [0])[..|x|] && y == (y + [0])[..|x|];
  }

  /** The NUL-free condition is exact: a value collides with some other value's entry prefix iff it has a NUL. */
  lemma {:induction false} PrefixCollisionIffNul(b: PrimitiveValue)
    ensures (exists a: PrimitiveValue :: a != b && Encode(a) + [0] <= Encode(b) + [0]) <==> !NulFree(b)
  {
    if NulFree(b) {
      forall a: PrimitiveValue | Encode(a) + [0] <= Encode(b) + [0] ensures a == b {
        EncodePrefixFree(a, b);
      }
    } else {
      var i :| 0 <= i < |b.utf8| && b.utf8[i] == 0;
      var a := String(b.utf8[..i]);
      assert Encode(a) + [0] == [2] + b.utf8[..i + 1];
      assert Encode(a) + [0] == (Encode(b) + [0])[..i + 2];
    }
  }

  /** The raw primary-key bytes that a set entry may carry. */
  ghost predicate IsPrimaryKey(pk: Bytes) {
    exists v: PrimitiveValue :: NulFree(v) && Encode(v) == pk
  }

  /** Two entry components that agree as far as the shorter one goes are the same component. */
  lemma {:induction false} EntryComponentsApart(a: Bytes, b: Bytes)
    requires IsPrimaryKey(a) && IsPrimaryKey(b)
    requires Comparable(a + [0], b + [0])
    ensures a == b
  {
    var x: PrimitiveValue :| NulFree(x) && Encode(x) == a;
    var y: PrimitiveValue :| NulFree(y) && Encode(y) == b;
    if a + [0] <= b + [0] { EncodePrefixFree(x, y); } else { EncodePrefixFree(y, x); }
  }
}
