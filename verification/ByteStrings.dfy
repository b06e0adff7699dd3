/**
 Byte strings and the lexicographic order that the ordered key-value stores use
 (the `Ord` of `Vec<u8>`, and `k >= ? and k < ?` on SQLite blobs).
 */
module ByteStrings {

  type Byte = b: int | 0 <= b < 256

  type Bytes = seq<Byte>

  /** Strict lexicographic order. */
  predicate Less(a: Bytes, b: Bytes) {
    b != [] && (a == [] || a[0] < b[0] || (a[0] == b[0] && Less(a[1..], b[1..])))
  }

  /** Membership in the half-open key range that scans and range deletes take. */
  predicate InRange(k: Bytes, lo: Bytes, hi: Bytes) {
    !Less(k, lo) && Less(k, hi)
  }

  /** One of the two is a prefix of the other. */
  predicate Comparable(a: Bytes, b: Bytes) {
    a <= b || b <= a
  }

  lemma {:induction false} LessIrreflexive(a: Bytes)
    ensures !Less(a, a)
  {
    if a != [] { LessIrreflexive(a[1..]); }
  }

  lemma {:induction false} LessTransitive(a: Bytes, b: Bytes, c: Bytes)
    requires Less(a, b) && Less(b, c)
    ensures Less(a, c)
  {
    if a != [] && a[0] == b[0] == c[0] { LessTransitive(a[1..], b[1..], c[1..]); }
  }

  lemma {:induction false} LessTotal(a: Bytes, b: Bytes)
    ensures a == b || Less(a, b) || Less(b, a)
  {
    if a != [] && b != [] && a[0] == b[0] {
      LessTotal(a[1..], b[1..]);
      assert a == [a[0]] + a[1..] && b == [b[0]] + b[1..];
    }
  }

  lemma {:induction false} LessAsymmetric(a: Bytes, b: Bytes)
    requires Less(a, b)
    ensures !Less(b, a)
  {
    if Less(b, a) {
      LessTransitive(a, b, a);
      LessIrreflexive(a);
    }
  }

  /** A common prefix does not take part in a comparison. */
  lemma {:induction false} LessCancelPrefix(p: Bytes, a: Bytes, b: Bytes)
    ensures Less(p + a, p + b) <==> Less(a, b)
  {
    if p == [] {
      assert p + a == a && p + b == b;
    } else {
      LessCancelPrefix(p[1..], a, b);
      assert (p + a)[1..] == p[1..] + a && (p + b)[1..] == p[1..] + b;
    }
  }

  /** Between equally long heads, the last byte only breaks ties. */
  lemma {:induction false} LessSnoc(a: Bytes, i: Byte, b: Bytes, j: Byte)
    requires |a| == |b|
    ensures Less(a + [i], b + [j]) <==> Less(a, b) || (a == b && i < j)
  {
    if a != [] {
      LessSnoc(a[1..], i, b[1..], j);
      assert (a + [i])[1..] == a[1..] + [i] && (b + [j])[1..] == b[1..] + [j];
      assert a == [a[0]] + a[1..] && b == [b[0]] + b[1..];
    }
  }

  /** `k ++ 00` is the immediate successor of `k`: nothing lies strictly between them. */
  lemma {:induction false} ImmediateSuccessor(k: Bytes, x: Bytes)
    ensures Less(k, x) <==> !Less(x, k + [0])
  {
    if k != [] && x != [] {
      ImmediateSuccessor(k[1..], x[1..]);
      assert (k + [0])[1..] == k[1..] + [0];
    }
  }

  /** The prefix with its last byte incremented: the upper end of the executor's range scans and deletes. */
  function Bump(p: Bytes): (r: Bytes)
    requires p != [] && p[|p| - 1] < 255
    ensures |r| == |p|
  {
    p[|p| - 1 := p[|p| - 1] + 1]
  }

  /** The range from a prefix to its bumped form holds exactly the keys that start with the prefix. */
  lemma {:induction false} PrefixRange(p: Bytes, k: Bytes)
    requires p != [] && p[|p| - 1] < 255
    ensures InRange(k, p, Bump(p)) <==> p <= k
  {
    if |p| > 1 && k != [] {
      PrefixRange(p[1..], k[1..]);
      assert Bump(p)[1..] == Bump(p[1..]);
      assert p == [p[0]] + p[1..] && k == [k[0]] + k[1..];
      assert p <= k <==> p[0] == k[0] && p[1..] <= k[1..];
    } else if k != [] {
      assert p[1..] == [] && Bump(p)[1..] == [] && p == [p[0]];
      assert k == [k[0]] + k[1..];
      assert p <= k <==> p[0] == k[0];
      assert !Less(k[1..], []) && !Less(k[1..], p[1..]);
    }
  }

  /** Prefixing both ends of a range yields exactly the prefixed keys of the range, and no foreign key. */
  lemma {:induction false} RangeUnderPrefix(p: Bytes, lo: Bytes, hi: Bytes, x: Bytes)
    ensures InRange(x, p + lo, p + hi) <==> p <= x && InRange(x[|p|..], lo, hi)
  {
    if p == [] {
      assert p + lo == lo && p + hi == hi && x[0..] == x;
    } else if x != [] {
      RangeUnderPrefix(p[1..], lo, hi, x[1..]);
      assert (p + lo)[1..] == p[1..] + lo && (p + hi)[1..] == p[1..] + hi;
      assert p == [p[0]] + p[1..] && x == [x[0]] + x[1..];
      assert p <= x <==> p[0] == x[0] && p[1..] <= x[1..];
      if p <= x {
        assert x[1..][|p| - 1..] == x[|p|..];
      }
    }
  }

  /** A common first part does not take part in the prefix order either. */
  lemma {:induction false} PrefixCancel(p: Bytes, a: Bytes, b: Bytes)
    ensures p + a <= p + b <==> a <= b
  {
    if p + a <= p + b {
      assert a == (p + a)[|p|..] && b == (p + b)[|p|..];
      assert p + a == (p + b)[..|p + a|];
      assert a == b[..|a|];
    }
  }

  lemma {:induction false} Associate(a: Bytes, b: Bytes, c: Bytes)
    ensures a + b + c == a + (b + c)
  {
  }

  /** Two prefixes of one string are comparable. */
  lemma {:induction false} PrefixesComparable(a: Bytes, b: Bytes, k: Bytes)
    requires a <= k && b <= k
    ensures Comparable(a, b)
  {
    assert a == k[..|a|] && b == k[..|b|];
    if |a| <= |b| { assert a == b[..|a|]; } else { assert b == a[..|b|]; }
  }
}
