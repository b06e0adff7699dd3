/**
 Reducing over a set: the scan range of a reduce holds exactly the members whose primary
 keys lie between the given bounds, and the fold visits them in ascending order.
 */
module SetScan {
  import opened Wrappers
  import opened ByteStrings
  import opened KeyEncoding
  import opened StoragePlans
  import opened PathWalker
  import opened KeySpace
  import opened DocumentStore
  import opened IndexAgreement
  import opened StoredDocuments
  import opened RoundTrip
  import MemKv

  // ---------------------------------------------------------------------------
  // Scan ranges

  function RangeStart(prefix: Bytes, start: Option<PrimitiveValue>): Bytes {
    if start.None? then prefix else prefix + Encode(start.value)
  }

  /** Without an upper bound the range ends after the last key that starts with the prefix. */
  function RangeEnd(prefix: Bytes, end: Option<PrimitiveValue>): Bytes
    requires prefix != [] && prefix[|prefix| - 1] < 255
  {
    if end.None? then Bump(prefix) else prefix + Encode(end.value)
  }

  /** `start <= pk < end` on serialised keys; a missing bound admits everything. */
  predicate WithinBounds(pk: Bytes, start: Option<PrimitiveValue>, end: Option<PrimitiveValue>) {
    (start.Some? ==> !Less(pk, Encode(start.value))) && (end.Some? ==> Less(pk, Encode(end.value)))
  }

  /** The scan range holds exactly the keys under the prefix whose rest is within the bounds. */
  lemma {:induction false} ScanRange(prefix: Bytes, start: Option<PrimitiveValue>, end: Option<PrimitiveValue>,
                                     k: Bytes)
    requires prefix != [] && prefix[|prefix| - 1] < 255
    ensures InRange(k, RangeStart(prefix, start), RangeEnd(prefix, end)) <==>
            prefix <= k && WithinBounds(k[|prefix|..], start, end)
  {
    var lo := if start.None? then [] else Encode(start.value);
    assert RangeStart(prefix, start) == prefix + lo;
    if end.Some? {
      RangeUnderPrefix(prefix, lo, Encode(end.value), k);
    } else {
      PrefixRange(prefix, k);
      if prefix <= k {
        assert k == prefix + k[|prefix|..];
        LessCancelPrefix(prefix, k[|prefix|..], lo);
      } else {
        NotBelowExtension(k, prefix, lo);
      }
    }
  }

  /** A key below a prefix is below every extension of it. */
  lemma {:induction false} NotBelowExtension(k: Bytes, prefix: Bytes, lo: Bytes)
    ensures Less(k, prefix) ==> Less(k, prefix + lo)
  {
    if k != [] && prefix != [] {
      NotBelowExtension(k[1..], prefix[1..], lo);
      assert (prefix + lo)[1..] == prefix[1..] + lo;
    }
  }

  /** On values of the set's key type the bounds are bounds of the value order. */
  lemma {:induction false} BoundsOnValues(v: PrimitiveValue, start: Option<PrimitiveValue>, end: Option<PrimitiveValue>)
    requires (start.Some? ==> SameType(v, start.value)) && (end.Some? ==> SameType(v, end.value))
    ensures WithinBounds(Encode(v), start, end) <==>
            (start.Some? ==> !ValueLess(v, start.value)) && (end.Some? ==> ValueLess(v, end.value))
  {
    if start.Some? { EncodeMonotone(v, start.value); }
    if end.Some? { EncodeMonotone(v, end.value); }
  }

  // ---------------------------------------------------------------------------
  // The fold

  /** A scanned key without the prefix; that the prefix is there is `ScanUnderPrefix`. */
  function Strip(prefix: Bytes, k: Bytes): Bytes {
    if prefix <= k then k[|prefix|..] else k
  }

  /** Fold over scanned keys: an unreachable entry fails, a null stops with the accumulator so far. */
  function FoldMembers<A>(body: (A, Walker) -> Result<Option<A>, WalkError>, w: Walker, keys: seq<Bytes>, acc: A)
    : Result<A, WalkError>
    decreases |keys|
  {
    if keys == [] then Success(acc) else
    match EnterSet(w, Strip(FastScanPrefix(w), keys[0]))
    case Failure(e) => Failure(e)
    case Success(row) =>
      match body(acc, row)
      case Failure(e) => Failure(e)
      case Success(None) => Success(acc)
      case Success(Some(acc')) => FoldMembers(body, w, keys[1..], acc')
  }

  /**
   A reduction over the members `pks`: `accs[i]` is the accumulator when member `i` is reached, each the body's result on
   the one before; it ends after the last member, at the first member where the body gives null, or with the first error.
   */
  predicate Reduces<A(==)>(body: (A, Walker) -> Result<Option<A>, WalkError>, w: Walker, pks: seq<Bytes>, accs: seq<A>,
                           r: Result<A, WalkError>)
  {
    0 < |accs| <= |pks| + 1 &&
    (forall i :: 0 <= i < |accs| - 1 ==>
       EnterSet(w, pks[i]).Success? && body(accs[i], EnterSet(w, pks[i]).value) == Success(Some(accs[i + 1]))) &&
    var n := |accs| - 1;
    if n == |pks| then r == Success(accs[n])
    else if EnterSet(w, pks[n]).Failure? then r == Failure(EnterSet(w, pks[n]).error)
    else
      match body(accs[n], EnterSet(w, pks[n]).value)
      case Success(None) => r == Success(accs[n])
      case Success(Some(_)) => false
      case Failure(e) => r == Failure(e)
  }

  function Stripped(prefix: Bytes, keys: seq<Bytes>): seq<Bytes> {
    seq(|keys|, i requires 0 <= i < |keys| => Strip(prefix, keys[i]))
  }

  /** The accumulators of the fold. */
  function Trace<A>(body: (A, Walker) -> Result<Option<A>, WalkError>, w: Walker, pks: seq<Bytes>, acc: A): seq<A>
    decreases |pks|
  {
    if pks == [] || EnterSet(w, pks[0]).Failure? then [acc] else
    match body(acc, EnterSet(w, pks[0]).value)
    case Success(Some(acc')) => [acc] + Trace(body, w, pks[1..], acc')
    case _ => [acc]
  }

  /** The fold is a reduction, and it has the result of any reduction from the same start. */
  lemma {:induction false} FoldReduces<A>(body: (A, Walker) -> Result<Option<A>, WalkError>, w: Walker, keys: seq<Bytes>,
                                          init: A)
    ensures var (pks, r) := (Stripped(FastScanPrefix(w), keys), FoldMembers(body, w, keys, init));
      Trace(body, w, pks, init)[0] == init && Reduces(body, w, pks, Trace(body, w, pks, init), r)
    decreases |keys|
  {
    var (prefix, pks) := (FastScanPrefix(w), Stripped(FastScanPrefix(w), keys));
    if keys != [] && EnterSet(w, pks[0]).Success? {
      var row := EnterSet(w, pks[0]).value;
      if body(init, row).Success? && body(init, row).value.Some? {
        var acc := body(init, row).value.value;
        assert pks[1..] == Stripped(prefix, keys[1..]);
        FoldReduces(body, w, keys[1..], acc);
        var rest := Trace(body, w, pks[1..], acc);
        var accs := [init] + rest;
        forall i | 0 <= i < |accs| - 1
          ensures EnterSet(w, pks[i]).Success? && body(accs[i], EnterSet(w, pks[i]).value) == Success(Some(accs[i + 1]))
        {
          if i > 0 { assert accs[i] == rest[i - 1] && accs[i + 1] == rest[i] && pks[i] == pks[1..][i - 1]; }
        }
        assert |accs| - 1 < |pks| ==> pks[|accs| - 1] == pks[1..][|rest| - 1];
        assert accs[|accs| - 1] == rest[|rest| - 1];
      }
    }
  }

  lemma {:induction false} ReductionUnique<A>(body: (A, Walker) -> Result<Option<A>, WalkError>, w: Walker,
                                              keys: seq<Bytes>, accs: seq<A>, r: Result<A, WalkError>)
    requires Reduces(body, w, Stripped(FastScanPrefix(w), keys), accs, r)
    ensures r == FoldMembers(body, w, keys, accs[0])
    decreases |keys|
  {
    var (prefix, pks) := (FastScanPrefix(w), Stripped(FastScanPrefix(w), keys));
    if |accs| > 1 {
      var rest := accs[1..];
      assert pks[1..] == Stripped(prefix, keys[1..]);
      assert body(accs[0], EnterSet(w, pks[0]).value) == Success(Some(accs[1]));
      forall i | 0 <= i < |rest| - 1
        ensures EnterSet(w, pks[1..][i]).Success?
        ensures body(rest[i], EnterSet(w, pks[1..][i]).value) == Success(Some(rest[i + 1]))
      {
        assert rest[i] == accs[i + 1] && rest[i + 1] == accs[i + 2] && pks[1..][i] == pks[i + 1];
      }
      assert |rest| - 1 < |pks[1..]| ==> pks[1..][|rest| - 1] == pks[|accs| - 1];
      assert rest[|rest| - 1] == accs[|accs| - 1];
      ReductionUnique(body, w, keys[1..], rest, r);
    }
  }

  ghost function ScanOf(s: MemKv.Store<Stored>, w: Walker, start: Option<PrimitiveValue>, end: Option<PrimitiveValue>)
    : seq<Bytes>
  {
    MemKv.Sorted(MemKv.LiveKeysIn(s, RangeStart(FastScanPrefix(w), start), RangeEnd(FastScanPrefix(w), end)))
  }

  /** Every scanned key has the prefix, so stripping it leaves the primary key. */
  lemma {:induction false} ScanUnderPrefix(s: MemKv.Store<Stored>, w: Walker, start: Option<PrimitiveValue>,
                                           end: Option<PrimitiveValue>, i: nat)
    requires i < |ScanOf(s, w, start, end)|
    ensures var k := ScanOf(s, w, start, end)[i];
      k == FastScanPrefix(w) + Strip(FastScanPrefix(w), k) && WithinBounds(Strip(FastScanPrefix(w), k), start, end)
  {
    var (prefix, k) := (FastScanPrefix(w), ScanOf(s, w, start, end)[i]);
    ListedInRange(s, RangeStart(prefix, start), RangeEnd(prefix, end), i);
    ScanRange(prefix, start, end, k);
    StripUndone(prefix, k);
  }

  lemma {:induction false} ListedInRange(s: MemKv.Store<Stored>, lo: Bytes, hi: Bytes, i: nat)
    requires i < |MemKv.Sorted(MemKv.LiveKeysIn(s, lo, hi))|
    ensures InRange(MemKv.Sorted(MemKv.LiveKeysIn(s, lo, hi))[i], lo, hi)
  {
    var keys := MemKv.Sorted(MemKv.LiveKeysIn(s, lo, hi));
    MemKv.SortedFacts(MemKv.LiveKeysIn(s, lo, hi));
    assert keys[i] in keys;
  }

  lemma {:induction false} StripUndone(prefix: Bytes, k: Bytes)
    requires prefix <= k
    ensures k == prefix + Strip(prefix, k) && Strip(prefix, k) == k[|prefix|..]
  {
  }

  /** The set branch of the `Reduce` node: scan the index, enter each entry, run the body. */
  method ReduceSet<A>(txn: MemKv.MemTransaction<Stored>, w: Walker, start: Option<PrimitiveValue>,
                      end: Option<PrimitiveValue>, init: A, body: (A, Walker) -> Result<Option<A>, WalkError>)
    returns (r: Result<A, WalkError>)
    ensures r == if w.node.set_.None? then Failure(NotSet)
                 else FoldMembers(body, w, ScanOf(txn.buffer, w, start, end), init)
    ensures w.node.set_.Some? ==>
      var pks := Stripped(FastScanPrefix(w), ScanOf(txn.buffer, w, start, end));
      Trace(body, w, pks, init)[0] == init && Reduces(body, w, pks, Trace(body, w, pks, init), r)
  {
    FoldReduces(body, w, ScanOf(txn.buffer, w, start, end), init);
    if w.node.set_.None? { return Failure(NotSet); }
    var key := GenerateKey(w);
    var prefix := key + [INDEX_MARK];
    var it := txn.ScanKeys(RangeStart(prefix, start), RangeEnd(prefix, end));
    r := Iterate(it, prefix, w, init, body);
  }

  /** The loop over the iterator. */
  method Iterate<A>(it: MemKv.MemIterator<Stored>, prefix: Bytes, w: Walker, init: A,
                    body: (A, Walker) -> Result<Option<A>, WalkError>) returns (r: Result<A, WalkError>)
    requires prefix == FastScanPrefix(w)
    modifies it
    ensures r == FoldMembers(body, w, MemKv.Sorted(MemKv.LiveKeysIn(it.map_, old(it.current), it.end)), init)
  {
    var acc := init;
    ghost var all := MemKv.Sorted(MemKv.LiveKeysIn(it.map_, it.current, it.end));
    while true
      invariant FoldMembers(body, w, all, init) ==
                FoldMembers(body, w, MemKv.Sorted(MemKv.LiveKeysIn(it.map_, it.current, it.end)), acc)
      decreases MemKv.LiveKeysIn(it.map_, it.current, it.end)
    {
      ghost var live := MemKv.LiveKeysIn(it.map_, it.current, it.end);
      var k := it.Next();
      if k.None? { return Success(acc); }
      MemKv.SortedStep(live, k.value);
      assert MemKv.Sorted(live)[1..] == MemKv.Sorted(live - {k.value});
      var row := EnterSet(w, Strip(prefix, k.value));
      if row.Failure? { return Failure(row.error); }
      var out := body(acc, row.value);
      if out.Failure? { return Failure(out.error); }
      if out.value.None? { return Success(acc); }
      acc := out.value.value;
    }
  }

  // ---------------------------------------------------------------------------
  // What the fold visits

  /**
   In a store whose index agrees with its data, a reduce scans the entry of a primary key if and only if the member is
   there and its key is within the bounds; and it scans in strictly ascending order, so no member twice.
   */
  lemma {:induction false} ReduceVisitsMembers(primary: Primary, plan: Plan, s: MemKv.Store<Stored>, a: Cells,
                                               e: string, p: seq<Step>, start: Option<PrimitiveValue>,
                                               end: Option<PrimitiveValue>, pk: Bytes)
    requires GoodPlan(plan) && Represents(plan, MemKv.Live(s), a) && Agrees(primary, a) && SetPlace(plan, e, p)
    ensures var (w, keys) := (WalkPlan(plan, e, p).value, ScanOf(s, WalkPlan(plan, e, p).value, start, end));
      (FastScanPrefix(w) + pk in keys <==> Data(e, p + [Entry(pk)]) in a && WithinBounds(pk, start, end)) &&
      forall i, j :: 0 <= i < j < |keys| ==> Less(keys[i], keys[j])
  {
    var w := WalkPlan(plan, e, p).value;
    var (prefix, k) := (FastScanPrefix(w), FastScanPrefix(w) + pk);
    MemKv.SortedFacts(MemKv.LiveKeysIn(s, RangeStart(prefix, start), RangeEnd(prefix, end)));
    ScanRange(prefix, start, end, k);
    assert k[|prefix|..] == pk && prefix <= k;
    InLive(s, k);
    IndexedIffScanned(plan, MemKv.Live(s), a, e, p, pk);
    assert AgreesAt(primary, a, e, p, pk);
  }

  lemma {:induction false} InLive(s: MemKv.Store<Stored>, k: Bytes)
    ensures k in MemKv.Live(s) <==> k in s && s[k].value.Some?
  {
  }

  lemma {:induction false} IndexedIffScanned(plan: Plan, m: Contents, a: Cells, e: string, p: seq<Step>, pk: Bytes)
    requires GoodPlan(plan) && Represents(plan, m, a) && SetPlace(plan, e, p)
    ensures FastScanPrefix(WalkPlan(plan, e, p).value) + pk in m <==> Index(e, p, pk) in a
  {
    var prefix := FastScanPrefix(WalkPlan(plan, e, p).value);
    IndexCell(plan, e, p, pk);
    if Index(e, p, pk) in a {
      assert Kept(plan, m, a, Index(e, p, pk));
    } else if prefix + pk in m {
      assert (prefix + pk)[|prefix|..] == pk;
      ScannedCell(plan, m, a, e, p, prefix + pk);
    }
  }

  /** Stripping the common prefix keeps the order. */
  lemma {:induction false} StrippedAscending(s: MemKv.Store<Stored>, w: Walker, start: Option<PrimitiveValue>,
                                             end: Option<PrimitiveValue>, i: nat, j: nat)
    requires i < j < |ScanOf(s, w, start, end)|
    ensures var pks := Stripped(FastScanPrefix(w), ScanOf(s, w, start, end)); Less(pks[i], pks[j])
  {
    var (prefix, keys) := (FastScanPrefix(w), ScanOf(s, w, start, end));
    MemKv.SortedFacts(MemKv.LiveKeysIn(s, RangeStart(prefix, start), RangeEnd(prefix, end)));
    ScanUnderPrefix(s, w, start, end, i);
    ScanUnderPrefix(s, w, start, end, j);
    LessCancelPrefix(prefix, Strip(prefix, keys[i]), Strip(prefix, keys[j]));
  }

  lemma {:induction false} StrippedMember(s: MemKv.Store<Stored>, w: Walker, start: Option<PrimitiveValue>,
                                          end: Option<PrimitiveValue>, pk: Bytes)
    ensures var (prefix, keys) := (FastScanPrefix(w), ScanOf(s, w, start, end));
      pk in Stripped(prefix, keys) <==> prefix + pk in keys
  {
    var (prefix, keys) := (FastScanPrefix(w), ScanOf(s, w, start, end));
    var pks := Stripped(prefix, keys);
    if pk in pks {
      var i :| 0 <= i < |pks| && pks[i] == pk;
      ScanUnderPrefix(s, w, start, end, i);
      assert keys[i] in keys;
    }
    if prefix + pk in keys {
      var i :| 0 <= i < |keys| && keys[i] == prefix + pk;
      assert pks[i] == Strip(prefix, keys[i]) == pk;
    }
  }

  /**
   A reduce over a stored set is the fold of its body over the members within the bounds: `pks` lists exactly those, in
   strictly ascending order, each entered where the path to it leads, and the result is that of the accumulators `accs`
   that start with `init`.
   */
  lemma {:induction false} ReduceFoldsMembers<A>(primary: Primary, plan: Plan, s: MemKv.Store<Stored>, a: Cells,
                                                 e: string, p: seq<Step>, start: Option<PrimitiveValue>,
                                                 end: Option<PrimitiveValue>, init: A,
                                                 body: (A, Walker) -> Result<Option<A>, WalkError>)
    returns (pks: seq<Bytes>, accs: seq<A>)
    requires GoodPlan(plan) && Represents(plan, MemKv.Live(s), a) && Agrees(primary, a) && SetPlace(plan, e, p)
    ensures forall i, j :: 0 <= i < j < |pks| ==> Less(pks[i], pks[j])
    ensures forall pk :: pk in pks <==> Data(e, p + [Entry(pk)]) in a && WithinBounds(pk, start, end)
    ensures var w := WalkPlan(plan, e, p).value;
      0 < |accs| && accs[0] == init && Reduces(body, w, pks, accs, FoldMembers(body, w, ScanOf(s, w, start, end), init))
    ensures forall pk :: EnterSet(WalkPlan(plan, e, p).value, pk) == WalkPlan(plan, e, p + [Entry(pk)])
  {
    var w := WalkPlan(plan, e, p).value;
    pks := Stripped(FastScanPrefix(w), ScanOf(s, w, start, end));
    accs := Trace(body, w, pks, init);
    FoldReduces(body, w, ScanOf(s, w, start, end), init);
    forall i, j | 0 <= i < j < |pks| ensures Less(pks[i], pks[j]) { StrippedAscending(s, w, start, end, i, j); }
    forall pk ensures pk in pks <==> Data(e, p + [Entry(pk)]) in a && WithinBounds(pk, start, end) {
      StrippedMember(s, w, start, end, pk);
      ReduceVisitsMembers(primary, plan, s, a, e, p, start, end, pk);
    }
    forall pk ensures EnterSet(w, pk) == WalkPlan(plan, e, p + [Entry(pk)]) { EntryWalk(plan, e, p, pk); }
  }

  lemma {:induction false} EntryWalk(plan: Plan, e: string, p: seq<Step>, pk: Bytes)
    requires WalkPlan(plan, e, p).Success?
    ensures EnterSet(WalkPlan(plan, e, p).value, pk) == WalkPlan(plan, e, p + [Entry(pk)])
  {
    WalkConcat(FromExport(plan, e).value, p, [Entry(pk)]);
    assert [Entry(pk)][1..] == [];
  }

  /** And members whose keys are values of one type are visited in the order of those values. */
  lemma {:induction false} ReduceVisitsInValueOrder(s: MemKv.Store<Stored>, w: Walker, start: Option<PrimitiveValue>,
                                                    end: Option<PrimitiveValue>, i: nat, j: nat, v: PrimitiveValue,
                                                    u: PrimitiveValue)
    requires i < |ScanOf(s, w, start, end)| && j < |ScanOf(s, w, start, end)| && SameType(v, u)
    requires ScanOf(s, w, start, end)[i] == FastScanPrefix(w) + Encode(v)
    requires ScanOf(s, w, start, end)[j] == FastScanPrefix(w) + Encode(u)
    ensures i < j <==> ValueLess(v, u)
  {
    var (prefix, keys) := (FastScanPrefix(w), ScanOf(s, w, start, end));
    MemKv.SortedFacts(MemKv.LiveKeysIn(s, RangeStart(prefix, start), RangeEnd(prefix, end)));
    LessCancelPrefix(prefix, Encode(v), Encode(u));
    EncodeMonotone(v, u);
    if j < i { LessAsymmetric(keys[j], keys[i]); }
    if i == j { LessIrreflexive(keys[i]); }
  }
}
