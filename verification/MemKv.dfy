/**
 The in-memory multi-version store: snapshots, per-key versions, tombstones and a
 commit that validates before it writes.
 */
module MemKv {
  import opened Wrappers
  import opened ByteStrings

  /** A stored cell; `None` is a tombstone. Versions do not wrap. */
  datatype Cell<+V> = Cell(value: Option<V>, version: nat)

  type Store<V> = map<Bytes, Cell<V>>

  /** A transaction: its snapshot, its working copy, and the versions its writes started from. */
  datatype Txn<V> = Txn(snapshot: Store<V>, buffer: Store<V>, modified: map<Bytes, nat>)

  function Version<V>(m: Store<V>, k: Bytes): nat {
    if k in m then m[k].version else 0
  }

  function Lookup<V>(m: Store<V>, k: Bytes): Option<Cell<V>> {
    if k in m then Some(m[k]) else None
  }

  function LiveAt<V>(m: Store<V>, k: Bytes): Option<V> {
    if k in m then m[k].value else None
  }

  /** What a client can see of a store. */
  function Live<V>(m: Store<V>): map<Bytes, V> {
    map k | k in m && m[k].value.Some? :: m[k].value.value
  }

  function BeginTxn<V>(m: Store<V>): Txn<V> {
    Txn(m, m, map[])
  }

  /** Overwrite one key of the working copy, by a value or a tombstone. */
  function Write<V>(t: Txn<V>, k: Bytes, v: Option<V>): Txn<V> {
    t.(buffer := t.buffer[k := Cell(v, Version(t.buffer, k) + 1)],
       modified := if k in t.modified then t.modified else t.modified[k := Version(t.buffer, k)])
  }

  function KeysIn<V>(m: Store<V>, lo: Bytes, hi: Bytes): set<Bytes> {
    set k | k in m && InRange(k, lo, hi)
  }

  /** Overwrite a set of keys of the working copy by tombstones. */
  function Erase<V>(t: Txn<V>, keys: set<Bytes>): Txn<V> {
    Txn(t.snapshot,
        map k | k in t.buffer.Keys + keys :: if k in keys then Cell(None, Version(t.buffer, k) + 1) else t.buffer[k],
        map k | k in t.modified.Keys + keys :: if k in t.modified then t.modified[k] else Version(t.buffer, k))
  }

  /** A range delete writes tombstones for the keys the working copy has in the range, tombstones included. */
  function EraseRange<V>(t: Txn<V>, lo: Bytes, hi: Bytes): Txn<V> {
    Erase(t, KeysIn(t.buffer, lo, hi))
  }

  function LiveKeysIn<V>(m: Store<V>, lo: Bytes, hi: Bytes): set<Bytes> {
    set k | k in m && InRange(k, lo, hi) && m[k].value.Some?
  }

  predicate Conflicts<V>(m: Store<V>, t: Txn<V>) {
    exists k <- t.modified :: Version(m, k) != t.modified[k]
  }

  ghost predicate TxnOk<V>(t: Txn<V>) {
    t.modified.Keys <= t.buffer.Keys && t.snapshot.Keys <= t.buffer.Keys &&
    (forall k <- t.modified :: t.modified[k] == Version(t.snapshot, k) && t.buffer[k].version > t.modified[k]) &&
    (forall k <- t.buffer :: k !in t.modified ==> k in t.snapshot && t.buffer[k] == t.snapshot[k])
  }

  /** The store after a transaction's writes went in. */
  function CommitInto<V>(m: Store<V>, t: Txn<V>): Store<V>
    requires t.modified.Keys <= t.buffer.Keys
  {
    map k | k in m.Keys + t.modified.Keys :: if k in t.modified then t.buffer[k] else m[k]
  }

  lemma {:induction false} WriteOk<V>(t: Txn<V>, k: Bytes, v: Option<V>)
    requires TxnOk(t)
    ensures TxnOk(Write(t, k, v))
  {
  }

  lemma {:induction false} EraseOk<V>(t: Txn<V>, keys: set<Bytes>)
    requires TxnOk(t) && keys <= t.buffer.Keys
    ensures TxnOk(Erase(t, keys))
  {
  }

  lemma {:induction false} EraseNone<V>(t: Txn<V>)
    ensures Erase(t, {}) == t
  {
    assert Erase(t, {}).buffer == t.buffer && Erase(t, {}).modified == t.modified;
  }

  /** Erasing a set of keys is erasing them one by one. */
  lemma {:induction false} EraseOne<V>(t: Txn<V>, done: set<Bytes>, k: Bytes)
    requires k !in done
    ensures Erase(t, done + {k}) == Write(Erase(t, done), k, None)
  {
    EraseOneBuffer(t, done, k);
    EraseOneModified(t, done, k);
  }

  lemma {:induction false} EraseOneBuffer<V>(t: Txn<V>, done: set<Bytes>, k: Bytes)
    requires k !in done
    ensures Erase(t, done + {k}).buffer == Write(Erase(t, done), k, None).buffer
  {
    var (a, b) := (Erase(t, done + {k}).buffer, Write(Erase(t, done), k, None).buffer);
    assert a.Keys == t.buffer.Keys + done + {k} == b.Keys;
    forall x <- a.Keys ensures a[x] == b[x] {
      EraseOneAt(t, done, k, x);
    }
  }

  lemma {:induction false} EraseOneAt<V>(t: Txn<V>, done: set<Bytes>, k: Bytes, x: Bytes)
    requires k !in done && x in t.buffer.Keys + done + {k}
    ensures x in Erase(t, done + {k}).buffer && x in Write(Erase(t, done), k, None).buffer
    ensures Erase(t, done + {k}).buffer[x] == Write(Erase(t, done), k, None).buffer[x]
  {
    assert Version(Erase(t, done).buffer, k) == Version(t.buffer, k);
  }

  lemma {:induction false} EraseOneModified<V>(t: Txn<V>, done: set<Bytes>, k: Bytes)
    requires k !in done
    ensures Erase(t, done + {k}).modified == Write(Erase(t, done), k, None).modified
  {
    var (a, b) := (Erase(t, done + {k}).modified, Erase(t, done).modified);
    assert Version(Erase(t, done).buffer, k) == Version(t.buffer, k);
    assert a.Keys == b.Keys + {k};
  }

  /** A point write to the working copy is a point update of what it shows. */
  lemma {:induction false} WriteLive<V>(t: Txn<V>, k: Bytes, v: Option<V>)
    ensures Live(Write(t, k, v).buffer) == if v.Some? then Live(t.buffer)[k := v.value] else Live(t.buffer) - {k}
  {
  }

  /** A range delete hides exactly the keys of the range. */
  lemma {:induction false} EraseRangeLive<V>(t: Txn<V>, lo: Bytes, hi: Bytes)
    ensures Live(EraseRange(t, lo, hi).buffer) == map k | k in Live(t.buffer) && !InRange(k, lo, hi) :: Live(t.buffer)[k]
  {
  }

  // ---------------------------------------------------------------------------
  // The store and its transactions

  class MemStore<V> {
    var data: map<Bytes, Cell<V>>
    var txnCount: nat

    constructor ()
      ensures data == map[] && txnCount == 0
    {
      data := map[];
      txnCount := 0;
    }

    method BeginTransaction() returns (t: MemTransaction<V>)
      modifies this`txnCount
      ensures fresh(t) && t.store == this && t.id == txnCount == old(txnCount) + 1
      ensures t.View() == BeginTxn(data)
    {
      txnCount := txnCount + 1;
      t := new MemTransaction(txnCount, this);
    }
  }

  class MemTransaction<V> {
    const id: nat
    const store: MemStore<V>
    const readBuffer: map<Bytes, Cell<V>>
    var buffer: map<Bytes, Cell<V>>
    var modified: map<Bytes, nat>

    constructor (id: nat, store: MemStore<V>)
      ensures this.id == id && this.store == store && View() == BeginTxn(store.data)
    {
      this.id := id;
      this.store := store;
      readBuffer := store.data;
      buffer := store.data;
      modified := map[];
    }

    ghost function View(): Txn<V>
      reads this
    {
      Txn(readBuffer, buffer, modified)
    }

    /** Reads go to the snapshot, not to the transaction's own writes. */
    method Get(key: Bytes) returns (r: Option<V>)
      ensures r == LiveAt(View().snapshot, key)
    {
      r := if key in readBuffer then readBuffer[key].value else None;
    }

    method Put(key: Bytes, value: V)
      modifies this
      ensures View() == Write(old(View()), key, Some(value))
    {
      var version := Version(buffer, key);
      buffer := buffer[key := Cell(Some(value), version + 1)];
      if key !in modified { modified := modified[key := version]; }
    }

    method Delete(key: Bytes)
      modifies this
      ensures View() == Write(old(View()), key, None)
    {
      var version := Version(buffer, key);
      buffer := buffer[key := Cell(None, version + 1)];
      if key !in modified { modified := modified[key := version]; }
    }

    method DeleteRange(start: Bytes, end: Bytes)
      modifies this
      ensures View() == EraseRange(old(View()), start, end)
    {
      var toDelete := KeysIn(buffer, start, end);
      ghost var done: set<Bytes> := {};
      EraseNone(View());
      while toDelete != {}
        invariant done !! toDelete && done + toDelete == KeysIn(old(buffer), start, end)
        invariant View() == Erase(old(View()), done)
        decreases toDelete
      {
        var key :| key in toDelete;
        EraseOne(old(View()), done, key);
        var version := Version(buffer, key);
        buffer := buffer[key := Cell(None, version + 1)];
        if key !in modified { modified := modified[key := version]; }
        toDelete, done := toDelete - {key}, done + {key};
      }
    }

    /** Validate every written key against the store, then write them all; a conflict writes nothing. */
    method Commit() returns (ok: bool)
      requires modified.Keys <= buffer.Keys
      modifies store`data
      ensures ok == !Conflicts(old(store.data), View())
      ensures store.data == if ok then CommitInto(old(store.data), View()) else old(store.data)
    {
      var pending := modified.Keys;
      while pending != {}
        invariant pending <= modified.Keys
        invariant forall k <- modified :: k !in pending ==> Version(store.data, k) == modified[k]
        decreases pending
      {
        var k :| k in pending;
        if Version(store.data, k) != modified[k] { return false; }
        pending := pending - {k};
      }
      pending := modified.Keys;
      ghost var before := store.data;
      while pending != {}
        invariant pending <= modified.Keys
        invariant store.data == map k | k in before.Keys + (modified.Keys - pending) ::
                                  if k in modified && k !in pending then buffer[k] else before[k]
        decreases pending
      {
        var k :| k in pending;
        store.data := store.data[k := buffer[k]];
        pending := pending - {k};
      }
      ok := true;
    }

    method ScanKeys(start: Bytes, end: Bytes) returns (it: MemIterator<V>)
      ensures fresh(it) && it.map_ == buffer && it.current == start && it.end == end
    {
      it := new MemIterator(buffer, start, end);
    }
  }

  // ---------------------------------------------------------------------------
  // Scanning

  ghost predicate IsLeast(k: Bytes, s: set<Bytes>) {
    k in s && forall x <- s :: x != k ==> Less(k, x)
  }

  lemma {:induction false} LeastExists(s: set<Bytes>)
    requires s != {}
    ensures exists k :: IsLeast(k, s)
  {
    var x :| x in s;
    if s == {x} {
      assert IsLeast(x, s);
    } else {
      var rest := s - {x};
      LeastExists(rest);
      var k :| IsLeast(k, rest);
      LessTotal(k, x);
      if Less(k, x) {
        assert IsLeast(k, s);
      } else {
        forall y <- s | y != x ensures Less(x, y) {
          if y != k { LessTransitive(x, k, y); }
        }
        assert IsLeast(x, s);
      }
    }
  }

  lemma {:induction false} LeastUnique(a: Bytes, b: Bytes, s: set<Bytes>)
    requires IsLeast(a, s) && IsLeast(b, s)
    ensures a == b
  {
    if a != b { LessAsymmetric(a, b); }
  }

  /** The keys of a set in ascending order. */
  ghost function Sorted(s: set<Bytes>): seq<Bytes>
    decreases |s|
  {
    if s == {} then [] else
    LeastExists(s);
    var k :| IsLeast(k, s);
    [k] + Sorted(s - {k})
  }

  lemma {:induction false} SortedStep(s: set<Bytes>, k: Bytes)
    requires IsLeast(k, s)
    ensures Sorted(s) == [k] + Sorted(s - {k})
  {
    var k' :| IsLeast(k', s) && Sorted(s) == [k'] + Sorted(s - {k'});
    LeastUnique(k, k', s);
  }

  /** `Sorted` lists exactly the set, strictly ascending. */
  lemma {:induction false} SortedFacts(s: set<Bytes>)
    ensures forall k :: k in Sorted(s) <==> k in s
    ensures forall i, j :: 0 <= i < j < |Sorted(s)| ==> Less(Sorted(s)[i], Sorted(s)[j])
    decreases |s|
  {
    if s != {} {
      LeastExists(s);
      var k :| IsLeast(k, s);
      SortedStep(s, k);
      SortedFacts(s - {k});
    }
  }

  class MemIterator<V> {
    const map_: map<Bytes, Cell<V>>
    var current: Bytes
    const end: Bytes

    constructor (m: map<Bytes, Cell<V>>, start: Bytes, end: Bytes)
      ensures map_ == m && current == start && this.end == end
    {
      map_, current, this.end := m, start, end;
    }

    /** The next entry of the ordered map in `[lo, end)`. */
    method FirstFrom(lo: Bytes) returns (r: Option<Bytes>)
      ensures r.None? ==> KeysIn(map_, lo, end) == {}
      ensures r.Some? ==> IsLeast(r.value, KeysIn(map_, lo, end))
    {
      var rest := KeysIn(map_, lo, end);
      r := None;
      while rest != {}
        invariant rest <= KeysIn(map_, lo, end)
        invariant r.None? ==> rest == KeysIn(map_, lo, end)
        invariant r.Some? ==> IsLeast(r.value, KeysIn(map_, lo, end) - rest)
        decreases rest
      {
        var k :| k in rest;
        if r.None? {
          assert KeysIn(map_, lo, end) - (rest - {k}) == {k};
          r := Some(k);
        } else {
          LessTotal(k, r.value);
          if Less(k, r.value) {
            forall x <- KeysIn(map_, lo, end) - rest | x != r.value ensures Less(k, x) {
              LessTransitive(k, r.value, x);
            }
            r := Some(k);
          }
        }
        rest := rest - {k};
      }
      assert KeysIn(map_, lo, end) - rest == KeysIn(map_, lo, end);
    }

    /** Yields the least live key not yet passed, and passes it; the cursor never passes a range's end. */
    method Next() returns (r: Option<Bytes>)
      modifies this
      ensures var live := LiveKeysIn(map_, old(current), end);
        if r.None? then live == {} && LiveKeysIn(map_, current, end) == {}
        else IsLeast(r.value, live) && LiveKeysIn(map_, current, end) == live - {r.value}
      ensures !Less(end, old(current)) ==> !Less(end, current)
    {
      ghost var live := LiveKeysIn(map_, current, end);
      while true
        invariant LiveKeysIn(map_, current, end) == live
        invariant !Less(end, old(current)) ==> !Less(end, current)
        decreases KeysIn(map_, current, end)
      {
        var k := FirstFrom(current);
        if k.None? {
          assert LiveKeysIn(map_, current, end) <= KeysIn(map_, current, end);
          return None;
        }
        PassKey(map_, current, end, k.value);
        current := k.value + [0];
        if map_[k.value].value.Some? { return k; }
      }
    }

    /** Exhausting a scan lists exactly the live keys of the range, each once, in ascending order. */
    method Drain() returns (keys: seq<Bytes>)
      modifies this
      ensures keys == Sorted(LiveKeysIn(map_, old(current), end))
    {
      keys := [];
      ghost var live := LiveKeysIn(map_, current, end);
      while true
        invariant keys + Sorted(LiveKeysIn(map_, current, end)) == Sorted(live)
        decreases LiveKeysIn(map_, current, end)
      {
        ghost var rest := LiveKeysIn(map_, current, end);
        var k := Next();
        if k.None? { return; }
        SortedStep(rest, k.value);
        keys := keys + [k.value];
      }
    }
  }

  /** Moving the cursor to the successor of the least key drops exactly that key. */
  lemma {:induction false} PassKey<V>(m: Store<V>, lo: Bytes, hi: Bytes, k: Bytes)
    requires IsLeast(k, KeysIn(m, lo, hi))
    ensures KeysIn(m, k + [0], hi) == KeysIn(m, lo, hi) - {k}
    ensures LiveKeysIn(m, k + [0], hi) == LiveKeysIn(m, lo, hi) - {k}
    ensures !Less(hi, k + [0])
  {
    ImmediateSuccessor(k, hi);
    forall x ensures InRange(x, k + [0], hi) && x in m <==> x in KeysIn(m, lo, hi) - {k} {
      ImmediateSuccessor(k, x);
      LessIrreflexive(k);
      if x in KeysIn(m, lo, hi) && x != k {
        assert Less(k, x);
      }
      if Less(k, x) && Less(x, lo) { LessTransitive(k, x, lo); }
    }
  }
}
