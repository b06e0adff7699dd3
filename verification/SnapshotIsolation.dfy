/**
 All interleavings of transactions over the in-memory store: first committer wins,
 snapshots of written keys are current at commit, and when a run is serial.
 */
module SnapshotIsolation {
  import opened Wrappers
  import opened ByteStrings
  import opened MemKv

  datatype Op<V> = Get(k: Bytes) | Put(k: Bytes, v: V) | Delete(k: Bytes) | DeleteRange(lo: Bytes, hi: Bytes) | Scan(lo: Bytes, hi: Bytes)

  datatype Reply<V> = Got(value: Option<V>) | Keys(keys: set<Bytes>) | Unit

  /** One operation of a transaction and what the client sees of it. */
  function Act<V>(t: Txn<V>, op: Op<V>): (Txn<V>, Reply<V>) {
    match op
    case Get(k) => (t, Got(LiveAt(t.snapshot, k)))
    case Put(k, v) => (Write(t, k, Some(v)), Unit)
    case Delete(k) => (Write(t, k, None), Unit)
    case DeleteRange(lo, hi) => (EraseRange(t, lo, hi), Unit)
    case Scan(lo, hi) => (t, Keys(LiveKeysIn(t.buffer, lo, hi)))
  }

  function ActAll<V>(t: Txn<V>, ops: seq<Op<V>>): (Txn<V>, seq<Reply<V>>) {
    if ops == [] then (t, []) else
    var (t', replies) := ActAll(t, ops[..|ops| - 1]);
    var (t'', reply) := Act(t', ops[|ops| - 1]);
    (t'', replies + [reply])
  }

  /** A transaction in flight or committed: who runs it, and after how many commits it began. */
  datatype Record<V> = Record(owner: nat, at: nat, txn: Txn<V>, ops: seq<Op<V>>, replies: seq<Reply<V>>)

  /** `history[i]` is the store after `i` commits, `committed[i]` the transaction of commit `i`. */
  datatype System<V> = System(history: seq<Store<V>>, active: map<nat, Record<V>>, committed: seq<Record<V>>)

  datatype Event<V> = Begin(id: nat, owner: nat) | Do(id: nat, op: Op<V>) | Commit(id: nat) | Drop(id: nat)

  function Initial<V>(): System<V> {
    System([map[]], map[], [])
  }

  function Current<V>(sys: System<V>): Store<V>
    requires sys.history != []
  {
    sys.history[|sys.history| - 1]
  }

  /** One atomic step of one client; the store's lock makes each of these atomic. */
  function Step<V>(sys: System<V>, ev: Event<V>): Option<System<V>> {
    if sys.history == [] then None else
    match ev
    case Begin(id, owner) =>
      if id in sys.active then None
      else Some(sys.(active := sys.active[id := Record(owner, |sys.history| - 1, BeginTxn(Current(sys)), [], [])]))
    case Do(id, op) =>
      if id !in sys.active then None else
      var r := sys.active[id];
      var (t, reply) := Act(r.txn, op);
      Some(sys.(active := sys.active[id := r.(txn := t, ops := r.ops + [op], replies := r.replies + [reply])]))
    case Commit(id) =>
      if id !in sys.active || !(sys.active[id].txn.modified.Keys <= sys.active[id].txn.buffer.Keys) then None else
      var r := sys.active[id];
      var rest := sys.(active := sys.active - {id});
      if Conflicts(Current(sys), r.txn) then Some(rest)
      else Some(rest.(history := sys.history + [CommitInto(Current(sys), r.txn)], committed := sys.committed + [r]))
    case Drop(id) => Some(sys.(active := sys.active - {id}))
  }

  function RunAll<V>(events: seq<Event<V>>): Option<System<V>> {
    if events == [] then Some(Initial()) else
    match RunAll(events[..|events| - 1])
    case None => None
    case Some(sys) => Step(sys, events[|events| - 1])
  }

  // ---------------------------------------------------------------------------
  // The invariant of every interleaving

  ghost predicate RecordOk<V>(history: seq<Store<V>>, r: Record<V>) {
    r.at < |history| && TxnOk(r.txn) && r.txn.snapshot == history[r.at] &&
    (r.txn, r.replies) == ActAll(BeginTxn(history[r.at]), r.ops)
  }

  /** Versions count from one; absence is version zero. */
  ghost predicate Positive<V>(m: Store<V>) {
    forall k <- m :: m[k].version > 0
  }

  ghost predicate CommitOk<V>(history: seq<Store<V>>, r: Record<V>, i: nat) {
    i + 1 < |history| && RecordOk(history, r) && r.at <= i && !Conflicts(history[i], r.txn) &&
    history[i + 1] == CommitInto(history[i], r.txn)
  }

  ghost predicate SystemOk<V>(sys: System<V>) {
    |sys.history| == |sys.committed| + 1 && sys.history[0] == map[] &&
    (forall i :: 0 <= i < |sys.history| ==> Positive(sys.history[i])) &&
    (forall i :: 0 <= i < |sys.committed| ==> CommitOk(sys.history, sys.committed[i], i)) &&
    (forall id <- sys.active :: RecordOk(sys.history, sys.active[id]))
  }

  lemma {:induction false} ActOk<V>(t: Txn<V>, op: Op<V>)
    requires TxnOk(t)
    ensures TxnOk(Act(t, op).0) && Act(t, op).0.snapshot == t.snapshot
  {
    match op
    case Put(k, v) => WriteOk(t, k, Some(v));
    case Delete(k) => WriteOk(t, k, None);
    case DeleteRange(lo, hi) => EraseOk(t, KeysIn(t.buffer, lo, hi));
    case Get(_) =>
    case Scan(_, _) =>
  }

  lemma {:induction false} ActAllSnoc<V>(t: Txn<V>, ops: seq<Op<V>>, op: Op<V>)
    ensures var (t', replies) := ActAll(t, ops);
      ActAll(t, ops + [op]) == (Act(t', op).0, replies + [Act(t', op).1])
  {
    assert (ops + [op])[..|ops|] == ops;
  }

  lemma {:induction false} CommitPositive<V>(m: Store<V>, t: Txn<V>)
    requires Positive(m) && TxnOk(t)
    ensures Positive(CommitInto(m, t))
  {
  }

  lemma {:induction false} DoOk<V>(sys: System<V>, id: nat, op: Op<V>)
    requires SystemOk(sys) && Step(sys, Do(id, op)).Some?
    ensures SystemOk(Step(sys, Do(id, op)).value)
  {
    var r := sys.active[id];
    ActOk(r.txn, op);
    ActAllSnoc(BeginTxn(sys.history[r.at]), r.ops, op);
  }

  lemma {:induction false} CommitStepOk<V>(sys: System<V>, id: nat)
    requires SystemOk(sys) && Step(sys, Commit(id)).Some?
    ensures SystemOk(Step(sys, Commit(id)).value)
  {
    var (sys', r) := (Step(sys, Commit(id)).value, sys.active[id]);
    if !Conflicts(Current(sys), r.txn) {
      CommitPositive(Current(sys), r.txn);
      forall i | 0 <= i < |sys'.committed| ensures CommitOk(sys'.history, sys'.committed[i], i) {
        if i < |sys.committed| { assert CommitOk(sys.history, sys.committed[i], i); }
      }
      forall other <- sys'.active ensures RecordOk(sys'.history, sys'.active[other]) {
        assert RecordOk(sys.history, sys.active[other]);
      }
    }
  }

  lemma {:induction false} StepOk<V>(sys: System<V>, ev: Event<V>)
    requires SystemOk(sys) && Step(sys, ev).Some?
    ensures SystemOk(Step(sys, ev).value)
  {
    match ev
    case Begin(id, owner) =>
      assert RecordOk(sys.history, Step(sys, ev).value.active[id]);
    case Do(id, op) => DoOk(sys, id, op);
    case Commit(id) => CommitStepOk(sys, id);
    case Drop(id) =>
  }

  lemma {:induction false} RunOk<V>(events: seq<Event<V>>)
    requires RunAll(events).Some?
    ensures SystemOk(RunAll(events).value)
  {
    if events == [] {
      assert SystemOk(Initial<V>());
    } else {
      RunOk(events[..|events| - 1]);
      StepOk(RunAll(events[..|events| - 1]).value, events[|events| - 1]);
    }
  }

  // ---------------------------------------------------------------------------
  // Versions tell whether a key was written

  /** Versions never go down, and an unchanged version is an unchanged cell. */
  lemma {:induction false} VersionsGrow<V>(sys: System<V>, i: nat, j: nat, k: Bytes)
    requires SystemOk(sys) && i <= j < |sys.history|
    ensures Version(sys.history[i], k) <= Version(sys.history[j], k)
    ensures Version(sys.history[i], k) == Version(sys.history[j], k) ==> Lookup(sys.history[i], k) == Lookup(sys.history[j], k)
    decreases j - i
  {
    if i < j {
      VersionsGrow(sys, i, j - 1, k);
      CommitRaises(sys, j - 1, k);
    }
  }

  /** A commit raises the version of each key it writes and touches no other key. */
  lemma {:induction false} CommitRaises<V>(sys: System<V>, i: nat, k: Bytes)
    requires SystemOk(sys) && i < |sys.committed|
    ensures if k in sys.committed[i].txn.modified then Version(sys.history[i], k) < Version(sys.history[i + 1], k)
            else Lookup(sys.history[i], k) == Lookup(sys.history[i + 1], k)
  {
    assert CommitOk(sys.history, sys.committed[i], i);
  }

  /** For every key a committer wrote, its snapshot is what the store held just before the commit. */
  lemma {:induction false} SnapshotIsCurrent<V>(sys: System<V>, j: nat, k: Bytes)
    requires SystemOk(sys) && j < |sys.committed| && k in sys.committed[j].txn.modified
    ensures Lookup(sys.committed[j].txn.snapshot, k) == Lookup(sys.history[j], k)
  {
    assert CommitOk(sys.history, sys.committed[j], j);
    VersionsGrow(sys, sys.committed[j].at, j, k);
  }

  /** First committer wins: of two committed writers of one key, the later began after the earlier committed. */
  lemma {:induction false} FirstCommitterWins<V>(sys: System<V>, i: nat, j: nat, k: Bytes)
    requires SystemOk(sys) && i < j < |sys.committed|
    requires k in sys.committed[i].txn.modified && k in sys.committed[j].txn.modified
    ensures i < sys.committed[j].at
  {
    assert CommitOk(sys.history, sys.committed[j], j);
    var at := sys.committed[j].at;
    if at <= i {
      VersionsGrow(sys, at, i, k);
      CommitRaises(sys, i, k);
      VersionsGrow(sys, i + 1, j, k);
    }
  }

  /** Snapshot isolation over every interleaving of any number of transactions. */
  lemma {:induction false} EveryRunIsSnapshotIsolated<V>(events: seq<Event<V>>)
    requires RunAll(events).Some?
    ensures var sys := RunAll(events).value;
      (forall i, j, k :: 0 <= i < j < |sys.committed| && k in sys.committed[i].txn.modified && k in sys.committed[j].txn.modified
         ==> i < sys.committed[j].at) &&
      (forall j, k :: 0 <= j < |sys.committed| && k in sys.committed[j].txn.modified
         ==> j < |sys.history| && Lookup(sys.committed[j].txn.snapshot, k) == Lookup(sys.history[j], k))
  {
    RunOk(events);
    var sys := RunAll(events).value;
    forall i, j, k | 0 <= i < j < |sys.committed| && k in sys.committed[i].txn.modified && k in sys.committed[j].txn.modified
      ensures i < sys.committed[j].at
    {
      FirstCommitterWins(sys, i, j, k);
    }
    forall j, k | 0 <= j < |sys.committed| && k in sys.committed[j].txn.modified
      ensures Lookup(sys.committed[j].txn.snapshot, k) == Lookup(sys.history[j], k)
    {
      SnapshotIsCurrent(sys, j, k);
    }
  }

  // ---------------------------------------------------------------------------
  // Serial equivalence

  predicate Touches<V>(op: Op<V>, k: Bytes) {
    match op
    case Get(x) => x == k
    case Put(x, _) => x == k
    case Delete(x) => x == k
    case DeleteRange(lo, hi) => InRange(k, lo, hi)
    case Scan(lo, hi) => InRange(k, lo, hi)
  }

  predicate TouchesAny<V>(ops: seq<Op<V>>, k: Bytes) {
    exists i :: 0 <= i < |ops| && Touches(ops[i], k)
  }

  /** Two transactions that cannot be told apart at one key. */
  ghost predicate SameAt<V>(a: Txn<V>, b: Txn<V>, k: Bytes) {
    Lookup(a.snapshot, k) == Lookup(b.snapshot, k) && Lookup(a.buffer, k) == Lookup(b.buffer, k) &&
    (k in a.modified <==> k in b.modified) && (k in a.modified ==> a.modified[k] == b.modified[k])
  }

  lemma {:induction false} ActSame<V>(a: Txn<V>, b: Txn<V>, op: Op<V>, k: Bytes)
    requires SameAt(a, b, k)
    ensures SameAt(Act(a, op).0, Act(b, op).0, k)
  {
    if op.DeleteRange? { EraseRangeSame(a, b, op.lo, op.hi, k); }
  }

  lemma {:induction false} EraseRangeSame<V>(a: Txn<V>, b: Txn<V>, lo: Bytes, hi: Bytes, k: Bytes)
    requires SameAt(a, b, k)
    ensures SameAt(EraseRange(a, lo, hi), EraseRange(b, lo, hi), k)
  {
    assert k in KeysIn(a.buffer, lo, hi) <==> k in KeysIn(b.buffer, lo, hi);
  }

  lemma {:induction false} ReplySame<V>(a: Txn<V>, b: Txn<V>, op: Op<V>)
    requires forall k :: Touches(op, k) ==> SameAt(a, b, k)
    ensures Act(a, op).1 == Act(b, op).1
  {
    match op
    case Get(k) => assert Touches(op, k);
    case Scan(lo, hi) =>
      forall k ensures k in LiveKeysIn(a.buffer, lo, hi) <==> k in LiveKeysIn(b.buffer, lo, hi) {
        if InRange(k, lo, hi) { assert Touches(op, k); }
      }
      assert LiveKeysIn(a.buffer, lo, hi) == LiveKeysIn(b.buffer, lo, hi);
    case _ =>
  }

  lemma {:induction false} ActAllSame<V>(a: Txn<V>, b: Txn<V>, ops: seq<Op<V>>, k: Bytes)
    requires SameAt(a, b, k)
    ensures SameAt(ActAll(a, ops).0, ActAll(b, ops).0, k)
  {
    if ops != [] {
      var init := ops[..|ops| - 1];
      ActAllSame(a, b, init, k);
      ActSame(ActAll(a, init).0, ActAll(b, init).0, ops[|ops| - 1], k);
    }
  }

  /** Replies depend only on the touched keys of the snapshot. */
  lemma {:induction false} RepliesSame<V>(a: Txn<V>, b: Txn<V>, ops: seq<Op<V>>)
    requires forall k :: TouchesAny(ops, k) ==> SameAt(a, b, k)
    ensures ActAll(a, ops).1 == ActAll(b, ops).1
  {
    if ops != [] {
      var (init, last) := (ops[..|ops| - 1], ops[|ops| - 1]);
      forall k | TouchesAny(init, k) ensures SameAt(a, b, k) {
        var i :| 0 <= i < |init| && Touches(init[i], k);
        assert Touches(ops[i], k);
      }
      RepliesSame(a, b, init);
      forall k | Touches(last, k) ensures SameAt(ActAll(a, init).0, ActAll(b, init).0, k) {
        assert Touches(ops[|ops| - 1], k) && TouchesAny(ops, k);
        ActAllSame(a, b, init, k);
      }
      ReplySame(ActAll(a, init).0, ActAll(b, init).0, last);
    }
  }

  /** Only touched keys are written. */
  lemma {:induction false} ModifiedTouched<V>(m: Store<V>, ops: seq<Op<V>>, k: Bytes)
    requires k in ActAll(BeginTxn(m), ops).0.modified
    ensures TouchesAny(ops, k)
  {
    if ops != [] {
      var (init, last) := (ops[..|ops| - 1], ops[|ops| - 1]);
      if k in ActAll(BeginTxn(m), init).0.modified {
        ModifiedTouched(m, init, k);
        var i :| 0 <= i < |init| && Touches(init[i], k);
        assert Touches(ops[i], k);
      } else {
        assert Touches(ops[|ops| - 1], k);
      }
    }
  }

  /** What commit `j` read without writing it was not changed since it began. */
  ghost predicate Undisturbed<V>(sys: System<V>, j: nat)
    requires j < |sys.committed|
  {
    var r := sys.committed[j];
    j < |sys.history| && r.at < |sys.history| &&
    forall k :: TouchesAny(r.ops, k) && k !in r.txn.modified ==> Lookup(sys.history[r.at], k) == Lookup(sys.history[j], k)
  }

  /** The store after running the transactions one after the other, each on the result of the one before. */
  function SerialStore<V>(records: seq<Record<V>>): Store<V> {
    if records == [] then map[] else
    var m := SerialStore(records[..|records| - 1]);
    var t := ActAll(BeginTxn(m), records[|records| - 1].ops).0;
    if t.modified.Keys <= t.buffer.Keys then CommitInto(m, t) else m
  }

  /** An undisturbed commit replies and writes as if it had run alone at its commit point. */
  lemma {:induction false} CommitIsSerial<V>(sys: System<V>, j: nat)
    requires SystemOk(sys) && j < |sys.committed| && Undisturbed(sys, j)
    ensures var (r, alone) := (sys.committed[j], ActAll(BeginTxn(sys.history[j]), sys.committed[j].ops));
      alone.1 == r.replies && alone.0.modified.Keys <= alone.0.buffer.Keys &&
      CommitInto(sys.history[j], alone.0) == sys.history[j + 1]
  {
    var r := sys.committed[j];
    assert CommitOk(sys.history, sys.committed[j], j);
    var (a, b) := (BeginTxn(sys.history[r.at]), BeginTxn(sys.history[j]));
    forall k | TouchesAny(r.ops, k) ensures SameAt(a, b, k) {
      if k in r.txn.modified { SnapshotIsCurrent(sys, j, k); }
    }
    RepliesSame(a, b, r.ops);
    var (t, t') := (ActAll(a, r.ops).0, ActAll(b, r.ops).0);
    forall k | k in t.modified || k in t'.modified ensures SameAt(t, t', k) {
      if k in t.modified { ModifiedTouched(sys.history[r.at], r.ops, k); } else { ModifiedTouched(sys.history[j], r.ops, k); }
      ActAllSame(a, b, r.ops, k);
    }
    assert t'.modified.Keys == t.modified.Keys;
    forall k <- t'.modified ensures k in t'.buffer && t'.buffer[k] == t.buffer[k] {
      assert SameAt(t, t', k) && k in t.buffer;
    }
    assert CommitInto(sys.history[j], t') == CommitInto(sys.history[j], t);
  }

  lemma {:induction false} SerialSnoc<V>(records: seq<Record<V>>, r: Record<V>)
    ensures var t := ActAll(BeginTxn(SerialStore(records)), r.ops).0;
      t.modified.Keys <= t.buffer.Keys ==> SerialStore(records + [r]) == CommitInto(SerialStore(records), t)
  {
    assert (records + [r])[..|records|] == records;
  }

  /** If every commit was undisturbed, serial execution in commit order passes through the same stores. */
  lemma {:induction false} UndisturbedStores<V>(sys: System<V>, n: nat)
    requires SystemOk(sys) && n <= |sys.committed|
    requires forall j :: 0 <= j < n ==> Undisturbed(sys, j)
    ensures SerialStore(sys.committed[..n]) == sys.history[n]
  {
    if n > 0 {
      UndisturbedStores(sys, n - 1);
      assert Undisturbed(sys, n - 1);
      UndisturbedStep(sys, n - 1);
    }
  }

  lemma {:induction false} UndisturbedStep<V>(sys: System<V>, j: nat)
    requires SystemOk(sys) && j < |sys.committed| && Undisturbed(sys, j)
    requires SerialStore(sys.committed[..j]) == sys.history[j]
    ensures SerialStore(sys.committed[..j + 1]) == sys.history[j + 1]
  {
    CommitIsSerial(sys, j);
    assert sys.committed[..j + 1] == sys.committed[..j] + [sys.committed[j]];
    SerialSnoc(sys.committed[..j], sys.committed[j]);
  }

  /** And every transaction gets the replies it would have got in that serial execution. */
  lemma {:induction false} UndisturbedReplies<V>(sys: System<V>, j: nat)
    requires SystemOk(sys) && j < |sys.committed|
    requires forall i :: 0 <= i <= j ==> Undisturbed(sys, i)
    ensures ActAll(BeginTxn(SerialStore(sys.committed[..j])), sys.committed[j].ops).1 == sys.committed[j].replies
  {
    UndisturbedStores(sys, j);
    assert Undisturbed(sys, j);
    CommitIsSerial(sys, j);
  }

  /** Point operations whose every read key is also written. */
  predicate ReadsOnlyWhatItWrites<V>(ops: seq<Op<V>>) {
    forall i :: 0 <= i < |ops| ==>
      match ops[i]
      case Get(k) => Writes(ops, k)
      case Scan(_, _) => false
      case DeleteRange(_, _) => false
      case _ => true
  }

  predicate Writes<V>(ops: seq<Op<V>>, k: Bytes) {
    exists i :: 0 <= i < |ops| && (ops[i].Put? || ops[i].Delete?) && ops[i].k == k
  }

  lemma {:induction false} WrittenIsModified<V>(t: Txn<V>, ops: seq<Op<V>>, k: Bytes)
    requires Writes(ops, k)
    ensures k in ActAll(t, ops).0.modified
  {
    var (init, last) := (ops[..|ops| - 1], ops[|ops| - 1]);
    var i :| 0 <= i < |ops| && (ops[i].Put? || ops[i].Delete?) && ops[i].k == k;
    if i < |ops| - 1 {
      assert init[i] == ops[i];
      WrittenIsModified(t, init, k);
    }
  }

  lemma {:induction false} SelfContainedIsUndisturbed<V>(sys: System<V>, j: nat)
    requires SystemOk(sys) && j < |sys.committed| && ReadsOnlyWhatItWrites(sys.committed[j].ops)
    ensures Undisturbed(sys, j)
  {
    var r := sys.committed[j];
    assert CommitOk(sys.history, sys.committed[j], j);
    forall k | TouchesAny(r.ops, k) ensures k in r.txn.modified {
      var i :| 0 <= i < |r.ops| && Touches(r.ops[i], k);
      assert Writes(r.ops, k);
      WrittenIsModified(BeginTxn(sys.history[r.at]), r.ops, k);
    }
  }

  /** Transactions that `get` only keys they also write are serialisable, in every interleaving. */
  lemma {:induction false} SelfContainedRunsAreSerial<V>(events: seq<Event<V>>)
    requires RunAll(events).Some?
    requires forall r <- RunAll(events).value.committed :: ReadsOnlyWhatItWrites(r.ops)
    ensures var sys := RunAll(events).value;
      SystemOk(sys) && SerialStore(sys.committed) == Current(sys) &&
      forall j :: 0 <= j < |sys.committed| ==>
        ActAll(BeginTxn(SerialStore(sys.committed[..j])), sys.committed[j].ops).1 == sys.committed[j].replies
  {
    RunOk(events);
    var sys := RunAll(events).value;
    forall j | 0 <= j < |sys.committed| ensures Undisturbed(sys, j) {
      assert sys.committed[j] in sys.committed;
      SelfContainedIsUndisturbed(sys, j);
    }
    UndisturbedStores(sys, |sys.committed|);
    forall j | 0 <= j < |sys.committed|
      ensures ActAll(BeginTxn(SerialStore(sys.committed[..j])), sys.committed[j].ops).1 == sys.committed[j].replies
    {
      UndisturbedReplies(sys, j);
    }
    assert sys.committed[..|sys.committed|] == sys.committed;
  }
}
