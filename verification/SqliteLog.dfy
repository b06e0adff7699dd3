/**
 The SQLite backend's operation log, replayed at commit, and when it leaves the same
 data as the in-memory store.
 */
module SqliteLog {
  import opened Wrappers
  import opened ByteStrings
  import opened MemKv
  import opened SnapshotIsolation

  datatype ModOp<V> = PutOp(key: Bytes, value: V) | DeleteOp(key: Bytes) | DeleteRangeOp(start: Bytes, end: Bytes)

  /** One statement of the replay, on the rows of the table. */
  function Apply<V>(rows: map<Bytes, V>, op: ModOp<V>): map<Bytes, V> {
    match op
    case PutOp(key, value) => rows[key := value]
    case DeleteOp(key) => rows - {key}
    case DeleteRangeOp(start, end) => map k | k in rows && !InRange(k, start, end) :: rows[k]
  }

  function Replay<V>(rows: map<Bytes, V>, log: seq<ModOp<V>>): map<Bytes, V> {
    if log == [] then rows else Apply(Replay(rows, log[..|log| - 1]), log[|log| - 1])
  }

  /** What an operation leaves in the log; reads leave nothing. */
  function Logged<V>(prefix: Bytes, op: Op<V>): seq<ModOp<V>> {
    match op
    case Put(k, v) => [PutOp(prefix + k, v)]
    case Delete(k) => [DeleteOp(prefix + k)]
    case DeleteRange(lo, hi) => [DeleteRangeOp(prefix + lo, prefix + hi)]
    case _ => []
  }

  function LogOf<V>(prefix: Bytes, ops: seq<Op<V>>): seq<ModOp<V>> {
    if ops == [] then [] else LogOf(prefix, ops[..|ops| - 1]) + Logged(prefix, ops[|ops| - 1])
  }

  class SqliteTxn<V> {
    const prefix: Bytes
    var log: seq<ModOp<V>>

    constructor (prefix: Bytes)
      ensures this.prefix == prefix && log == []
    {
      this.prefix, log := prefix, [];
    }

    method PutKey(key: Bytes, value: V)
      modifies this
      ensures log == old(log) + Logged(prefix, Put(key, value))
    {
      log := log + [PutOp(prefix + key, value)];
    }

    method DeleteKey(key: Bytes)
      modifies this
      ensures log == old(log) + Logged<V>(prefix, Delete(key))
    {
      log := log + [DeleteOp(prefix + key)];
    }

    method DeleteKeys(start: Bytes, end: Bytes)
      modifies this
      ensures log == old(log) + Logged<V>(prefix, DeleteRange(start, end))
    {
      log := log + [DeleteRangeOp(prefix + start, prefix + end)];
    }

    /** Replays the log, in order, against the table. */
    method Commit(rows: map<Bytes, V>) returns (r: map<Bytes, V>)
      ensures r == Replay(rows, log)
    {
      r := rows;
      for i := 0 to |log|
        invariant r == Replay(rows, log[..i])
      {
        assert log[..i + 1][..i] == log[..i];
        match log[i] {
          case PutOp(key, value) => r := r[key := value];
          case DeleteOp(key) => r := r - {key};
          case DeleteRangeOp(start, end) => r := map k | k in r && !InRange(k, start, end) :: r[k];
        }
      }
      assert log[..|log|] == log;
    }
  }

  // ---------------------------------------------------------------------------
  // One key at a time

  function At<V>(rows: map<Bytes, V>, k: Bytes): Option<V> {
    if k in rows then Some(rows[k]) else None
  }

  /** The fate of one key under a transaction's operations. */
  function Fate<V>(v: Option<V>, ops: seq<Op<V>>, k: Bytes): Option<V> {
    if ops == [] then v else
    var v' := Fate(v, ops[..|ops| - 1], k);
    match ops[|ops| - 1]
    case Put(x, w) => if x == k then Some(w) else v'
    case Delete(x) => if x == k then None else v'
    case DeleteRange(lo, hi) => if InRange(k, lo, hi) then None else v'
    case _ => v'
  }

  /** Under the store's key prefix the replay decides the fate of each key. */
  lemma {:induction false} ReplayFate<V>(rows: map<Bytes, V>, prefix: Bytes, ops: seq<Op<V>>, k: Bytes)
    ensures At(Replay(rows, LogOf(prefix, ops)), prefix + k) == Fate(At(rows, prefix + k), ops, k)
  {
    if ops != [] {
      var (init, last) := (ops[..|ops| - 1], ops[|ops| - 1]);
      ReplayFate(rows, prefix, init, k);
      ReplaySnoc(rows, LogOf(prefix, init), prefix, last);
      var before := Replay(rows, LogOf(prefix, init));
      match last
      case Put(x, w) => SamePrefixed(prefix, x, k);
      case Delete(x) => SamePrefixed(prefix, x, k);
      case DeleteRange(lo, hi) =>
        RangeUnderPrefix(prefix, lo, hi, prefix + k);
        assert (prefix + k)[|prefix|..] == k;
      case _ =>
    }
  }

  lemma {:induction false} ReplaySnoc<V>(rows: map<Bytes, V>, log: seq<ModOp<V>>, prefix: Bytes, op: Op<V>)
    ensures Replay(rows, log + Logged(prefix, op)) ==
            if Logged(prefix, op) == [] then Replay(rows, log) else Apply(Replay(rows, log), Logged(prefix, op)[0])
  {
    if Logged(prefix, op) == [] {
      assert log + Logged(prefix, op) == log;
    } else {
      assert (log + Logged(prefix, op))[..|log|] == log;
    }
  }

  lemma {:induction false} SamePrefixed(p: Bytes, a: Bytes, b: Bytes)
    ensures p + a == p + b <==> a == b
  {
    assert (p + a)[|p|..] == a && (p + b)[|p|..] == b;
  }

  /** Rows of other stores in the same table are left alone. */
  lemma {:induction false} ForeignRowsKept<V>(rows: map<Bytes, V>, prefix: Bytes, ops: seq<Op<V>>, x: Bytes)
    requires !(prefix <= x)
    ensures At(Replay(rows, LogOf(prefix, ops)), x) == At(rows, x)
  {
    if ops != [] {
      var (init, last) := (ops[..|ops| - 1], ops[|ops| - 1]);
      ForeignRowsKept(rows, prefix, init, x);
      ReplaySnoc(rows, LogOf(prefix, init), prefix, last);
      match last
      case Put(k, w) => assert prefix <= prefix + k;
      case Delete(k) => assert prefix <= prefix + k;
      case DeleteRange(lo, hi) => RangeUnderPrefix(prefix, lo, hi, x);
      case _ =>
    }
  }

  /** The in-memory working copy decides the same fate, from the snapshot. */
  lemma {:induction false} BufferFate<V>(m: Store<V>, ops: seq<Op<V>>, k: Bytes)
    ensures LiveAt(ActAll(BeginTxn(m), ops).0.buffer, k) == Fate(LiveAt(m, k), ops, k)
  {
    if ops != [] {
      var (init, last) := (ops[..|ops| - 1], ops[|ops| - 1]);
      BufferFate(m, init, k);
      ActFate(ActAll(BeginTxn(m), init).0, last, k);
    }
  }

  lemma {:induction false} ActFate<V>(t: Txn<V>, op: Op<V>, k: Bytes)
    ensures LiveAt(Act(t, op).0.buffer, k) == Fate(LiveAt(t.buffer, k), [op], k)
  {
    assert [op][..0] == [];
    assert Fate(LiveAt(t.buffer, k), [], k) == LiveAt(t.buffer, k);
  }

  /** Some range delete of the transaction covers the key. */
  predicate Covered<V>(ops: seq<Op<V>>, k: Bytes) {
    exists i :: 0 <= i < |ops| && ops[i].DeleteRange? && InRange(k, ops[i].lo, ops[i].hi)
  }

  /** A key the in-memory transaction did not write can only have been range-deleted. */
  lemma {:induction false} UnmodifiedFate<V>(m: Store<V>, v: Option<V>, ops: seq<Op<V>>, k: Bytes)
    requires k !in ActAll(BeginTxn(m), ops).0.modified
    ensures Fate(v, ops, k) == if Covered(ops, k) then None else v
  {
    if ops != [] {
      var (init, last) := (ops[..|ops| - 1], ops[|ops| - 1]);
      UnmodifiedFate(m, v, init, k);
      if Covered(init, k) {
        var i :| 0 <= i < |init| && init[i].DeleteRange? && InRange(k, init[i].lo, init[i].hi);
        assert ops[i] == init[i];
        assert Covered(ops, k);
      }
      if last.DeleteRange? && InRange(k, last.lo, last.hi) {
        assert ops[|ops| - 1] == last;
        assert Covered(ops, k);
      } else if Covered(ops, k) {
        var i :| 0 <= i < |ops| && ops[i].DeleteRange? && InRange(k, ops[i].lo, ops[i].hi);
        assert init[i] == ops[i];
      }
    }
  }

  // ---------------------------------------------------------------------------
  // Agreement of the backends

  /** The table holds, under the prefix, what clients see of the store. */
  ghost predicate Mirrors<V>(rows: map<Bytes, V>, prefix: Bytes, m: Store<V>) {
    forall k :: At(rows, prefix + k) == LiveAt(m, k)
  }

  /** A live key inside a deleted range that the transaction did not know and so did not write. */
  predicate Phantom<V>(m: Store<V>, r: Record<V>, k: Bytes) {
    LiveAt(m, k).Some? && Covered(r.ops, k) && k !in r.txn.modified
  }

  /** At every key, a commit and the replay agree unless the key is a phantom. */
  lemma {:induction false} CommitVersusReplay<V>(sys: System<V>, j: nat, rows: map<Bytes, V>, prefix: Bytes, k: Bytes)
    requires SystemOk(sys) && j < |sys.committed| && Mirrors(rows, prefix, sys.history[j])
    ensures At(Replay(rows, LogOf(prefix, sys.committed[j].ops)), prefix + k) == LiveAt(sys.history[j + 1], k)
       <==> !Phantom(sys.history[j], sys.committed[j], k)
  {
    var r := sys.committed[j];
    assert CommitOk(sys.history, r, j);
    ReplayFate(rows, prefix, r.ops, k);
    if k in r.txn.modified {
      SnapshotIsCurrent(sys, j, k);
      BufferFate(sys.history[r.at], r.ops, k);
    } else {
      UnmodifiedFate(sys.history[r.at], At(rows, prefix + k), r.ops, k);
    }
  }

  /**
   The backends agree exactly when no phantom exists: the replayed SQLite log mirrors the committed in-memory store
   iff no live key inside a range the transaction deleted is unknown to it.
   */
  lemma {:induction false} BackendsAgreeIffNoPhantom<V>(sys: System<V>, j: nat, rows: map<Bytes, V>, prefix: Bytes)
    requires SystemOk(sys) && j < |sys.committed| && Mirrors(rows, prefix, sys.history[j])
    ensures Mirrors(Replay(rows, LogOf(prefix, sys.committed[j].ops)), prefix, sys.history[j + 1])
       <==> forall k :: !Phantom(sys.history[j], sys.committed[j], k)
  {
    forall k
      ensures At(Replay(rows, LogOf(prefix, sys.committed[j].ops)), prefix + k) == LiveAt(sys.history[j + 1], k)
         <==> !Phantom(sys.history[j], sys.committed[j], k)
    {
      CommitVersusReplay(sys, j, rows, prefix, k);
    }
  }

  // ---------------------------------------------------------------------------
  // What phantoms are

  /** A key of the snapshot inside a deleted range is written by the transaction. */
  lemma {:induction false} KnownIsErased<V>(m: Store<V>, ops: seq<Op<V>>, k: Bytes)
    requires k in m
    ensures k in ActAll(BeginTxn(m), ops).0.buffer && (Covered(ops, k) ==> k in ActAll(BeginTxn(m), ops).0.modified)
  {
    if ops != [] {
      var (init, last) := (ops[..|ops| - 1], ops[|ops| - 1]);
      KnownIsErased(m, init, k);
      if Covered(ops, k) && !(last.DeleteRange? && InRange(k, last.lo, last.hi)) {
        var i :| 0 <= i < |ops| && ops[i].DeleteRange? && InRange(k, ops[i].lo, ops[i].hi);
        assert init[i] == ops[i];
        assert Covered(init, k);
      }
    }
  }

  /** A key that changed between two commits was written by one of the commits between them. */
  lemma {:induction false} WrittenBetween<V>(sys: System<V>, m: nat, n: nat, k: Bytes) returns (i: nat)
    requires SystemOk(sys) && m <= n < |sys.history| && Lookup(sys.history[m], k) != Lookup(sys.history[n], k)
    ensures m <= i < n && k in sys.committed[i].txn.modified
    decreases n
  {
    CommitRaises(sys, n - 1, k);
    i := n - 1;
    if k !in sys.committed[i].txn.modified { i := WrittenBetween(sys, m, n - 1, k); }
  }

  /** A phantom was not there when the transaction began: a commit since then created it. */
  lemma {:induction false} PhantomIsNew<V>(sys: System<V>, j: nat, k: Bytes) returns (i: nat)
    requires SystemOk(sys) && j < |sys.committed| && Phantom(sys.history[j], sys.committed[j], k)
    ensures var r := sys.committed[j];
      r.at <= i < j && k !in sys.history[r.at] && k in sys.committed[i].txn.modified
  {
    var r := sys.committed[j];
    assert CommitOk(sys.history, r, j);
    if k in sys.history[r.at] { KnownIsErased(sys.history[r.at], r.ops, k); }
    i := WrittenBetween(sys, r.at, j, k);
  }

  /** Two transactions begin; the second creates `k` and commits; the first deletes a range around `k` and commits. */
  function PhantomRun<V>(k: Bytes, v: V, lo: Bytes, hi: Bytes): seq<Event<V>> {
    [Begin(1, 1), Begin(2, 2), Do(2, Put(k, v)), Commit(2), Do(1, DeleteRange(lo, hi)), Commit(1)]
  }

  lemma {:induction false} Stepped<V>(events: seq<Event<V>>, n: nat, sys: System<V>, next: System<V>)
    requires n < |events| && RunAll(events[..n]) == Some(sys) && Step(sys, events[n]) == Some(next)
    ensures RunAll(events[..n + 1]) == Some(next)
  {
    assert events[..n + 1][..n] == events[..n];
  }

  /** Both commits succeed, the in-memory store keeps `k`, and the replayed logs lose it. */
  lemma {:induction false} PhantomExists<V>(k: Bytes, v: V, lo: Bytes, hi: Bytes, prefix: Bytes)
    requires InRange(k, lo, hi)
    ensures RunAll(PhantomRun(k, v, lo, hi)).Some?
    ensures var sys := RunAll(PhantomRun(k, v, lo, hi)).value;
      |sys.committed| == 2 && |sys.history| == 3 && Phantom(sys.history[1], sys.committed[1], k) &&
      LiveAt(sys.history[2], k) == Some(v) &&
      At(Replay(Replay(map[], LogOf(prefix, sys.committed[0].ops)), LogOf(prefix, sys.committed[1].ops)), prefix + k) == None
  {
    var put: Op<V> := Put(k, v);
    var erase: Op<V> := DeleteRange(lo, hi);
    var none: Store<V> := map[];
    var (one, two) := (Record(1, 0, BeginTxn(none), [], []), Record(2, 0, BeginTxn(none), [], []));
    var (wrote, erased) := (Act(two.txn, put).0, Act(one.txn, erase).0);
    assert erased.modified == map[] && wrote.modified == map[k := 0] && wrote.buffer == map[k := Cell(Some(v), 1)];
    PhantomSteps(k, v, lo, hi, one, two, wrote, erased);
    var (a, b) := (CommitInto(none, wrote), CommitInto(CommitInto(none, wrote), erased));
    assert a == wrote.buffer && b == a;
    assert [put][..0] == [] && [erase][..0] == [];
    assert Fate(Fate(None, [], k), [put], k) == Some(v) && Fate(Some(v), [erase], k) == None;
    ReplayFate(map[], prefix, [put], k);
    ReplayFate(Replay(map[], LogOf(prefix, [put])), prefix, [erase], k);
    assert Covered([erase], k) by { assert [erase][0] == erase; }
  }

  lemma {:induction false} PhantomSteps<V>(k: Bytes, v: V, lo: Bytes, hi: Bytes, one: Record<V>, two: Record<V>, wrote: Txn<V>,
                                           erased: Txn<V>)
    requires one == Record(1, 0, BeginTxn(map[]), [], []) && two == Record(2, 0, BeginTxn(map[]), [], [])
    requires wrote == Act(two.txn, Put(k, v)).0 && wrote.modified == map[k := 0] && k in wrote.buffer
    requires erased == Act(one.txn, DeleteRange(lo, hi)).0 && erased.modified == map[]
    ensures RunAll(PhantomRun(k, v, lo, hi)) ==
            Some(System([map[], CommitInto(map[], wrote), CommitInto(CommitInto(map[], wrote), erased)], map[],
                        [two.(txn := wrote, ops := [Put(k, v)], replies := [Unit]),
                         one.(txn := erased, ops := [DeleteRange(lo, hi)], replies := [Unit])]))
  {
    var events := PhantomRun(k, v, lo, hi);
    PhantomCreated(events, k, v, one, two, wrote);
    PhantomErased(events, lo, hi, CommitInto(map[], wrote), one, two.(txn := wrote, ops := [Put(k, v)], replies := [Unit]),
                  erased);
    assert events[..6] == events;
  }

  lemma {:induction false} PhantomErased<V>(events: seq<Event<V>>, lo: Bytes, hi: Bytes, a: Store<V>, one: Record<V>,
                                            two: Record<V>, erased: Txn<V>)
    requires |events| >= 6 && events[4] == Do(1, DeleteRange(lo, hi)) && events[5] == Commit(1)
    requires one == Record(1, 0, BeginTxn(map[]), [], [])
    requires erased == Act(one.txn, DeleteRange(lo, hi)).0 && erased.modified == map[]
    requires RunAll(events[..4]) == Some(System([map[], a], map[1 := one], [two]))
    ensures RunAll(events[..6]) ==
            Some(System([map[], a, CommitInto(a, erased)], map[],
                        [two, one.(txn := erased, ops := [DeleteRange(lo, hi)], replies := [Unit])]))
  {
    var none: Store<V> := map[];
    var one' := one.(txn := erased, ops := [DeleteRange(lo, hi)], replies := [Unit]);
    DoStep([none, a], map[1 := one], [two], 1, DeleteRange(lo, hi), map[1 := one']);
    Stepped(events, 4, System([none, a], map[1 := one], [two]), System([none, a], map[1 := one'], [two]));
    CommitStep([none, a], map[1 := one'], [two], 1, map[]);
    assert [none, a] + [CommitInto(a, erased)] == [none, a, CommitInto(a, erased)] && [two] + [one'] == [two, one'];
    Stepped(events, 5, System([none, a], map[1 := one'], [two]), System([none, a, CommitInto(a, erased)], map[], [two, one']));
  }

  lemma {:induction false} PhantomCreated<V>(events: seq<Event<V>>, k: Bytes, v: V, one: Record<V>, two: Record<V>,
                                             wrote: Txn<V>)
    requires |events| >= 4 && events[0] == Begin(1, 1) && events[1] == Begin(2, 2) && events[2] == Do(2, Put(k, v))
    requires events[3] == Commit(2)
    requires one == Record(1, 0, BeginTxn(map[]), [], []) && two == Record(2, 0, BeginTxn(map[]), [], [])
    requires wrote == Act(two.txn, Put(k, v)).0 && wrote.modified == map[k := 0] && k in wrote.buffer
    ensures RunAll(events[..4]) == Some(System([map[], CommitInto(map[], wrote)], map[1 := one],
                                               [two.(txn := wrote, ops := [Put(k, v)], replies := [Unit])]))
  {
    var none: Store<V> := map[];
    var two' := two.(txn := wrote, ops := [Put(k, v)], replies := [Unit]);
    var s2 := System([none], map[1 := one, 2 := two], []);
    var s3 := System([none], map[1 := one, 2 := two'], []);
    assert events[..0] == [];
    Stepped(events, 0, Initial(), System([none], map[1 := one], []));
    Stepped(events, 1, System([none], map[1 := one], []), s2);
    DoStep([none], map[1 := one, 2 := two], [], 2, Put(k, v), map[1 := one, 2 := two']);
    Stepped(events, 2, s2, s3);
    CommitStep([none], map[1 := one, 2 := two'], [], 2, map[1 := one]);
    assert [none] + [CommitInto(none, wrote)] == [none, CommitInto(none, wrote)] && [] + [two'] == [two'];
    Stepped(events, 3, s3, System([none, CommitInto(none, wrote)], map[1 := one], [two']));
  }

  lemma {:induction false} DoStep<V>(history: seq<Store<V>>, active: map<nat, Record<V>>, committed: seq<Record<V>>, id: nat,
                                     op: Op<V>, after: map<nat, Record<V>>)
    requires history != [] && id in active && active[id].ops == [] && active[id].replies == []
    requires after == active[id := active[id].(txn := Act(active[id].txn, op).0, ops := [op],
                                                replies := [Act(active[id].txn, op).1])]
    ensures Step(System(history, active, committed), Do(id, op)) == Some(System(history, after, committed))
  {
    assert active[id].ops + [op] == [op] && [] + [Act(active[id].txn, op).1] == [Act(active[id].txn, op).1];
  }

  lemma {:induction false} CommitStep<V>(history: seq<Store<V>>, active: map<nat, Record<V>>, committed: seq<Record<V>>,
                                         id: nat, after: map<nat, Record<V>>)
    requires history != [] && id in active && after == active - {id}
    requires active[id].txn.modified.Keys <= active[id].txn.buffer.Keys
    requires !Conflicts(history[|history| - 1], active[id].txn)
    ensures Step(System(history, active, committed), Commit(id)) ==
            Some(System(history + [CommitInto(history[|history| - 1], active[id].txn)], after, committed + [active[id]]))
  {
  }
}
