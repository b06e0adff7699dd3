/**
 Which commits succeed, what they leave in the store and what their transactions were
 told, in terms of the operations alone: no versions, no working copies.
 */
module CommitDecisions {
  import opened ByteStrings
  import opened MemKv
  import opened SnapshotIsolation
  import opened SqliteLog

  // ---------------------------------------------------------------------------
  // What a transaction writes

  predicate PointWrite<V>(op: Op<V>, k: Bytes) {
    (op.Put? || op.Delete?) && op.k == k
  }

  /** Range delete `i` takes the key: the store had it at the start, dead or alive, or a point write before wrote it. */
  predicate RangeWrite<V>(ops: seq<Op<V>>, i: nat, k: Bytes, known: bool)
    requires i < |ops|
  {
    ops[i].DeleteRange? && InRange(k, ops[i].lo, ops[i].hi) && (known || Writes(ops[..i], k))
  }

  /** The operations write the key, of a store that had it, dead or alive, exactly if `known`. */
  predicate WritesKey<V>(ops: seq<Op<V>>, k: Bytes, known: bool) {
    exists i :: 0 <= i < |ops| && (PointWrite(ops[i], k) || RangeWrite(ops, i, k, known))
  }

  /** The transaction that began after `at` commits writes the key. */
  ghost predicate Wrote<V>(committed: seq<Record<V>>, at: nat, ops: seq<Op<V>>, k: Bytes)
    decreases at, 1
  {
    WritesKey(ops, k, WroteBefore(committed, at, k))
  }

  /** One of the first `n` commits wrote the key. */
  ghost predicate WroteBefore<V>(committed: seq<Record<V>>, n: nat, k: Bytes)
    decreases n, 0
  {
    exists i :: 0 <= i < n && i < |committed| && committed[i].at <= i &&
      Wrote(committed, committed[i].at, committed[i].ops, k)
  }

  /** Commit `i` wrote the key. */
  ghost predicate CommitWrote<V>(sys: System<V>, i: nat, k: Bytes)
    requires i < |sys.committed|
  {
    Wrote(sys.committed, sys.committed[i].at, sys.committed[i].ops, k)
  }

  // ---------------------------------------------------------------------------
  // Working copies hold just that

  lemma {:induction false} WritesKeySnoc<V>(ops: seq<Op<V>>, op: Op<V>, k: Bytes, known: bool)
    ensures WritesKey(ops + [op], k, known) <==>
      WritesKey(ops, k, known) || PointWrite(op, k) ||
      (op.DeleteRange? && InRange(k, op.lo, op.hi) && (known || Writes(ops, k)))
  {
    var all := ops + [op];
    assert all[..|ops|] == ops && all[|ops|] == op;
    forall i | 0 <= i < |ops| ensures all[i] == ops[i] && (RangeWrite(all, i, k, known) <==> RangeWrite(ops, i, k, known)) {
      assert all[..i] == ops[..i];
    }
    if i :| 0 <= i < |all| && (PointWrite(all[i], k) || RangeWrite(all, i, k, known)) {
      assert i < |ops| ==> WritesKey(ops, k, known);
    }
    if PointWrite(op, k) { assert PointWrite(all[|ops|], k); }
    if op.DeleteRange? && InRange(k, op.lo, op.hi) && (known || Writes(ops, k)) { assert RangeWrite(all, |ops|, k, known); }
  }

  lemma {:induction false} WritesSnoc<V>(ops: seq<Op<V>>, op: Op<V>, k: Bytes)
    ensures Writes(ops + [op], k) <==> Writes(ops, k) || PointWrite(op, k)
  {
    var all := ops + [op];
    if i :| 0 <= i < |ops| && (ops[i].Put? || ops[i].Delete?) && ops[i].k == k { assert all[i] == ops[i]; }
    if PointWrite(op, k) { assert all[|ops|] == op; }
    if i :| 0 <= i < |all| && (all[i].Put? || all[i].Delete?) && all[i].k == k {
      assert i < |ops| ==> all[i] == ops[i];
    }
  }

  /** The working copy has the keys of its store and those written to; the written ones are recorded. */
  lemma {:induction false} WorkingCopy<V>(m: Store<V>, ops: seq<Op<V>>, k: Bytes)
    ensures var t := ActAll(BeginTxn(m), ops).0;
      (k in t.buffer <==> k in m || Writes(ops, k)) && (k in t.modified <==> WritesKey(ops, k, k in m))
  {
    if ops != [] {
      var (init, last) := (ops[..|ops| - 1], ops[|ops| - 1]);
      assert ops == init + [last];
      WorkingCopy(m, init, k);
      WorkingStep(ActAll(BeginTxn(m), init).0, last, k);
      WritesSnoc(init, last, k);
      WritesKeySnoc(init, last, k, k in m);
    }
  }

  lemma {:induction false} WorkingStep<V>(t: Txn<V>, op: Op<V>, k: Bytes)
    ensures var t' := Act(t, op).0;
      (k in t'.buffer <==> k in t.buffer || PointWrite(op, k)) &&
      (k in t'.modified <==>
       k in t.modified || PointWrite(op, k) || (op.DeleteRange? && InRange(k, op.lo, op.hi) && k in t.buffer))
  {
  }

  /** The store has, dead or alive, exactly the keys that some commit wrote. */
  lemma {:induction false} StoreKeys<V>(sys: System<V>, n: nat, k: Bytes)
    requires SystemOk(sys) && n < |sys.history|
    ensures k in sys.history[n] <==> WroteBefore(sys.committed, n, k)
    decreases n, 0
  {
    if n > 0 {
      StoreKeys(sys, n - 1, k);
      assert CommitOk(sys.history, sys.committed[n - 1], n - 1);
      CommittedKeys(sys, n - 1, k);
      if CommitWrote(sys, n - 1, k) { assert WroteBefore(sys.committed, n, k); }
    }
  }

  lemma {:induction false} RecordedKeys<V>(sys: System<V>, r: Record<V>, k: Bytes)
    requires SystemOk(sys) && RecordOk(sys.history, r)
    ensures k in r.txn.modified <==> Wrote(sys.committed, r.at, r.ops, k)
    decreases r.at, 1
  {
    StoreKeys(sys, r.at, k);
    WorkingCopy(sys.history[r.at], r.ops, k);
  }

  lemma {:induction false} CommittedKeys<V>(sys: System<V>, i: nat, k: Bytes)
    requires SystemOk(sys) && i < |sys.committed|
    ensures k in sys.committed[i].txn.modified <==> CommitWrote(sys, i, k)
    decreases i, 2
  {
    assert CommitOk(sys.history, sys.committed[i], i);
    RecordedKeys(sys, sys.committed[i], k);
  }

  // ---------------------------------------------------------------------------
  // The decision

  /** A commit since the transaction began wrote a key that the transaction wrote. */
  ghost predicate Overtaken<V>(sys: System<V>, r: Record<V>) {
    exists i, k :: r.at <= i < |sys.committed| && CommitWrote(sys, i, k) && Wrote(sys.committed, r.at, r.ops, k)
  }

  /** No commit from `i` up to `j` wrote the key. */
  ghost predicate Unwritten<V>(sys: System<V>, i: nat, j: nat, k: Bytes)
    requires j <= |sys.committed|
  {
    forall c :: i <= c < j ==> !CommitWrote(sys, c, k)
  }

  lemma {:induction false} UnwrittenSnoc<V>(sys: System<V>, i: nat, j: nat, k: Bytes)
    requires i <= j < |sys.committed|
    ensures Unwritten(sys, i, j + 1, k) <==> Unwritten(sys, i, j, k) && !CommitWrote(sys, j, k)
  {
  }

  /** A key's version is the one of the snapshot exactly if no commit since wrote it. */
  lemma {:induction false} VersionTells<V>(sys: System<V>, i: nat, j: nat, k: Bytes)
    requires SystemOk(sys) && i <= j < |sys.history|
    ensures Version(sys.history[i], k) == Version(sys.history[j], k) <==> Unwritten(sys, i, j, k)
    decreases j - i
  {
    if i < j {
      VersionTells(sys, i, j - 1, k);
      VersionsGrow(sys, i, j - 1, k);
      VersionStep(sys, j - 1, k);
      UnwrittenSnoc(sys, i, j - 1, k);
    }
  }

  lemma {:induction false} VersionStep<V>(sys: System<V>, i: nat, k: Bytes)
    requires SystemOk(sys) && i < |sys.committed|
    ensures if CommitWrote(sys, i, k) then Version(sys.history[i], k) < Version(sys.history[i + 1], k)
            else Version(sys.history[i], k) == Version(sys.history[i + 1], k)
  {
    CommitRaises(sys, i, k);
    CommittedKeys(sys, i, k);
  }

  lemma {:induction false} KeyConflicts<V>(sys: System<V>, r: Record<V>, k: Bytes)
    requires SystemOk(sys) && RecordOk(sys.history, r)
    ensures k in r.txn.modified && Version(Current(sys), k) != r.txn.modified[k] <==>
      Wrote(sys.committed, r.at, r.ops, k) && !Unwritten(sys, r.at, |sys.committed|, k)
  {
    RecordedKeys(sys, r, k);
    VersionTells(sys, r.at, |sys.committed|, k);
  }

  lemma {:induction false} ConflictsIfOvertaken<V>(sys: System<V>, r: Record<V>)
    requires SystemOk(sys) && RecordOk(sys.history, r)
    ensures Conflicts(Current(sys), r.txn) <==> Overtaken(sys, r)
  {
    if Conflicts(Current(sys), r.txn) {
      var k :| k in r.txn.modified && Version(Current(sys), k) != r.txn.modified[k];
      KeyConflicts(sys, r, k);
    }
    if i, k :| r.at <= i < |sys.committed| && CommitWrote(sys, i, k) && Wrote(sys.committed, r.at, r.ops, k) {
      KeyConflicts(sys, r, k);
    }
  }

  /** What a commit attempt comes to: the transaction is over, and it is in the history exactly if `ok`. */
  ghost predicate Decided<V>(sys: System<V>, id: nat, sys': System<V>, ok: bool) {
    id in sys.active && sys'.active == sys.active - {id} &&
    (if ok then sys'.committed == sys.committed + [sys.active[id]] && |sys'.history| == |sys.history| + 1 &&
                sys'.history[..|sys.history|] == sys.history
     else sys'.committed == sys.committed && sys'.history == sys.history)
  }

  /** A transaction in flight commits exactly if no commit since it began wrote a key that it wrote. */
  lemma {:induction false} CommitsUnlessOvertaken<V>(sys: System<V>, id: nat)
    requires SystemOk(sys) && id in sys.active
    ensures Step(sys, Commit(id)).Some? && Decided(sys, id, Step(sys, Commit(id)).value, !Overtaken(sys, sys.active[id]))
  {
    assert RecordOk(sys.history, sys.active[id]);
    ConflictsIfOvertaken(sys, sys.active[id]);
  }

  /** In every reachable system: who is in flight can go on and can commit, anyone else can begin. */
  lemma {:induction false} StepEnabled<V>(sys: System<V>, ev: Event<V>)
    requires SystemOk(sys)
    ensures Step(sys, ev).Some? <==>
      match ev
      case Begin(id, _) => id !in sys.active
      case Do(id, _) => id in sys.active
      case Commit(id) => id in sys.active
      case Drop(_) => true
  {
    if ev.Commit? && ev.id in sys.active { CommitsUnlessOvertaken(sys, ev.id); }
  }

  // ---------------------------------------------------------------------------
  // Transactions in terms of the run

  predicate Ends<V>(ev: Event<V>, id: nat) {
    (ev.Begin? || ev.Commit? || ev.Drop?) && ev.id == id
  }

  /** The operations that transaction `id` does in a run. */
  function OpsOf<V>(events: seq<Event<V>>, id: nat): seq<Op<V>> {
    if events == [] then [] else
    var last := events[|events| - 1];
    OpsOf(events[..|events| - 1], id) + if last.Do? && last.id == id then [last.op] else []
  }

  /** Event `p` began the transaction that `id` still runs. */
  predicate Began<V>(events: seq<Event<V>>, p: nat, id: nat) {
    p < |events| && events[p].Begin? && events[p].id == id && forall q :: p < q < |events| ==> !Ends(events[q], id)
  }

  lemma {:induction false} PrefixRuns<V>(events: seq<Event<V>>, p: nat)
    requires RunAll(events).Some? && p <= |events|
    ensures RunAll(events[..p]).Some?
    decreases |events|
  {
    if p == |events| {
      assert events[..p] == events;
    } else {
      var init := events[..|events| - 1];
      PrefixRuns(init, p);
      assert init[..p] == events[..p];
    }
  }

  /** Other events leave a transaction's start alone; its own operations are recorded. */
  lemma {:induction false} StepKeeps<V>(sys: System<V>, ev: Event<V>, id: nat)
    requires id in sys.active && Step(sys, ev).Some? && !Ends(ev, id)
    ensures id in Step(sys, ev).value.active
    ensures var (r, r') := (sys.active[id], Step(sys, ev).value.active[id]);
      r'.at == r.at && r'.ops == r.ops + if ev.Do? && ev.id == id then [ev.op] else []
  {
    assert sys.active[id].ops + [] == sys.active[id].ops;
  }

  lemma {:induction false} OpsOfSnoc<V>(events: seq<Event<V>>, p: nat, id: nat)
    requires p < |events| - 1
    ensures var (init, last) := (events[..|events| - 1], events[|events| - 1]);
      OpsOf(events[p + 1..], id) == OpsOf(init[p + 1..], id) + if last.Do? && last.id == id then [last.op] else []
  {
    var tail := events[p + 1..];
    assert tail[..|tail| - 1] == events[..|events| - 1][p + 1..] && tail[|tail| - 1] == events[|events| - 1];
  }

  lemma {:induction false} BeganBefore<V>(events: seq<Event<V>>, p: nat, id: nat)
    requires Began(events, p, id) && p < |events| - 1
    ensures Began(events[..|events| - 1], p, id) && !Ends(events[|events| - 1], id)
  {
    var init := events[..|events| - 1];
    forall q | p < q < |init| ensures !Ends(init[q], id) { assert init[q] == events[q]; }
  }

  /** A transaction began with the store of that moment, and its operations are those it did since. */
  lemma {:induction false} InFlight<V>(events: seq<Event<V>>, p: nat, id: nat)
    requires RunAll(events).Some? && Began(events, p, id)
    ensures RunAll(events[..p]).Some? && id in RunAll(events).value.active
    ensures var r := RunAll(events).value.active[id];
      r.at == |RunAll(events[..p]).value.history| - 1 && r.ops == OpsOf(events[p + 1..], id)
    decreases |events|
  {
    PrefixRuns(events, p);
    var n := |events| - 1;
    var init := events[..n];
    assert RunAll(init).Some? && RunAll(events) == Step(RunAll(init).value, events[n]);
    if p < n {
      BeganBefore(events, p, id);
      InFlight(init, p, id);
      assert init[..p] == events[..p];
      StepKeeps(RunAll(init).value, events[n], id);
      OpsOfSnoc(events, p, id);
    } else {
      assert events[..p] == init && events[p + 1..] == [];
    }
  }

  /**
   In every run: a commit of a transaction succeeds exactly if no transaction that committed since it began wrote a key
   that it wrote, both judged by their operations; otherwise nothing changes but that it is over.
   */
  lemma {:induction false} EveryCommitIsDecided<V>(events: seq<Event<V>>, p: nat, id: nat)
    requires RunAll(events).Some? && Began(events, p, id)
    ensures RunAll(events[..p]).Some? && RunAll(events + [Commit(id)]).Some?
    ensures var (sys, start) := (RunAll(events).value, RunAll(events[..p]).value);
      Decided(sys, id, RunAll(events + [Commit(id)]).value,
              !exists i, k :: |start.committed| <= i < |sys.committed| && CommitWrote(sys, i, k) &&
                Wrote(sys.committed, |start.committed|, OpsOf(events[p + 1..], id), k))
  {
    RunOk(events);
    InFlight(events, p, id);
    RunOk(events[..p]);
    CommitsUnlessOvertaken(RunAll(events).value, id);
    assert (events + [Commit(id)])[..|events|] == events;
  }

  // ---------------------------------------------------------------------------
  // Values

  /** What commit `i` leaves at a key: its own last word on a key it wrote, otherwise what was there. */
  lemma {:induction false} CommitLeaves<V>(sys: System<V>, i: nat, k: Bytes)
    requires SystemOk(sys) && i < |sys.committed|
    ensures var r := sys.committed[i];
      r.at <= i && LiveAt(sys.history[i + 1], k) ==
        if CommitWrote(sys, i, k) then Fate(LiveAt(sys.history[r.at], k), r.ops, k) else LiveAt(sys.history[i], k)
  {
    var r := sys.committed[i];
    assert CommitOk(sys.history, r, i);
    CommittedKeys(sys, i, k);
    CommitRaises(sys, i, k);
    BufferFate(sys.history[r.at], r.ops, k);
  }

  /** Reads are from the store as it was at the start, scans from there with the transaction's own writes. */
  ghost predicate Answers<V>(m: Store<V>, ops: seq<Op<V>>, i: nat, reply: Reply<V>)
    requires i < |ops|
  {
    match ops[i]
    case Get(k) => reply == Got(LiveAt(m, k))
    case Scan(lo, hi) =>
      reply.Keys? && forall k :: k in reply.keys <==> InRange(k, lo, hi) && Fate(LiveAt(m, k), ops[..i], k).Some?
    case _ => reply == Unit
  }

  lemma {:induction false} ReplyIs<V>(m: Store<V>, init: seq<Op<V>>, op: Op<V>)
    ensures Answers(m, init + [op], |init|, Act(ActAll(BeginTxn(m), init).0, op).1)
  {
    var (ops, t) := (init + [op], ActAll(BeginTxn(m), init).0);
    assert ops[..|init|] == init && ops[|init|] == op;
    SnapshotKept(BeginTxn(m), init);
    if op.Scan? {
      forall k ensures LiveAt(t.buffer, k) == Fate(LiveAt(m, k), init, k) { BufferFate(m, init, k); }
    }
  }

  lemma {:induction false} SnapshotKept<V>(t: Txn<V>, ops: seq<Op<V>>)
    ensures ActAll(t, ops).0.snapshot == t.snapshot
  {
    if ops != [] { SnapshotKept(t, ops[..|ops| - 1]); }
  }

  lemma {:induction false} RepliesAre<V>(m: Store<V>, ops: seq<Op<V>>, i: nat)
    requires i < |ops|
    ensures |ActAll(BeginTxn(m), ops).1| == |ops| && Answers(m, ops, i, ActAll(BeginTxn(m), ops).1[i])
    decreases |ops|
  {
    var init := ops[..|ops| - 1];
    assert ops == init + [ops[|ops| - 1]];
    if i < |init| {
      RepliesAre(m, init, i);
      assert init[..i] == ops[..i] && init[i] == ops[i];
    } else {
      if init != [] { RepliesAre(m, init, 0); }
      ReplyIs(m, init, ops[|ops| - 1]);
    }
  }

  /** In every run, each operation of each transaction was answered so, from the store the transaction began with. */
  lemma {:induction false} EveryReplyIsAnswer<V>(events: seq<Event<V>>, r: Record<V>, i: nat)
    requires RunAll(events).Some? && i < |r.ops|
    requires r in RunAll(events).value.committed || r in RunAll(events).value.active.Values
    ensures var history := RunAll(events).value.history;
      r.at < |history| && |r.replies| == |r.ops| && Answers(history[r.at], r.ops, i, r.replies[i])
  {
    RunOk(events);
    var sys := RunAll(events).value;
    assert RecordOk(sys.history, r) by {
      if r in sys.committed {
        var j :| 0 <= j < |sys.committed| && sys.committed[j] == r;
        assert CommitOk(sys.history, sys.committed[j], j);
      } else {
        var id :| id in sys.active && sys.active[id] == r;
      }
    }
    RepliesAre(sys.history[r.at], r.ops, i);
  }
}
