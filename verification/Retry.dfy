/**
 `run_graph`: each client repeats its transaction until it commits, at most ten times,
 while all other clients interleave freely.
 */
module Retry {
  import opened Wrappers
  import opened SnapshotIsolation
  import opened CommitDecisions

  const MAX_ATTEMPTS: nat := 10

  /** Where a client is in its `run_graph` call. */
  datatype Client = Running(attempt: nat) | Succeeded | GaveUp | Errored

  datatype World<V> = World(sys: System<V>, clients: map<nat, Client>)

  /** `Start` a call, do one store operation, `Finish` an attempt by committing, or `Fail` while running the graph. */
  datatype Action<V> = Start(c: nat) | Work(c: nat, op: Op<V>) | Finish(c: nat) | Fail(c: nat)

  /** A client runs one transaction at a time, under its own number. */
  function Move<V>(w: World<V>, a: Action<V>): Option<World<V>> {
    if a.Start? then
      if a.c in w.clients then None else Enter(w, a.c, 0)
    else if a.c !in w.clients || !w.clients[a.c].Running? then None
    else
      match a
      case Work(c, op) =>
        (match Step(w.sys, Do(c, op))
         case None => None
         case Some(sys) => Some(w.(sys := sys)))
      case Fail(c) =>
        (match Step(w.sys, Drop(c))
         case None => None
         case Some(sys) => Some(World(sys, w.clients[c := Errored])))
      case Finish(c) =>
        match Step(w.sys, Commit(c))
        case None => None
        case Some(sys) =>
          if |sys.committed| > |w.sys.committed| then Some(World(sys, w.clients[c := Succeeded]))
          else if w.clients[c].attempt + 1 < MAX_ATTEMPTS then Enter(World(sys, w.clients), c, w.clients[c].attempt + 1)
          else Some(World(sys, w.clients[c := GaveUp]))
  }

  function Enter<V>(w: World<V>, c: nat, attempt: nat): Option<World<V>> {
    match Step(w.sys, Begin(c, c))
    case None => None
    case Some(sys) => Some(World(sys, w.clients[c := Running(attempt)]))
  }

  function Play<V>(actions: seq<Action<V>>): Option<World<V>> {
    if actions == [] then Some(World(Initial(), map[])) else
    match Play(actions[..|actions| - 1])
    case None => None
    case Some(w) => Move(w, actions[|actions| - 1])
  }

  /** How many committed transactions belong to a client. */
  function Applied<V>(records: seq<Record<V>>, c: nat): nat {
    if records == [] then 0
    else Applied(records[..|records| - 1], c) + if records[|records| - 1].owner == c then 1 else 0
  }

  lemma {:induction false} AppliedSnoc<V>(records: seq<Record<V>>, r: Record<V>, c: nat)
    ensures Applied(records + [r], c) == Applied(records, c) + if r.owner == c then 1 else 0
  {
    assert (records + [r])[..|records|] == records;
  }

  /** A client has been applied once if it succeeded and not at all otherwise. */
  ghost predicate WorldOk<V>(w: World<V>) {
    (forall id <- w.sys.active :: w.sys.active[id].owner == id) &&
    (forall c <- w.clients :: w.clients[c].Running? ==> w.clients[c].attempt < MAX_ATTEMPTS) &&
    (forall c :: Applied(w.sys.committed, c) == if c in w.clients && w.clients[c].Succeeded? then 1 else 0)
  }

  lemma {:induction false} EnterOk<V>(w: World<V>, c: nat, attempt: nat)
    requires WorldOk(w) && attempt < MAX_ATTEMPTS && Enter(w, c, attempt).Some?
    requires c in w.clients ==> !w.clients[c].Succeeded?
    ensures WorldOk(Enter(w, c, attempt).value)
  {
  }

  /** An attempt that conflicts leaves every store of the history as it was. */
  lemma {:induction false} ConflictChangesNothing<V>(sys: System<V>, id: nat)
    requires Step(sys, Commit(id)).Some? && |Step(sys, Commit(id)).value.committed| == |sys.committed|
    ensures Step(sys, Commit(id)).value.history == sys.history
    ensures Step(sys, Commit(id)).value.committed == sys.committed
  {
  }

  lemma {:induction false} FinishOk<V>(w: World<V>, c: nat)
    requires WorldOk(w) && Move(w, Finish(c)).Some?
    ensures WorldOk(Move(w, Finish(c)).value)
  {
    var sys := Step(w.sys, Commit(c)).value;
    if |sys.committed| > |w.sys.committed| {
      forall d ensures Applied(sys.committed, d) == Applied(w.sys.committed, d) + if d == c then 1 else 0 {
        AppliedSnoc(w.sys.committed, w.sys.active[c], d);
      }
    } else {
      ConflictChangesNothing(w.sys, c);
      if w.clients[c].attempt + 1 < MAX_ATTEMPTS {
        EnterOk(World(sys, w.clients), c, w.clients[c].attempt + 1);
      }
    }
  }

  lemma {:induction false} MoveOk<V>(w: World<V>, a: Action<V>)
    requires WorldOk(w) && Move(w, a).Some?
    ensures WorldOk(Move(w, a).value)
  {
    match a
    case Start(c) => EnterOk(w, c, 0);
    case Work(c, op) =>
    case Fail(c) =>
    case Finish(c) => FinishOk(w, c);
  }

  /**
   In every interleaving of retrying clients, a call that succeeded has been applied exactly once, one that gave up,
   failed or is still running not at all, and nobody is past the tenth attempt.
   */
  lemma {:induction false} AppliedExactlyOnce<V>(actions: seq<Action<V>>)
    requires Play(actions).Some?
    ensures var w := Play(actions).value;
      (forall c <- w.clients :: w.clients[c].Running? ==> w.clients[c].attempt < MAX_ATTEMPTS) &&
      forall c :: Applied(w.sys.committed, c) == if c in w.clients && w.clients[c].Succeeded? then 1 else 0
  {
    PlayOk(actions);
  }

  lemma {:induction false} PlayOk<V>(actions: seq<Action<V>>)
    requires Play(actions).Some?
    ensures WorldOk(Play(actions).value)
  {
    if actions != [] {
      PlayOk(actions[..|actions| - 1]);
      MoveOk(Play(actions[..|actions| - 1]).value, actions[|actions| - 1]);
    }
  }

  /** How often a client has tried to commit. */
  function Attempts<V>(actions: seq<Action<V>>, c: nat): nat {
    if actions == [] then 0
    else Attempts(actions[..|actions| - 1], c) + if actions[|actions| - 1] == Finish(c) then 1 else 0
  }

  ghost predicate AttemptsFit(client: Option<Client>, attempts: nat) {
    match client
    case None => attempts == 0
    case Some(Running(attempt)) => attempts == attempt < 10
    case Some(Succeeded) => 1 <= attempts <= 10
    case Some(GaveUp) => attempts == 10
    case Some(Errored) => attempts < 10
  }

  function ClientOf<V>(w: World<V>, c: nat): Option<Client> {
    if c in w.clients then Some(w.clients[c]) else None
  }

  /** A call gives up after ten attempts that all conflicted, and not before. */
  lemma {:induction false} GivesUpAfterTen<V>(actions: seq<Action<V>>, c: nat)
    requires Play(actions).Some?
    ensures AttemptsFit(ClientOf(Play(actions).value, c), Attempts(actions, c))
  {
    if actions != [] {
      var (init, last) := (actions[..|actions| - 1], actions[|actions| - 1]);
      GivesUpAfterTen(init, c);
      MoveAttempts(Play(init).value, last, c, Attempts(init, c));
    }
  }

  lemma {:induction false} MoveAttempts<V>(w: World<V>, a: Action<V>, c: nat, attempts: nat)
    requires Move(w, a).Some? && AttemptsFit(ClientOf(w, c), attempts)
    ensures AttemptsFit(ClientOf(Move(w, a).value, c), attempts + if a == Finish(c) then 1 else 0)
  {
    assert a.Finish? && a.c == c ==> a == Finish(c);
  }

  lemma {:induction false} EnterSystemOk<V>(w: World<V>, c: nat, attempt: nat)
    requires SystemOk(w.sys) && Enter(w, c, attempt).Some?
    ensures SystemOk(Enter(w, c, attempt).value.sys)
  {
    StepOk(w.sys, Begin(c, c));
  }

  lemma {:induction false} MoveSystemOk<V>(w: World<V>, a: Action<V>)
    requires SystemOk(w.sys) && Move(w, a).Some?
    ensures SystemOk(Move(w, a).value.sys)
  {
    match a
    case Start(c) => EnterSystemOk(w, c, 0);
    case Work(c, op) => StepOk(w.sys, Do(c, op));
    case Fail(c) => StepOk(w.sys, Drop(c));
    case Finish(c) =>
      StepOk(w.sys, Commit(c));
      var sys := Step(w.sys, Commit(c)).value;
      if |sys.committed| <= |w.sys.committed| && w.clients[c].attempt + 1 < MAX_ATTEMPTS {
        EnterSystemOk(World(sys, w.clients), c, w.clients[c].attempt + 1);
      }
  }

  /** Retrying clients are transactions like any other: all isolation results hold of their runs. */
  lemma {:induction false} RetriesAreIsolated<V>(actions: seq<Action<V>>)
    requires Play(actions).Some?
    ensures SystemOk(Play(actions).value.sys)
  {
    if actions == [] {
      assert SystemOk(Initial<V>());
    } else {
      RetriesAreIsolated(actions[..|actions| - 1]);
      MoveSystemOk(Play(actions[..|actions| - 1]).value, actions[|actions| - 1]);
    }
  }

  ghost predicate RunningAreActive<V>(w: World<V>) {
    forall c :: c in w.sys.active <==> c in w.clients && w.clients[c].Running?
  }

  lemma {:induction false} RunningStayActive<V>(w: World<V>, a: Action<V>)
    requires RunningAreActive(w) && Move(w, a).Some?
    ensures RunningAreActive(Move(w, a).value)
  {
  }

  lemma {:induction false} PlayRunning<V>(actions: seq<Action<V>>)
    requires Play(actions).Some?
    ensures RunningAreActive(Play(actions).value)
  {
    if actions != [] {
      PlayRunning(actions[..|actions| - 1]);
      RunningStayActive(Play(actions[..|actions| - 1]).value, actions[|actions| - 1]);
    }
  }

  /**
   In every run, a client that is running can always try to commit, and its call succeeds exactly if no commit since this
   attempt began wrote a key that the attempt wrote.
   */
  lemma {:induction false} AttemptDecided<V>(actions: seq<Action<V>>, c: nat)
    requires Play(actions).Some? && c in Play(actions).value.clients && Play(actions).value.clients[c].Running?
    ensures var w := Play(actions).value;
      c in w.sys.active && Move(w, Finish(c)).Some? &&
      (Move(w, Finish(c)).value.clients[c].Succeeded? <==> !Overtaken(w.sys, w.sys.active[c]))
  {
    var w := Play(actions).value;
    PlayRunning(actions);
    RetriesAreIsolated(actions);
    CommitsUnlessOvertaken(w.sys, c);
    FinishDecided(w, c, !Overtaken(w.sys, w.sys.active[c]));
  }

  lemma {:induction false} FinishDecided<V>(w: World<V>, c: nat, ok: bool)
    requires c in w.clients && w.clients[c].Running? && w.sys.history != []
    requires Step(w.sys, Commit(c)).Some? && Decided(w.sys, c, Step(w.sys, Commit(c)).value, ok)
    ensures Move(w, Finish(c)).Some? && (Move(w, Finish(c)).value.clients[c].Succeeded? <==> ok)
  {
  }

  /** The operations a client did since it last started or tried to commit. */
  function OpsSince<V>(actions: seq<Action<V>>, c: nat): seq<Op<V>> {
    if actions == [] then [] else
    var (init, last) := (actions[..|actions| - 1], actions[|actions| - 1]);
    if last.c != c then OpsSince(init, c)
    else if last.Work? then OpsSince(init, c) + [last.op]
    else []
  }

  /** The transaction of a running call has exactly the operations of this attempt. */
  lemma {:induction false} AttemptIsItsOperations<V>(actions: seq<Action<V>>, c: nat)
    requires Play(actions).Some? && c in Play(actions).value.sys.active
    ensures Play(actions).value.sys.active[c].ops == OpsSince(actions, c)
  {
    var init := actions[..|actions| - 1];
    PlayRunning(init);
    if c in Play(init).value.sys.active { AttemptIsItsOperations(init, c); }
    MoveOperations(Play(init).value, actions[|actions| - 1], c, OpsSince(init, c));
  }

  lemma {:induction false} MoveOperations<V>(w: World<V>, a: Action<V>, c: nat, ops: seq<Op<V>>)
    requires RunningAreActive(w) && Move(w, a).Some? && c in Move(w, a).value.sys.active
    requires c in w.sys.active ==> w.sys.active[c].ops == ops
    ensures Move(w, a).value.sys.active[c].ops == if a.c != c then ops else if a.Work? then ops + [a.op] else []
  {
  }
}
