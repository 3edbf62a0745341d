/**
 Key by key, what a slave will have after any run, safe or not.

 An event carries a key when it sends the slave the key's current value: a write that is
 forwarded, or a portion that holds the key.  The slave will have what the last event that
 carried the key made of it, and nothing that happened to the key since.
 */
module ReplicationAccount {
  import opened Bytes
  import opened Store
  import opened ReplicationClient
  import opened ReplicationSystem
  import opened ReplicationConvergence
  import opened ReplicationQuiet

  predicate Carries(s: System, e: Event, k: Key) {
    match e
    case Write(cmd) =>
      && k in EffectOf(cmd)
      && (s.client.phase == Running || (s.client.phase == Syncing && Less(k, Current(s.client))))
    case Confirm => s.client.phase == Syncing && k in PortionKeys(s.master, Current(s.client))
    case _ => false
  }

  /** The master's value of the key right after the last event of the run that carried it; `held` if none did. */
  function LastCarried(held: Option<Value>, s: System, es: seq<Event>, k: Key): Option<Value>
    decreases |es|
  {
    if es == [] || !Enabled(s, es[0]) then held
    else
      match Step(s, es[0])
      case None => held
      case Some(s1) => LastCarried(if Carries(s, es[0], k) then Lookup(s1.master, k) else held, s1, es[1..], k)
  }

  /** The connection is not lost before the copy is done. */
  predicate Unbroken(s: System, e: Event) {
    e.Drop? ==> s.client.phase == Running
  }

  ghost predicate Tracked(s: System) {
    && Book(s)
    && (s.client.phase != Running ==> s.up)
    && (s.client.phase == Syncing ==> KeysBelowOnly(EffectOfAll(s.client.queue), Current(s.client)))
  }

  // ---------------------------------------------------------------- one step

  lemma WriteCarries(s: System, cmd: Command, k: Key)
    requires Tracked(s)
    ensures var s' := Step(s, Write(cmd)).value;
            Lookup(Eventual(s'), k) == if Carries(s, Write(cmd), k) then Lookup(s'.master, k)
                else Lookup(Eventual(s), k)
  {
    MasterLookup(s, cmd, k);
    match s.client.phase
    case Syncing => WriteSyncingEventual(s, cmd, k);
    case SyncFinishing =>
    case Running =>
      WriteRunning(s, cmd);
      RunIsOverlay(cmd, Eventual(s));
  }

  lemma ConfirmCarries(s: System, k: Key)
    requires Tracked(s) && Enabled(s, Confirm)
    ensures Step(s, Confirm).Some?
    ensures var s' := Step(s, Confirm).value;
            Lookup(Eventual(s'), k) == if Carries(s, Confirm, k) then Lookup(s'.master, k) else Lookup(Eventual(s), k)
  {
    StepBook(s, Confirm);
    match s.client.phase
    case Syncing =>
      ConfirmSyncingShape(s);
      ConfirmSyncingEventual(s);
      PortionLookup(Eventual(s), s.master, Current(s.client), k);
    case SyncFinishing => ConfirmFinishingEventual(s);
    case Running => ConfirmRunningEventual(s);
  }

  lemma LinkKeepsEventual(s: System, e: Event)
    requires Tracked(s) && Enabled(s, e) && Unbroken(s, e) && (e.Drop? || e.Continue?) && Step(s, e).Some?
    ensures s.client.phase == Running && Eventual(Step(s, e).value) == Eventual(s)
  {
  }

  /** One event, one key. */
  lemma StepCarries(s: System, e: Event, k: Key)
    requires Tracked(s) && Enabled(s, e) && Unbroken(s, e)
    ensures Step(s, e).Some?
    ensures var s' := Step(s, e).value;
            Lookup(Eventual(s'), k) == if Carries(s, e, k) then Lookup(s'.master, k) else Lookup(Eventual(s), k)
  {
    StepBook(s, e);
    match e
    case Write(cmd) => WriteCarries(s, cmd, k);
    case Apply => ApplyEventual(s);
    case Confirm => ConfirmCarries(s, k);
    case Poll => PollEventual(s, e);
    case StalePoll(_) => PollEventual(s, e);
    case Drop => LinkKeepsEventual(s, e);
    case Continue => LinkKeepsEventual(s, e);
  }

  // ---------------------------------------------------------------- what the account relies on

  lemma ConfirmTracked(s: System)
    requires Tracked(s) && s.client.phase == Syncing && Enabled(s, Confirm)
    ensures Step(s, Confirm).Some? && Tracked(Step(s, Confirm).value)
  {
    StepBook(s, Confirm);
    ConfirmSyncingShape(s);
    var f := Current(s.client);
    var f' := PortionEnd(s.master, f);
    PortionEndNotBelow(s.master, f);
    forall k | k in EffectOfAll(s.client.queue) ensures Less(k, f') {
      if f != f' { LessTransitive(k, f, f'); }
    }
  }

  lemma StepTracked(s: System, e: Event)
    requires Tracked(s) && Enabled(s, e) && Unbroken(s, e)
    ensures Step(s, e).Some? && Tracked(Step(s, e).value)
  {
    StepBook(s, e);
    if s.client.phase == Syncing {
      match e {
        case Write(cmd) => WriteKeepsQueueBelow(s, cmd);
        case Confirm => ConfirmTracked(s);
        case _ =>
      }
    } else {
      NeverBackToSyncing(s, e);
    }
  }

  lemma NeverBackToSyncing(s: System, e: Event)
    requires Tracked(s) && s.client.phase != Syncing && Enabled(s, e) && Unbroken(s, e) && Step(s, e).Some?
    ensures var s' := Step(s, e).value; s'.client.phase != Syncing && (s'.client.phase != Running ==> s'.up)
  {
  }

  lemma StartTracked(master: Db, slave: Db)
    ensures Tracked(Start(master, slave))
  {
    StartBook(master, slave);
  }

  // ---------------------------------------------------------------- whole runs

  lemma {:induction false} RunCarries(s: System, es: seq<Event>, k: Key)
    requires Tracked(s) && RunOf(Unbroken, s, es)
    ensures After(s, es).Some? && Tracked(After(s, es).value)
    ensures Lookup(Eventual(After(s, es).value), k) == LastCarried(Lookup(Eventual(s), k), s, es, k)
    decreases |es|
  {
    if es != [] {
      StepTracked(s, es[0]);
      StepCarries(s, es[0], k);
      RunCarries(Step(s, es[0]).value, es[1..], k);
    }
  }

  /** What the portions of the start carry, onto an empty slave: the keys up to the frontier. */
  lemma StartCarries(master: Db, k: Key)
    requires Current(Start(master, map[]).client) != []
    ensures Lookup(Eventual(Start(master, map[])), k)
         == if AtMost(k, Current(Start(master, map[]).client)) then Lookup(master, k) else None
  {
    StartConverges(master);
  }

  /**
   The account of every run: onto any slave, with any writes, as long as the connection is
   not lost before the copy is done.  Once the record is running, the slave will have for
   each key what the key was when last carried, or what the start gave it if it never was;
   so it is wrong about exactly those keys that are something else on the master by then.
   */
  lemma KeyByKey(master: Db, base: Db, es: seq<Event>, t: System, k: Key)
    requires RunOf(Unbroken, Start(master, base), es) && After(Start(master, base), es) == Some(t)
    requires t.client.phase == Running
    ensures var s := Start(master, base);
            Lookup(RunAll(t.client.queue, t.slave), k) == LastCarried(Lookup(Eventual(s), k), s, es, k)
  {
    StartTracked(master, base);
    RunCarries(Start(master, base), es, k);
  }
}
