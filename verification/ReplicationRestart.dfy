/**
 A copy onto a slave that already holds something: what becomes of the slave's own keys.

 The slave's store never influences what the master does, so a run onto any slave goes like
 the same run onto an empty one.
 */
module ReplicationRestart {
  import opened Bytes
  import opened Store
  import opened ReplicationClient
  import opened ReplicationSystem
  import opened ReplicationConvergence

  // ---------------------------------------------------------------- the slave's store apart

  function With(s: System, slave: Db): System {
    s.(slave := slave)
  }

  function Applied(s: System, e: Event, slave: Db): Db
    requires Enabled(s, e)
  {
    if e.Apply? then Run(s.wire[0], slave) else slave
  }

  lemma CarryApart(s: System, o: Outcome, x: Db)
    ensures Carry(With(s, x), o) == match Carry(s, o) case None => None case Some(s1) => Some(With(s1, x))
  {
  }

  lemma ConfirmApart(s: System, x: Db)
    requires Enabled(s, Confirm)
    ensures Step(With(s, x), Confirm) == match Step(s, Confirm) case None => None case Some(s1) => Some(With(s1, x))
  {
    var more := if s.client.phase == Syncing then Portion(s.master, Current(s.client)) else [];
    CarryApart(s.(confirms := s.confirms - 1, copied := s.copied + more), OnConfirm(s.client, s.master), x);
  }

  lemma StepApart(s: System, e: Event, x: Db)
    requires Enabled(s, e)
    ensures Enabled(With(s, x), e)
    ensures Step(With(s, x), e)
         == match Step(s, e) case None => None case Some(s1) => Some(With(s1, Applied(s, e, x)))
  {
    match e
    case Write(_) =>
    case Apply =>
    case Confirm => ConfirmApart(s, x);
    case Poll => CarryApart(s.(polls := s.polls - 1), PushQueue(s.client), x);
    case StalePoll(_) => CarryApart(s.(stale := s.stale - 1), PushQueue(s.client), x);
    case Drop =>
    case Continue => CarryApart(s.(up := true), SyncQueue(s.client), x);
  }

  /** The commands the slave runs in the course of a run. */
  function Ran(s: System, es: seq<Event>): seq<Command>
    decreases |es|
  {
    if es == [] || !Enabled(s, es[0]) then []
    else
      (if es[0].Apply? then [s.wire[0]] else [])
      + (match Step(s, es[0]) case None => [] case Some(s1) => Ran(s1, es[1..]))
  }

  lemma AppliedFirst(s: System, e: Event, x: Db, more: seq<Command>)
    requires Enabled(s, e)
    ensures RunAll((if e.Apply? then [s.wire[0]] else []) + more, x) == RunAll(more, Applied(s, e, x))
  {
    if e.Apply? {
      assert ([s.wire[0]] + more)[1..] == more;
    } else {
      assert [] + more == more;
    }
  }

  /** With another store on the slave the same run ends alike, but for the slave's store. */
  lemma {:induction false} RunApart(s: System, es: seq<Event>, x: Db)
    ensures After(With(s, x), es)
         == match After(s, es) case None => None case Some(t) => Some(With(t, RunAll(Ran(s, es), x)))
    decreases |es|
  {
    if es != [] && Enabled(s, es[0]) {
      StepApart(s, es[0], x);
      var o := Step(s, es[0]);
      if o.Some? {
        RunApart(o.value, es[1..], Applied(s, es[0], x));
        AppliedFirst(s, es[0], x, Ran(o.value, es[1..]));
      }
    } else {
      assert es != [] ==> !Enabled(With(s, x), es[0]);
    }
  }

  // ---------------------------------------------------------------- safe onto any slave, safe onto an empty one

  lemma RunAllMonotone(cmds: seq<Command>, x: Db, y: Db)
    requires x.Keys <= y.Keys
    ensures RunAll(cmds, x).Keys <= RunAll(cmds, y).Keys
  {
    RunAllIsOverlay(cmds, x);
    RunAllIsOverlay(cmds, y);
  }

  lemma SafeApart(s: System, e: Event, x: Db)
    requires Safe(s, e) && x.Keys <= s.slave.Keys
    ensures Safe(With(s, x), e)
  {
    RunAllMonotone(s.wire + s.client.queue, x, s.slave);
  }

  lemma AppliedMonotone(s: System, e: Event, x: Db, y: Db)
    requires Enabled(s, e) && x.Keys <= y.Keys
    ensures Applied(s, e, x).Keys <= Applied(s, e, y).Keys
  {
    if e.Apply? {
      RunAllMonotone([s.wire[0]], x, y);
      assert [s.wire[0]][1..] == [];
      assert RunAll([s.wire[0]], x) == Run(s.wire[0], x) && RunAll([s.wire[0]], y) == Run(s.wire[0], y);
    }
  }

  lemma {:induction false} SafeRunApart(s: System, es: seq<Event>, x: Db)
    requires SafeRun(s, es) && x.Keys <= s.slave.Keys
    ensures SafeRun(With(s, x), es)
    decreases |es|
  {
    if es != [] {
      SafeApart(s, es[0], x);
      StepApart(s, es[0], x);
      StepApart(s, es[0], s.slave);
      var o := Step(s, es[0]);
      if o.Some? {
        AppliedMonotone(s, es[0], x, s.slave);
        SafeRunApart(o.value, es[1..], Applied(s, es[0], x));
      }
    }
  }

  // ---------------------------------------------------------------- what survives

  lemma OverlayOnEmpty(master: Db, e: Effect)
    requires Overlay(map[], e) == master
    ensures master.Keys <= e.Keys
    ensures forall base :: Overlay(base, e) == (base - e.Keys) + master
  {
    forall base ensures Overlay(base, e) == (base - e.Keys) + master {
      forall k ensures Lookup(Overlay(base, e), k) == Lookup((base - e.Keys) + master, k) {
        assert Lookup(Overlay(map[], e), k) == Lookup(master, k);
      }
      SameLookups(Overlay(base, e), (base - e.Keys) + master);
    }
  }

  /** The keys of everything the slave has run since the start or still has queued. */
  function Mentioned(s: System, es: seq<Event>, queue: seq<Command>): set<Key> {
    EffectOfAll(Ran(s, es) + queue).Keys
  }

  /**
   Convergence onto any slave: over every safe run, once the record is running the slave
   will have the master's store and, of its own keys, exactly those that no command sent
   to it mentions; none of these is on the master.
   */
  lemma RestartConvergence(master: Db, base: Db, es: seq<Event>, t: System)
    requires SafeRun(Start(master, base), es) && After(Start(master, base), es) == Some(t)
    requires t.client.phase == Running
    ensures var mentioned := Mentioned(Start(master, base), es, t.client.queue);
            && t.master.Keys <= mentioned
            && RunAll(t.client.queue, t.slave) == (base - mentioned) + t.master
  {
    var s := Start(master, base);
    var s0 := With(s, map[]);
    assert s0 == Start(master, map[]) && With(s, base) == s;
    SafeRunApart(s, es, map[]);
    RunApart(s, es, map[]);
    RunApart(s, es, base);
    var ran, q := Ran(s, es), t.client.queue;
    Convergence(master, es, With(t, RunAll(ran, map[])));
    RunAllConcat(ran, q, map[]);
    RunAllConcat(ran, q, base);
    RunAllIsOverlay(ran + q, map[]);
    RunAllIsOverlay(ran + q, base);
    OverlayOnEmpty(t.master, EffectOfAll(ran + q));
  }
}
