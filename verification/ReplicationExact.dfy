/**
 The bulk copy on a quiet master is exact.
 */
module ReplicationExact {
  import opened Bytes
  import opened Sequences
  import opened Store
  import opened ReplicationClient
  import opened ReplicationSystem
  import opened ReplicationConvergence
  import opened ReplicationQuiet

  lemma {:induction false} PutAllConcat(db: Db, a: seq<Entry>, b: seq<Entry>)
    ensures PutAll(db, a + b) == PutAll(PutAll(db, a), b)
    decreases |a|
  {
    if a == [] {
      assert a + b == b;
    } else {
      assert (a + b)[1..] == a[1..] + b;
      PutAllConcat(db[a[0].0 := a[0].1], a[1..], b);
    }
  }

  /** How far into the listing the copy has come. */
  function Reached(s: System): (n: nat)
    ensures n <= |Listing(s.master)|
  {
    if s.client.phase == Syncing then PortionStart(Listing(s.master), Current(s.client)) else |Listing(s.master)|
  }

  /** What has been pushed is the listing up to there, in order, and the slave will have it on top of what it had. */
  ghost predicate ExactSoFar(s: System, base: Db) {
    && !OnlyEmptyKey(s)
    && s.client.queue == []
    && s.copied == EntriesAt(s.master, Listing(s.master)[..Reached(s)])
    && RunAll(s.wire, s.slave) == PutAll(base, s.copied)
  }

  lemma EntriesConcat(db: Db, a: seq<Key>, b: seq<Key>)
    requires (forall k :: k in a ==> k in db) && forall k :: k in b ==> k in db
    ensures (forall k :: k in a + b ==> k in db) && EntriesAt(db, a) + EntriesAt(db, b) == EntriesAt(db, a + b)
  {
  }

  lemma ExtendCopied(db: Db, from: Key)
    requires PortionKeys(db, from) != [] ==> PortionEnd(db, from) != []
    ensures var ks := Listing(db);
            var done := if PortionKeys(db, from) == [] then |ks| else PortionStart(ks, PortionEnd(db, from));
            EntriesAt(db, ks[..PortionStart(ks, from)]) + Portion(db, from) == EntriesAt(db, ks[..done])
  {
    PortionSlice(db, from);
    var ks := Listing(db);
    var i, n := PortionStart(ks, from), PortionLength(ks, from);
    if n > 0 {
      PortionAdvances(db, from);
    }
    EntriesExtend(db, ks, i, n);
  }

  lemma EntriesExtend(db: Db, ks: seq<Key>, i: nat, n: nat)
    requires i + n <= |ks| && forall k :: k in ks ==> k in db
    ensures EntriesAt(db, ks[..i]) + EntriesAt(db, ks[i..i + n]) == EntriesAt(db, ks[..i + n])
  {
    EntriesConcat(db, ks[..i], ks[i..i + n]);
    assert ks[..i + n] == ks[..i] + ks[i..i + n];
  }

  /** One more portion behind the others. */
  lemma RunsPortion(wire: seq<Command>, slave: Db, base: Db, copied: seq<Entry>, p: seq<Entry>)
    requires RunAll(wire, slave) == PutAll(base, copied)
    ensures RunAll(wire + [Set(p)], slave) == PutAll(base, copied + p)
  {
    RunAllConcat(wire, [Set(p)], slave);
    PutAllConcat(base, copied, p);
    assert RunAll([Set(p)], RunAll(wire, slave)) == PutAll(RunAll(wire, slave), p);
  }

  lemma ExactConfirmSyncing(s: System, base: Db)
    requires Book(s) && s.up && ExactSoFar(s, base) && s.client.phase == Syncing && Enabled(s, Confirm)
    ensures Step(s, Confirm).Some? && ExactSoFar(Step(s, Confirm).value, base) && Step(s, Confirm).value.up
  {
    var f := Current(s.client);
    QuietStepSmaller(s, Confirm);
    ConfirmSyncingShape(s);
    if PortionKeys(s.master, f) != [] && PortionEnd(s.master, f) == [] {
      EndsEmpty(s.master, f);
    }
    ExtendCopied(s.master, f);
    RunsPortion(s.wire, s.slave, base, s.copied, Portion(s.master, f));
  }

  lemma ExactApply(s: System, base: Db)
    requires ExactSoFar(s, base) && Enabled(s, Apply)
    ensures ExactSoFar(Step(s, Apply).value, base) && Step(s, Apply).value.up
  {
  }

  lemma ExactConfirmFinishing(s: System, base: Db)
    requires Book(s) && ExactSoFar(s, base) && s.client.phase == SyncFinishing && Enabled(s, Confirm)
    ensures Step(s, Confirm).Some? && ExactSoFar(Step(s, Confirm).value, base) && Step(s, Confirm).value.up
  {
    assert s.wire + [] == s.wire;
  }

  /** With nothing queued a look at the queue only schedules the next one. */
  lemma ExactPush(s: System, base: Db)
    requires ExactSoFar(s, base) && s.client.pipelined == 0
    ensures Carry(s, PushQueue(s.client)).Some? && ExactSoFar(Carry(s, PushQueue(s.client)).value, base)
    ensures Carry(s, PushQueue(s.client)).value.up == s.up
  {
    assert s.wire + [] == s.wire;
  }

  lemma ExactPoll(s: System, e: Event, base: Db)
    requires Book(s) && s.up && ExactSoFar(s, base) && Enabled(s, e) && (e.Poll? || e.StalePoll?)
    ensures Step(s, e).Some? && ExactSoFar(Step(s, e).value, base) && Step(s, e).value.up
  {
    assert s.client.phase == Running && s.client.pipelined == 0;
    if e.Poll? {
      ExactPush(s.(polls := s.polls - 1), base);
    } else {
      ExactPush(s.(stale := s.stale - 1), base);
    }
  }

  lemma ExactStep(s: System, e: Event, base: Db)
    requires Book(s) && s.up && ExactSoFar(s, base) && Enabled(s, e) && IsQuiet(e)
    ensures Step(s, e).Some? && ExactSoFar(Step(s, e).value, base) && Step(s, e).value.up
  {
    match e
    case Apply => ExactApply(s, base);
    case Confirm =>
      assert s.client.phase != Running;
      if s.client.phase == Syncing {
        ExactConfirmSyncing(s, base);
      } else {
        ExactConfirmFinishing(s, base);
      }
    case _ => ExactPoll(s, e, base);
  }

  /** Connected, exact so far, and the master's store as it was. */
  ghost predicate ExactOf(s: System, base: Db, master: Db) {
    s.up && ExactSoFar(s, base) && s.master == master
  }

  lemma QuietKeepsMaster(s: System, e: Event)
    requires Enabled(s, e) && IsQuiet(e) && Step(s, e).Some?
    ensures Step(s, e).value.master == s.master
  {
  }

  lemma ExactRun(s: System, es: seq<Event>, base: Db)
    requires Book(s) && s.up && ExactSoFar(s, base) && QuietRun(s, es)
    ensures After(s, es).Some? && Book(After(s, es).value) && ExactOf(After(s, es).value, base, s.master)
  {
    var master := s.master;
    forall x, e | Book(x) && ExactOf(x, base, master) && Enabled(x, e) && IsQuiet(e) && Step(x, e).Some?
      ensures ExactOf(Step(x, e).value, base, master)
    {
      ExactStep(x, e, base);
      QuietKeepsMaster(x, e);
    }
    QuietRunKeeps(x => ExactOf(x, base, master), s, es);
  }

  /** One portion moves the copied part of the listing up to where the next portion starts. */
  lemma CopiedStep(db: Db, from: Key)
    requires db.Keys != {[]}
    ensures var ks := Listing(db);
            EntriesAt(db, ks[..PortionStart(ks, from)]) + Portion(db, from)
            == EntriesAt(db, ks[..PortionStart(ks, PortionEnd(db, from))])
  {
    if PortionKeys(db, from) != [] && PortionEnd(db, from) == [] {
      EndsEmpty(db, from);
    }
    ExtendCopied(db, from);
    PortionSlice(db, from);
  }

  lemma GatheredFirst(p: seq<Entry>, rest: seq<Command>)
    ensures Gathered([Set(p)] + rest) == p + Gathered(rest)
  {
    assert ([Set(p)] + rest)[1..] == rest;
  }

  /** The entries of the listing before the portion that follows `from`. */
  function Before(db: Db, from: Key): seq<Entry> {
    EntriesAt(db, Listing(db)[..PortionStart(Listing(db), from)])
  }

  lemma {:induction false} GatheredPortions(c: ClientState, db: Db, from: Key, n: nat, c1: ClientState,
                                            sent: seq<Command>)
    requires db.Keys != {[]} && Current(c) == from && PushPortions(c, db, from, n) == (c1, sent)
    ensures Before(db, from) + Gathered(sent) == Before(db, Current(c1))
    decreases n
  {
    if n > 0 {
      var p := Portion(db, from);
      FirstOfPortions(c, db, from, n, c1, sent);
      CurrentPushed(c, db, from);
      CopiedStep(db, from);
      GatheredPortions(PushPortion(c, db, from), db, PortionEnd(db, from), n - 1, c1, sent[1..]);
      assert sent == [Set(p)] + sent[1..];
      GatheredFirst(p, sent[1..]);
      Associative(Before(db, from), p, Gathered(sent[1..]));
    } else {
      assert Before(db, from) + [] == Before(db, from);
    }
  }

  lemma {:induction false} RunPortions(c: ClientState, db: Db, from: Key, n: nat, base: Db,
                                       c1: ClientState, sent: seq<Command>)
    requires PushPortions(c, db, from, n) == (c1, sent)
    ensures RunAll(sent, base) == PutAll(base, Gathered(sent))
    decreases n
  {
    if n > 0 {
      var p := Portion(db, from);
      FirstOfPortions(c, db, from, n, c1, sent);
      RunPortions(PushPortion(c, db, from), db, PortionEnd(db, from), n - 1, PutAll(base, p), c1, sent[1..]);
      assert sent == [Set(p)] + sent[1..];
      GatheredFirst(p, sent[1..]);
      PutAllConcat(base, p, Gathered(sent[1..]));
    }
  }

  lemma FirstExactPortions(db: Db, n: nat, base: Db, c1: ClientState, sent: seq<Command>)
    requires db.Keys != {[]} && PushPortions(FRESH, db, [], n) == (c1, sent)
    ensures Gathered(sent) == Before(db, Current(c1)) && RunAll(sent, base) == PutAll(base, Gathered(sent))
  {
    GatheredPortions(FRESH, db, [], n, c1, sent);
    RunPortions(FRESH, db, [], n, base, c1, sent);
    assert Before(db, []) + Gathered(sent) == Gathered(sent);
  }

  lemma StartExact(master: Db, base: Db)
    requires master.Keys != {[]}
    ensures ExactSoFar(Start(master, base), base)
  {
    StartBook(master, base);
    var (c1, sent) := PushPortions(FRESH, master, [], PIPELINE_SIZE);
    StartShape(master, base, c1, sent);
    FirstExactPortions(master, PIPELINE_SIZE, base, c1, sent);
  }

  lemma PutListing(base: Db, db: Db)
    ensures PutAll(base, EntriesAt(db, Listing(db))) == base + db
  {
    PutAllIsOverlay(base, EntriesAt(db, Listing(db)));
    EffectOfEntriesAt(db, Listing(db));
    SameLookups(PutAll(base, EntriesAt(db, Listing(db))), base + db);
  }

  /**
   The bulk copy, on a master that stays quiet and whose store is anything but the empty
   key alone: when the running phase is reached, the portions pushed are together the
   sorted store, every key once, and the slave has the master's store on top of its old
   one; the stores are then equal exactly when the slave held no key the master lacks.
   */
  lemma BulkCopyIsExact(master: Db, base: Db, es: seq<Event>, t: System)
    requires master.Keys != {[]}
    requires QuietRun(Start(master, base), es) && After(Start(master, base), es) == Some(t)
    requires t.client.phase == Running
    ensures t.copied == EntriesAt(master, Listing(master))
    ensures t.slave == base + master
    ensures t.slave == t.master <==> base.Keys <= master.Keys
  {
    StartBook(master, base);
    StartExact(master, base);
    ExactRun(Start(master, base), es, base);
    FinalExact(t, base);
    SameAsOverlaid(base, master);
  }

  lemma SameAsOverlaid(base: Db, master: Db)
    ensures base + master == master <==> base.Keys <= master.Keys
  {
    if k :| k in base && k !in master {
      assert k in base + master;
    } else {
      assert base + master == master;
    }
  }

  lemma FinalExact(t: System, base: Db)
    requires Book(t) && ExactSoFar(t, base) && t.client.phase == Running
    ensures t.copied == EntriesAt(t.master, Listing(t.master)) && t.slave == base + t.master
  {
    var ks := Listing(t.master);
    assert ks[..|ks|] == ks;
    PutListing(base, t.master);
    assert t.wire == [];
  }
}
