/**
 Runs in which the master's store no longer changes: the bulk copy ends, and a copy cut short or
 a write that was not safe is lost for good.
 */
module ReplicationQuiet {
  import opened Bytes
  import opened Store
  import opened ReplicationClient
  import opened ReplicationSystem
  import opened ReplicationConvergence

  predicate IsQuiet(e: Event) {
    e.Apply? || e.Confirm? || e.Poll? || e.StalePoll?
  }

  predicate QuietEvent(s: System, e: Event) {
    IsQuiet(e)
  }

  ghost predicate QuietRun(s: System, es: seq<Event>) {
    RunOf(QuietEvent, s, es)
  }

  lemma QuietRunIsSafe(s: System, es: seq<Event>)
    requires QuietRun(s, es)
    ensures SafeRun(s, es)
  {
    RunWidens(QuietEvent, Safe, s, es);
  }

  /** What every quiet step keeps, starting from balanced books, every quiet run keeps. */
  lemma QuietRunKeeps(P: System -> bool, s: System, es: seq<Event>)
    requires forall x, e :: Book(x) && P(x) && Enabled(x, e) && IsQuiet(e) && Step(x, e).Some? ==> P(Step(x, e).value)
    requires Book(s) && P(s) && QuietRun(s, es)
    ensures After(s, es).Some? && Book(After(s, es).value) && P(After(s, es).value)
  {
    var Q := (x: System) => Book(x) && P(x);
    forall x, e | Q(x) && Enabled(x, e) && QuietEvent(x, e) ensures Step(x, e).Some? && Q(Step(x, e).value) {
      StepBook(x, e);
    }
    RunKeeps(Q, QuietEvent, s, es);
  }

  // ---------------------------------------------------------------- a lost write stays lost

  /** The slave will disagree with the master on `k`, and no later portion will carry `k`. */
  ghost predicate Missed(s: System, k: Key) {
    && s.client.phase != NotReady
    && Lookup(Eventual(s), k) != Lookup(s.master, k)
    && (s.client.phase == Syncing ==> k !in s.master || (k != [] && AtMost(k, Current(s.client))))
  }

  /** A confirmation whose portion leaves the key out changes nothing for the key. */
  lemma NotSent(s: System, k: Key)
    requires s.client.phase == Syncing && s.client.currentKeys != [] && Enabled(s, Confirm) && Step(s, Confirm).Some?
    requires k !in PortionKeys(s.master, Current(s.client))
    ensures Lookup(Eventual(Step(s, Confirm).value), k) == Lookup(Eventual(s), k)
  {
    var s', f := Step(s, Confirm).value, Current(s.client);
    AppendEffect(s.wire, Set(Portion(s.master, f)));
    EffectOfEntriesAt(s.master, PortionKeys(s.master, f));
    EventualLookupSync(s, k);
    EventualLookupSync(s', k);
  }

  /** Keys up to the frontier are in no later portion. */
  lemma BehindFrontier(db: Db, f: Key, k: Key)
    requires k != [] && AtMost(k, f)
    ensures k !in PortionKeys(db, f) && AtMost(k, PortionEnd(db, f))
  {
    PortionEndNotBelow(db, f);
    var f' := PortionEnd(db, f);
    if k != f && f != f' {
      LessTransitive(k, f, f');
    }
    if k in PortionKeys(db, f) {
      if k != f { LessAsymmetric(k, f); } else { LessIrreflexive(k); }
    }
  }

  lemma MissedConfirmSyncing(s: System, k: Key)
    requires Book(s) && Missed(s, k) && s.client.phase == Syncing && Enabled(s, Confirm)
    ensures Step(s, Confirm).Some? && Missed(Step(s, Confirm).value, k)
  {
    ConfirmSyncingShape(s);
    if k in s.master {
      BehindFrontier(s.master, Current(s.client), k);
    }
    NotSent(s, k);
  }

  /** What the slave will have, the master's store and the frontier decide whether a key is missed. */
  lemma StillMissed(s: System, s': System, k: Key)
    requires Missed(s, k) && s'.client.phase != NotReady
    requires s'.master == s.master && Eventual(s') == Eventual(s)
    requires s'.client.phase == Syncing ==> s.client.phase == Syncing && Current(s'.client) == Current(s.client)
    ensures Missed(s', k)
  {
  }

  lemma MissedApply(s: System, k: Key)
    requires Book(s) && Missed(s, k) && Enabled(s, Apply)
    ensures Missed(Step(s, Apply).value, k)
  {
    ApplyEventual(s);
    StillMissed(s, Step(s, Apply).value, k);
  }

  lemma MissedConfirm(s: System, k: Key)
    requires Book(s) && Missed(s, k) && Enabled(s, Confirm)
    ensures Step(s, Confirm).Some? && Missed(Step(s, Confirm).value, k)
  {
    if s.client.phase == Syncing {
      MissedConfirmSyncing(s, k);
    } else {
      StepBook(s, Confirm);
      if s.client.phase == SyncFinishing {
        ConfirmFinishingEventual(s);
      } else {
        ConfirmRunningEventual(s);
      }
      StillMissed(s, Step(s, Confirm).value, k);
    }
  }

  lemma MissedPoll(s: System, e: Event, k: Key)
    requires Book(s) && Missed(s, k) && Enabled(s, e) && (e.Poll? || e.StalePoll?)
    ensures Step(s, e).Some? && Missed(Step(s, e).value, k)
  {
    StepBook(s, e);
    PollEventual(s, e);
    StillMissed(s, Step(s, e).value, k);
  }

  lemma MissedStep(s: System, e: Event, k: Key)
    requires Book(s) && Missed(s, k) && Enabled(s, e) && IsQuiet(e)
    ensures Step(s, e).Some? && Missed(Step(s, e).value, k)
  {
    match e
    case Apply => MissedApply(s, k);
    case Confirm => MissedConfirm(s, k);
    case _ => MissedPoll(s, e, k);
  }

  lemma MissedForever(s: System, es: seq<Event>, k: Key)
    requires Book(s) && Missed(s, k) && QuietRun(s, es)
    ensures After(s, es).Some? && Missed(After(s, es).value, k)
  {
    forall x, e | Book(x) && Missed(x, k) && Enabled(x, e) && IsQuiet(e) && Step(x, e).Some?
      ensures Missed(Step(x, e).value, k)
    {
      MissedStep(x, e, k);
    }
    QuietRunKeeps(x => Missed(x, k), s, es);
  }

  lemma DifferentStores(a: Db, b: Db) returns (k: Key)
    requires a != b
    ensures Lookup(a, k) != Lookup(b, k)
  {
    if forall x :: Lookup(a, x) == Lookup(b, x) {
      SameLookups(a, b);
    }
    k :| Lookup(a, k) != Lookup(b, k);
  }

  lemma UnsafeWriteIsMissed(s: System, cmd: Command) returns (k: Key)
    requires Book(s) && Convergent(s) && !SafeWrite(s, cmd)
    ensures Missed(Step(s, Write(cmd)).value, k)
  {
    var s' := Step(s, Write(cmd)).value;
    if s.client.phase == Syncing {
      k := Current(s.client);
      LessIrreflexive(k);
      WriteSyncingEventual(s, cmd, k);
    } else {
      k := DifferentStores(Eventual(s'), s'.master);
    }
  }

  /**
   The exact condition on a write during the copy: when it is followed by any quiet run
   that reaches the running phase, the slave ends with the master's store if and only if
   the write was safe.
   */
  lemma WriteConvergesIffSafe(s: System, cmd: Command, es: seq<Event>, t: System)
    requires Book(s) && Convergent(s)
    requires QuietRun(Step(s, Write(cmd)).value, es) && After(Step(s, Write(cmd)).value, es) == Some(t)
    requires t.client.phase == Running
    ensures RunAll(t.client.queue, t.slave) == t.master <==> SafeWrite(s, cmd)
  {
    var s' := Step(s, Write(cmd)).value;
    WriteBook(s, cmd);
    if SafeWrite(s, cmd) {
      WriteKeepsConvergentIffSafe(s, cmd);
      QuietRunIsSafe(s', es);
      RunConverges(s', es);
    } else {
      var k := UnsafeWriteIsMissed(s, cmd);
      MissedForever(s', es, k);
    }
  }

  // ---------------------------------------------------------------- a reachable unsafe write

  /** Right after the start of a copy the frontier is a stored key, unless there is only the empty key or none. */
  lemma StartFrontier(master: Db, slave: Db)
    requires master != map[] && master.Keys != {[]}
    ensures var f := Current(Start(master, slave).client); f != [] && f in master
  {
    var (c1, sent) := PushPortions(FRESH, master, [], PIPELINE_SIZE);
    StartShape(master, slave, c1, sent);
    FrontierStays(FRESH, master, [], PIPELINE_SIZE, c1, sent);
  }

  predicate Stored(db: Db, k: Key) {
    k != [] && k in db
  }

  lemma FirstFrontier(master: Db)
    requires master != map[] && master.Keys != {[]}
    ensures Stored(master, PortionEnd(master, []))
  {
    assert Listing(master) != [];
    PortionSlice(master, []);
    if PortionEnd(master, []) == [] {
      EndsEmpty(master, []);
    }
  }

  /** Where a portion may start: after a stored key, or at the beginning of a store that has one. */
  ghost predicate Leads(db: Db, from: Key) {
    Stored(db, from) || (from == [] && db != map[] && db.Keys != {[]})
  }

  /** What one portion makes true of the frontier and the next ones keep holds after any positive number of them. */
  lemma {:induction false} PortionsReach(P: Key -> bool, Q: Key -> bool, c: ClientState, db: Db, from: Key, n: nat,
                                         c1: ClientState, sent: seq<Command>)
    requires forall f :: P(f) ==> Q(PortionEnd(db, f))
    requires forall f :: Q(f) ==> P(f)
    requires PushPortions(c, db, from, n) == (c1, sent) && Current(c) == from && P(from)
    ensures if n == 0 then Current(c1) == from else Q(Current(c1))
    decreases n
  {
    if n > 0 {
      FirstOfPortions(c, db, from, n, c1, sent);
      CurrentPushed(c, db, from);
      PortionsReach(P, Q, PushPortion(c, db, from), db, PortionEnd(db, from), n - 1, c1, sent[1..]);
    }
  }

  lemma FrontierStays(c: ClientState, db: Db, from: Key, n: nat, c1: ClientState, sent: seq<Command>)
    requires n > 0 && PushPortions(c, db, from, n) == (c1, sent) && Current(c) == from && Leads(db, from)
    ensures Stored(db, Current(c1))
  {
    var P, Q := (f: Key) => Leads(db, f), (f: Key) => Stored(db, f);
    forall f | P(f) ensures Q(PortionEnd(db, f)) {
      NextFrontier(db, f);
    }
    PortionsReach(P, Q, c, db, from, n, c1, sent);
  }

  lemma NextFrontier(db: Db, from: Key)
    requires Leads(db, from)
    ensures Stored(db, PortionEnd(db, from))
  {
    if from == [] {
      FirstFrontier(db);
    } else if PortionKeys(db, from) != [] && PortionEnd(db, from) == [] {
      EndsEmpty(db, from);
    }
  }

  /**
   So there are writes that get lost: for every such store, setting the frontier key to
   another value right after the start is not safe, and every quiet run from there to the
   running phase leaves slave and master different.
   */
  lemma FrontierWriteIsLost(master: Db, v: Value, es: seq<Event>, t: System)
    requires master != map[] && master.Keys != {[]}
    requires var f := Current(Start(master, map[]).client); f in master && v != master[f]
    requires var s := Step(Start(master, map[]), Write(Set([(Current(Start(master, map[]).client), v)]))).value;
             QuietRun(s, es) && After(s, es) == Some(t)
    requires t.client.phase == Running
    ensures !SafeWrite(Start(master, map[]), Set([(Current(Start(master, map[]).client), v)]))
    ensures RunAll(t.client.queue, t.slave) != t.master
  {
    var s := Start(master, map[]);
    var f := Current(s.client);
    StartConverges(master);
    StartFrontier(master, map[]);
    SetChanges(master, f, v);
    StartBook(master, map[]);
    WriteConvergesIffSafe(s, Set([(f, v)]), es, t);
  }

  lemma SetChanges(db: Db, k: Key, v: Value)
    requires k in db && v != db[k]
    ensures Lookup(Run(Set([(k, v)]), db), k) == Some(v) != Lookup(db, k)
  {
    assert [(k, v)][1..] == [];
    assert PutAll(db[k := v], []) == db[k := v];
  }

  // ---------------------------------------------------------------- a deleted frontier key

  /** The smallest stored key above `from`. */
  ghost predicate FirstAfter(db: Db, from: Key, k: Key) {
    k in db && Less(from, k) && forall x :: x in db && Less(from, x) ==> AtMost(k, x)
  }

  lemma SeekFindsNext(ks: seq<Key>, from: Key, k: Key)
    requires Increasing(ks) && from !in ks && k in ks && Less(from, k)
    requires forall x :: x in ks && Less(from, x) ==> AtMost(k, x)
    ensures var p := SeekPosition(ks, from); p < |ks| && ks[p] == k
  {
    var p := SeekPosition(ks, from);
    var m :| 0 <= m < |ks| && ks[m] == k;
    SeekSeparates(ks, from, m);
    if m < p {
      LessAsymmetric(from, k);
    }
    SeekSeparates(ks, from, p);
    assert ks[p] in ks && Less(from, ks[p]);
    if ks[p] != k {
      PositionOrder(ks, p, m);
      LessAsymmetric(k, ks[p]);
    }
  }

  /** Seeking a key that is gone lands on the next one, and stepping on from there leaves it out. */
  lemma GoneKeySkipsNext(db: Db, from: Key, k: Key)
    requires from != [] && from !in db && FirstAfter(db, from, k)
    ensures k !in PortionKeys(db, from)
    ensures PortionKeys(db, from) != [] ==> Less(k, PortionEnd(db, from))
  {
    var ks := Listing(db);
    SeekFindsNext(ks, from, k);
    var i, n := PortionStart(ks, from), PortionLength(ks, from);
    PortionSlice(db, from);
    SliceMember(ks, i, n, k);
    forall m | i <= m < i + n ensures ks[m] != k && Less(k, ks[m]) {
      PositionOrder(ks, i - 1, m);
      LessIrreflexive(k);
    }
  }

  /** The frontier key is gone and this key comes next, and the slave does not have it right. */
  ghost predicate Skipped(s: System, k: Key) {
    && s.client.phase == Syncing && Current(s.client) != [] && Current(s.client) !in s.master
    && FirstAfter(s.master, Current(s.client), k) && Lookup(Eventual(s), k) != Lookup(s.master, k)
  }

  lemma SkippedStep(s: System, e: Event, k: Key)
    requires Book(s) && Skipped(s, k) && Enabled(s, e) && IsQuiet(e) && Step(s, e).Some?
    ensures Skipped(Step(s, e).value, k) || Missed(Step(s, e).value, k)
  {
    if e.Apply? {
      ApplyEventual(s);
    } else {
      GoneKeySkipsNext(s.master, Current(s.client), k);
      ConfirmSyncingShape(s);
      NotSent(s, k);
    }
  }

  /** Such a key stays wrong on the slave over every quiet run. */
  lemma SkippedForever(s: System, es: seq<Event>, t: System, k: Key)
    requires Book(s) && Skipped(s, k) && QuietRun(s, es) && After(s, es) == Some(t)
    ensures t.client.phase == Running ==> Lookup(RunAll(t.client.queue, t.slave), k) != Lookup(t.master, k)
  {
    forall x, e | Book(x) && (Skipped(x, k) || Missed(x, k)) && Enabled(x, e) && IsQuiet(e) && Step(x, e).Some?
      ensures Skipped(Step(x, e).value, k) || Missed(Step(x, e).value, k)
    {
      if Missed(x, k) {
        MissedStep(x, e, k);
      } else {
        SkippedStep(x, e, k);
      }
    }
    QuietRunKeeps(x => Skipped(x, k) || Missed(x, k), s, es);
  }

  lemma DeleteOne(db: Db, f: Key)
    ensures Run(Del([f]), db) == db - {f}
  {
    assert [f][1..] == [];
    assert DeleteAll(db - {f}, []) == db - {f};
  }

  lemma NextIsSkipped(s: System, f: Key, k: Key)
    requires s.client.phase == Syncing && Convergent(s) && f == Current(s.client) != [] && FirstAfter(s.master, f, k)
    ensures Skipped(Step(s, Write(Del([f]))).value, k)
  {
    DeleteOne(s.master, f);
    WriteKeepsQueueBelow(s, Del([f]));
    LessIrreflexive(f);
    LessAsymmetric(f, k);
    WriteSyncingEventual(s, Del([f]), k);
  }

  lemma GoneIsMissed(s: System, f: Key)
    requires s.client.phase == Syncing && Convergent(s) && f == Current(s.client) != []
    ensures Missed(Step(s, Write(Del([f]))).value, f)
  {
    DeleteOne(s.master, f);
    LessIrreflexive(f);
    WriteSyncingEventual(s, Del([f]), f);
    assert Lookup(Eventual(s), f) == Lookup(s.master, f);
  }

  /**
   Deleting the frontier key right after the start loses two keys: it stays on the slave,
   and the next key of the store never gets there, over every quiet run to the running phase.
   */
  lemma FrontierDeleteLosesTwo(master: Db, k: Key, es: seq<Event>, t: System)
    requires master != map[] && master.Keys != {[]}
    requires FirstAfter(master, Current(Start(master, map[]).client), k)
    requires var s := Step(Start(master, map[]), Write(Del([Current(Start(master, map[]).client)]))).value;
             QuietRun(s, es) && After(s, es) == Some(t)
    requires t.client.phase == Running
    ensures var f, after := Current(Start(master, map[]).client), RunAll(t.client.queue, t.slave);
            Lookup(after, f) != Lookup(t.master, f) && Lookup(after, k) != Lookup(t.master, k)
  {
    var s0 := Start(master, map[]);
    var f := Current(s0.client);
    StartConverges(master);
    StartFrontier(master, map[]);
    WriteBook(s0, Del([f]));
    NextIsSkipped(s0, f, k);
    GoneIsMissed(s0, f);
    var s := Step(s0, Write(Del([f]))).value;
    SkippedForever(s, es, t, k);
    MissedForever(s, es, f);
  }

  // ---------------------------------------------------------------- a copy cut short

  /**
   A connection lost during the copy and resumed with "continue" goes straight to the
   running phase, and the portions that were not run are never sent again: after any quiet
   run from there slave and master agree if and only if they would have agreed at the
   moment of the loss, had the slave run the queue alone.
   */
  lemma ContinueDuringCopy(s: System, t: System, es: seq<Event>, u: System)
    requires Book(s) && s.up && s.client.phase != Running
    requires After(s, [Drop, Continue]) == Some(t)
    requires QuietRun(t, es) && After(t, es) == Some(u)
    ensures u.client.phase == Running && u.master == s.master
    ensures RunAll(u.client.queue, u.slave) == RunAll(s.client.queue, s.slave)
    ensures RunAll(u.client.queue, u.slave) == u.master <==> RunAll(s.client.queue, s.slave) == s.master
  {
    Resumed(s, t);
    QuietKeepsEventual(t, es);
  }

  lemma Resumed(s: System, t: System)
    requires Book(s) && s.up && s.client.phase != Running && After(s, [Drop, Continue]) == Some(t)
    ensures Book(t) && t.client.phase == Running && t.master == s.master
    ensures t.client.queue == s.client.queue && t.slave == s.slave
  {
    var d := Step(s, Drop).value;
    assert [Drop, Continue][1..] == [Continue];
    assert After(s, [Drop, Continue]) == After(d, [Continue]);
    StepBook(s, Drop);
    StepBook(d, Continue);
    assert After(d, [Continue]) == After(Step(d, Continue).value, []);
  }

  /** The running phase, this store on the master and this one coming on the slave. */
  ghost predicate Heading(s: System, master: Db, slave: Db) {
    s.client.phase == Running && s.master == master && Eventual(s) == slave
  }

  lemma HeadingStep(s: System, e: Event, master: Db, slave: Db)
    requires Book(s) && Heading(s, master, slave) && Enabled(s, e) && IsQuiet(e) && Step(s, e).Some?
    ensures Heading(Step(s, e).value, master, slave)
  {
    RunningStays(s, e);
    match e
    case Apply => ApplyEventual(s);
    case Confirm => ConfirmRunningEventual(s);
    case _ => PollEventual(s, e);
  }

  /** A quiet run while running changes neither store in the end. */
  lemma QuietKeepsEventual(s: System, es: seq<Event>)
    requires Book(s) && s.client.phase == Running && QuietRun(s, es)
    ensures After(s, es).Some?
    ensures Heading(After(s, es).value, s.master, Eventual(s))
  {
    var master, slave := s.master, Eventual(s);
    forall x, e | Book(x) && Heading(x, master, slave) && Enabled(x, e) && IsQuiet(e) && Step(x, e).Some?
      ensures Heading(Step(x, e).value, master, slave)
    {
      HeadingStep(x, e, master, slave);
    }
    QuietRunKeeps(x => Heading(x, master, slave), s, es);
  }

  /** For instance: cut right after the start, any non-empty store is lost, and no later quiet run brings it back. */
  lemma CopyCutShort(master: Db, t: System, es: seq<Event>, u: System)
    requires master != map[]
    requires After(Start(master, map[]), [Drop, Continue]) == Some(t)
    requires QuietRun(t, es) && After(t, es) == Some(u)
    ensures u.client.phase == Running && RunAll(u.client.queue, u.slave) == map[] != u.master
  {
    StartBook(master, map[]);
    ContinueDuringCopy(Start(master, map[]), t, es, u);
  }

  // ---------------------------------------------------------------- the copy ends

  function Rank(p: Phase): nat {
    match p
    case Syncing => 2
    case SyncFinishing => 1
    case _ => 0
  }

  /** How many keys are still to be pushed. */
  function Ahead(s: System): nat {
    if s.client.phase == Syncing then |Listing(s.master)| - PortionStart(Listing(s.master), Current(s.client)) else 0
  }

  function Work(s: System): nat {
    2 * |s.wire| + s.confirms
  }

  ghost predicate Smaller(s': System, s: System) {
    || Rank(s'.client.phase) < Rank(s.client.phase)
    || (s'.client.phase == s.client.phase
        && (Ahead(s') < Ahead(s) || (Ahead(s') == Ahead(s) && Work(s') < Work(s))))
  }

  /** The one situation that never ends: nothing but the empty key to copy. */
  ghost predicate OnlyEmptyKey(s: System) {
    s.client.phase == Syncing && Current(s.client) == [] && s.master.Keys == {[]}
  }

  lemma SingleKey(db: Db, k: Key)
    requires k in db && |Listing(db)| == 1
    ensures db.Keys == {k}
  {
    var ks := Listing(db);
    assert ks == [ks[0]];
    assert forall x :: x in db <==> x in ks;
    assert k in ks && ks[0] == k;
  }

  /** A portion that ends with the empty key is the whole of a store that has only the empty key. */
  lemma EndsEmpty(db: Db, from: Key)
    requires PortionKeys(db, from) != [] && PortionEnd(db, from) == []
    ensures from == [] && db.Keys == {[]}
  {
    PortionEndNotBelow(db, from);
    PortionSlice(db, from);
    var ks := Listing(db);
    var n := PortionLength(ks, from);
    assert from == [];
    if n > 1 {
      PositionOrder(ks, 0, n - 1);
    }
    assert |ks| == 1;
    SingleKey(db, []);
  }

  lemma StartAfterKey(ks: seq<Key>, j: nat)
    requires Increasing(ks) && j < |ks| && ks[j] != []
    ensures PortionStart(ks, ks[j]) == j + 1
  {
    SeekExact(ks, j);
  }

  lemma PortionAdvances(db: Db, from: Key)
    requires PortionKeys(db, from) != [] && PortionEnd(db, from) != []
    ensures var ks := Listing(db);
            PortionStart(ks, PortionEnd(db, from)) == PortionStart(ks, from) + |PortionKeys(db, from)|
  {
    PortionSlice(db, from);
    var ks := Listing(db);
    StartAfterKey(ks, PortionStart(ks, from) + PortionLength(ks, from) - 1);
  }

  /** Each step of slave or master brings the end of the copy nearer. */
  lemma QuietStepSmaller(s: System, e: Event)
    requires Book(s) && s.up && s.client.phase != Running && !OnlyEmptyKey(s)
    requires Enabled(s, e) && IsQuiet(e)
    ensures Step(s, e).Some? && Smaller(Step(s, e).value, s)
    ensures Step(s, e).value.up && !OnlyEmptyKey(Step(s, e).value)
  {
    StepBook(s, e);
    var s' := Step(s, e).value;
    if e.Confirm? && s.client.phase == Syncing {
      var f := Current(s.client);
      var f' := PortionEnd(s.master, f);
      assert Current(s'.client) == f';
      if PortionKeys(s.master, f) != [] {
        if f' == [] {
          EndsEmpty(s.master, f);
        }
        PortionAdvances(s.master, f);
      } else {
        assert Portion(s.master, f) == [];
      }
    }
  }

  lemma ConfirmSyncingShape(s: System)
    requires s.client.phase == Syncing && s.client.currentKeys != [] && Enabled(s, Confirm)
    ensures var f, o := Current(s.client), Step(s, Confirm);
            && o.Some? && o.value.master == s.master && o.value.slave == s.slave && o.value.client.queue
                == s.client.queue
            && o.value.wire == s.wire + [Set(Portion(s.master, f))] && o.value.copied == s.copied + Portion(s.master, f)
            && Current(o.value.client) == PortionEnd(s.master, f)
            && o.value.client.phase == if PortionKeys(s.master, f) == [] then SyncFinishing else Syncing
  {
    var f := Current(s.client);
    assert PortionKeys(s.master, f) == [] <==> Portion(s.master, f) == [];
  }

  /** An upper bound on the quiet steps a copy still takes. */
  function Budget(s: System): nat {
    Work(s) + (if s.client.phase == Syncing then 2 * Ahead(s) + 2 else 0)
  }

  lemma BudgetShrinks(s: System, e: Event)
    requires Book(s) && s.up && s.client.phase != Running && !OnlyEmptyKey(s)
    requires Enabled(s, e) && IsQuiet(e)
    ensures Step(s, e).Some?
    ensures Step(s, e).value.client.phase != Running ==> Budget(Step(s, e).value) < Budget(s)
  {
    QuietStepSmaller(s, e);
    if e.Confirm? && s.client.phase == Syncing {
      ConfirmSyncingShape(s);
    }
  }

  /** As long as the copy is under way someone can move. */
  lemma SomeoneCanMove(s: System)
    requires Book(s) && s.up && s.client.phase != Running
    ensures Enabled(s, Apply) || Enabled(s, Confirm)
    ensures Budget(s) > 0
  {
  }

  /**
   So every copy, however slave and master take turns, reaches the running phase: any quiet
   run of as many steps as the budget has done so.
   */
  lemma {:induction false} CopyEnds(s: System, es: seq<Event>, t: System)
    requires Book(s) && s.up && !OnlyEmptyKey(s)
    requires QuietRun(s, es) && After(s, es) == Some(t) && |es| >= Budget(s)
    ensures t.client.phase == Running
    decreases |es|
  {
    if s.client.phase == Running {
      RunningForGood(s, es);
    } else {
      SomeoneCanMove(s);
      var s1 := Step(s, es[0]).value;
      QuietStepSmaller(s, es[0]);
      BudgetShrinks(s, es[0]);
      StepBook(s, es[0]);
      if s1.client.phase == Running {
        RunningForGood(s1, es[1..]);
      } else {
        CopyEnds(s1, es[1..], t);
      }
    }
  }

  lemma RunningForGood(s: System, es: seq<Event>)
    requires Book(s) && s.up && s.client.phase == Running && QuietRun(s, es)
    ensures After(s, es).Some? && After(s, es).value.client.phase == Running
  {
    QuietKeepsEventual(s, es);
  }

  /** And such a run there is. */
  lemma {:induction false} CopyCanEnd(s: System) returns (es: seq<Event>, t: System)
    requires Book(s) && s.up && !OnlyEmptyKey(s)
    ensures QuietRun(s, es) && After(s, es) == Some(t) && t.client.phase == Running
    decreases Rank(s.client.phase), Ahead(s), Work(s)
  {
    if s.client.phase == Running {
      es, t := [], s;
    } else {
      var e := if s.wire != [] then Apply else Confirm;
      SomeoneCanMove(s);
      StepBook(s, e);
      QuietStepSmaller(s, e);
      var rest;
      rest, t := CopyCanEnd(Step(s, e).value);
      es := [e] + rest;
      assert es[1..] == rest;
    }
  }

  lemma EmptyKeyStep(s: System, e: Event)
    requires Book(s) && OnlyEmptyKey(s) && Enabled(s, e) && IsQuiet(e) && Step(s, e).Some?
    ensures OnlyEmptyKey(Step(s, e).value)
  {
    if e.Confirm? {
      var ks := Listing(s.master);
      PortionSlice(s.master, []);
      assert |ks| == 1 && ks[0] in s.master.Keys;
      assert PortionKeys(s.master, []) == [[]];
      assert Portion(s.master, []) != [];
    }
  }

  lemma EmptyKeyNeverEnds(s: System, es: seq<Event>)
    requires Book(s) && OnlyEmptyKey(s) && QuietRun(s, es)
    ensures After(s, es).Some? && OnlyEmptyKey(After(s, es).value)
  {
    forall x, e | Book(x) && OnlyEmptyKey(x) && Enabled(x, e) && IsQuiet(e) && Step(x, e).Some?
      ensures OnlyEmptyKey(Step(x, e).value)
    {
      EmptyKeyStep(x, e);
    }
    QuietRunKeeps(OnlyEmptyKey, s, es);
  }

  /**
   Exactly when a copy comes to an end: some quiet run reaches the running phase unless the
   store holds the empty key and nothing else and no other key has been sent.
   */
  lemma CopyEndsIff(s: System)
    requires Book(s) && s.up
    ensures (exists es :: QuietRun(s, es) && After(s, es).Some? && After(s, es).value.client.phase == Running)
            <==> !OnlyEmptyKey(s)
  {
    if OnlyEmptyKey(s) {
      forall es | QuietRun(s, es) && After(s, es).Some? ensures After(s, es).value.client.phase != Running {
        EmptyKeyNeverEnds(s, es);
      }
    } else {
      var es, t := CopyCanEnd(s);
      assert QuietRun(s, es) && After(s, es).Some? && After(s, es).value.client.phase == Running;
    }
  }
}
