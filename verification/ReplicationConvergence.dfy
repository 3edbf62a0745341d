/**
 When the slave's store becomes, and stays, the master's store.
 */
module ReplicationConvergence {
  import opened Bytes
  import opened Store
  import opened ReplicationClient
  import opened ReplicationSystem

  /**
   The store the slave will have once it has run everything sent or queued.  During the
   bulk copy that is the outstanding portions and then the queue; while running it is the
   whole queue, of which a part may have been run already.
   */
  function Eventual(s: System): Db {
    if s.client.phase == Running then RunAll(s.client.queue, s.slave)
    else RunAll(s.wire + s.client.queue, s.slave)
  }

  // ---------------------------------------------------------------- portions

  lemma SeekExact(ks: seq<Key>, p: nat)
    requires Increasing(ks) && p < |ks|
    ensures SeekPosition(ks, ks[p]) == p
  {
    var i := SeekPosition(ks, ks[p]);
    LessIrreflexive(ks[p]);
    SeekSeparates(ks, ks[p], p);
    if i < p {
      SeekSeparates(ks, ks[p], i);
      PositionOrder(ks, i, p);
      LessAsymmetric(ks[i], ks[p]);
    }
  }

  lemma StartsAfter(ks: seq<Key>, from: Key, m: nat)
    requires Increasing(ks) && from != [] && from in ks && m < |ks|
    ensures Less(from, ks[m]) <==> PortionStart(ks, from) <= m
  {
    var p :| 0 <= p < |ks| && ks[p] == from;
    SeekExact(ks, p);
    PositionOrder(ks, p, m);
  }

  lemma EndsAt(ks: seq<Key>, e: nat, m: nat)
    requires Increasing(ks) && e < |ks| && m < |ks|
    ensures AtMost(ks[m], ks[e]) <==> m <= e
  {
    PositionOrder(ks, m, e);
    if e < m {
      PositionOrder(ks, e, m);
      LessAsymmetric(ks[e], ks[m]);
    }
  }

  lemma NothingAfter(ks: seq<Key>, from: Key, m: nat)
    requires Increasing(ks) && (from == [] || from in ks) && m < |ks|
    requires PortionLength(ks, from) == 0
    ensures from != [] && AtMost(ks[m], from)
  {
    if from != [] {
      StartsAfter(ks, from, m);
      LessTotal(ks[m], from);
    }
  }

  /** A slice of an increasing listing, by key: everything after `from` up to the slice's last key. */
  lemma SliceRange(ks: seq<Key>, from: Key, m: nat)
    requires Increasing(ks) && (from == [] || from in ks) && m < |ks|
    requires PortionLength(ks, from) > 0
    ensures var i, n := PortionStart(ks, from), PortionLength(ks, from);
            i <= m < i + n <==> (from != [] ==> Less(from, ks[m])) && AtMost(ks[m], ks[i + n - 1])
  {
    EndsAt(ks, PortionStart(ks, from) + PortionLength(ks, from) - 1, m);
    if from != [] {
      StartsAfter(ks, from, m);
    }
  }

  lemma SliceMember(ks: seq<Key>, i: nat, n: nat, k: Key)
    requires i + n <= |ks|
    ensures k in ks[i..i + n] <==> exists m :: i <= m < i + n && ks[m] == k
  {
    if k in ks[i..i + n] {
      var j :| 0 <= j < n && ks[i..i + n][j] == k;
      assert ks[i + j] == k;
    }
    if m :| i <= m < i + n && ks[m] == k {
      assert ks[i..i + n][m - i] == k;
    }
  }

  lemma SliceKey(ks: seq<Key>, from: Key, k: Key)
    requires Increasing(ks) && (from == [] || from in ks)
    requires PortionLength(ks, from) > 0
    ensures var i, n := PortionStart(ks, from), PortionLength(ks, from);
            k in ks[i..i + n] <==> k in ks && (from != [] ==> Less(from, k)) && AtMost(k, ks[i + n - 1])
  {
    var i, n := PortionStart(ks, from), PortionLength(ks, from);
    SliceMember(ks, i, n, k);
    if k in ks[i..i + n] {
      var m :| i <= m < i + n && ks[m] == k;
      SliceRange(ks, from, m);
    } else if k in ks {
      var m :| 0 <= m < |ks| && ks[m] == k;
      SliceRange(ks, from, m);
    }
  }

  ghost predicate SliceOf(ks: seq<Key>, from: Key, r: seq<Key>, last: Key) {
    var i, n := PortionStart(ks, from), PortionLength(ks, from);
    n > 0 && r == ks[i..i + n] && last == ks[i + n - 1]
  }

  lemma NamedSlice(ks: seq<Key>, from: Key, k: Key, r: seq<Key>, last: Key)
    requires Increasing(ks) && (from == [] || from in ks) && SliceOf(ks, from, r, last)
    ensures k in r <==> k in ks && (from != [] ==> Less(from, k)) && AtMost(k, last)
  {
    SliceKey(ks, from, k);
  }

  lemma PortionSlice(db: Db, from: Key)
    ensures var ks := Listing(db);
            var i, n := PortionStart(ks, from), PortionLength(ks, from);
            && PortionKeys(db, from) == ks[i..i + n] && |PortionKeys(db, from)| == n
            && (n > 0 ==> SliceOf(ks, from, PortionKeys(db, from), PortionEnd(db, from)))
  {
  }

  lemma EmptyPortion(db: Db, from: Key, k: Key)
    requires (from == [] || from in db) && PortionKeys(db, from) == [] && k in db
    ensures from != [] && AtMost(k, from)
  {
    var ks := Listing(db);
    PortionSlice(db, from);
    var m :| 0 <= m < |ks| && ks[m] == k;
    NothingAfter(ks, from, m);
  }

  lemma FullPortion(db: Db, from: Key, k: Key)
    requires (from == [] || from in db) && PortionKeys(db, from) != []
    ensures k in PortionKeys(db, from) <==>
            k in db && (from != [] ==> Less(from, k)) && AtMost(k, PortionEnd(db, from))
  {
    PortionSlice(db, from);
    NamedSlice(Listing(db), from, k, PortionKeys(db, from), PortionEnd(db, from));
  }

  /** A portion holds exactly the keys after `from` up to its own last key. */
  lemma PortionRange(db: Db, from: Key, k: Key)
    requires from == [] || from in db
    ensures if PortionKeys(db, from) == [] then k in db ==> from != [] && AtMost(k, from)
            else k in PortionKeys(db, from) <==>
                 k in db && (from != [] ==> Less(from, k)) && AtMost(k, PortionEnd(db, from))
  {
    if PortionKeys(db, from) != [] {
      FullPortion(db, from, k);
    } else if k in db {
      EmptyPortion(db, from, k);
    }
  }

  lemma EntriesFirst(db: Db, ks: seq<Key>)
    requires ks != [] && forall k :: k in ks ==> k in db
    ensures EntriesAt(db, ks) == [(ks[0], db[ks[0]])] + EntriesAt(db, ks[1..])
  {
  }

  lemma EffectFirst(e: Entry, es: seq<Entry>)
    ensures EffectOfEntries([e] + es) == map[e.0 := Some(e.1)] + EffectOfEntries(es)
  {
    assert ([e] + es)[1..] == es;
  }

  /** What storing the entries of a listing does. */
  function Storing(db: Db, ks: seq<Key>): Effect
    requires forall k :: k in ks ==> k in db
  {
    map k | k in ks :: Some(db[k])
  }

  lemma StoringFirst(db: Db, ks: seq<Key>)
    requires ks != [] && forall k :: k in ks ==> k in db
    ensures map[ks[0] := Some(db[ks[0]])] + Storing(db, ks[1..]) == Storing(db, ks)
  {
    assert ks == [ks[0]] + ks[1..];
  }

  /** A portion has 1000 entries, or everything after `from`. */
  lemma PortionIsFull(db: Db, from: Key, k: Key)
    requires (from == [] || from in db) && |PortionKeys(db, from)| != 1000
    requires k in db && (from != [] ==> Less(from, k))
    ensures |PortionKeys(db, from)| < 1000 && k in PortionKeys(db, from)
  {
    var ks := Listing(db);
    var i, n := PortionStart(ks, from), PortionLength(ks, from);
    PortionSlice(db, from);
    var m :| 0 <= m < |ks| && ks[m] == k;
    if from != [] {
      StartsAfter(ks, from, m);
    }
    SliceMember(ks, i, n, k);
  }

  lemma {:induction false} EffectOfEntriesAt(db: Db, ks: seq<Key>)
    requires forall k :: k in ks ==> k in db
    ensures EffectOfEntries(EntriesAt(db, ks)) == Storing(db, ks)
    decreases |ks|
  {
    if ks != [] {
      EntriesFirst(db, ks);
      EffectFirst((ks[0], db[ks[0]]), EntriesAt(db, ks[1..]));
      EffectOfEntriesAt(db, ks[1..]);
      StoringFirst(db, ks);
    }
  }

  lemma PortionLookup(e: Db, db: Db, from: Key, k: Key)
    ensures Lookup(Run(Set(Portion(db, from)), e), k)
         == if k in PortionKeys(db, from) then Some(db[k]) else Lookup(e, k)
  {
    RunIsOverlay(Set(Portion(db, from)), e);
    EffectOfEntriesAt(db, PortionKeys(db, from));
  }

  /**
   `e` agrees with `db` on every key up to `f` and has nothing beyond.  Before the first
   non-empty key has been sent, `e` may hold only the empty key, and only if `db` does.
   */
  ghost predicate Covers(e: Db, db: Db, f: Key) {
    if f == [] then e.Keys <= {[]} && e.Keys <= db.Keys
    else f in db && forall k :: Lookup(e, k) == if AtMost(k, f) then Lookup(db, k) else None
  }

  lemma CoverEnd(e: Db, db: Db, f: Key)
    requires Covers(e, db, f) && PortionKeys(db, f) == []
    ensures e == db
  {
    forall k ensures Lookup(e, k) == Lookup(db, k) {
      PortionRange(db, f, k);
    }
    SameLookups(e, db);
  }

  lemma CoverKey(e: Db, db: Db, f: Key, k: Key)
    requires Covers(e, db, f) && PortionKeys(db, f) != [] && PortionEnd(db, f) != []
    ensures Lookup(Run(Set(Portion(db, f)), e), k)
         == if AtMost(k, PortionEnd(db, f)) then Lookup(db, k) else None
  {
    var f' := PortionEnd(db, f);
    PortionLookup(e, db, f, k);
    PortionRange(db, f, k);
    PortionEndNotBelow(db, f);
    if k !in PortionKeys(db, f) && f != [] {
      LessTotal(k, f);
      if AtMost(k, f) && k != f && f != f' {
        LessTransitive(k, f, f');
      }
      if Less(f, k) {
        LessAsymmetric(f, k);
      }
    }
  }

  /** Sending the next portion extends the covered range to that portion's last key. */
  lemma CoverStep(e: Db, db: Db, f: Key)
    requires Covers(e, db, f) && PortionKeys(db, f) != []
    ensures Covers(Run(Set(Portion(db, f)), e), db, PortionEnd(db, f))
  {
    var e', f', r := Run(Set(Portion(db, f)), e), PortionEnd(db, f), PortionKeys(db, f);
    assert f' in r;
    if f' == [] {
      PortionEndNotBelow(db, f);
      forall k | k in e' ensures k == [] && k in db {
        PortionLookup(e, db, f, k);
        PortionRange(db, f, k);
        assert k in r ==> AtMost(k, []);
      }
    } else {
      forall k ensures Lookup(e', k) == if AtMost(k, f') then Lookup(db, k) else None {
        CoverKey(e, db, f, k);
      }
    }
  }

  // ---------------------------------------------------------------- forwarded writes

  ghost predicate KeysBelowOnly(e: Effect, f: Key) {
    forall k :: k in e ==> Less(k, f)
  }

  /** The part of an effect on the keys below a key. */
  function Under(e: Effect, f: Key): Effect {
    map k | k in e && Less(k, f) :: e[k]
  }

  lemma UnderMerge(a: Effect, b: Effect, f: Key)
    ensures Under(a + b, f) == Under(a, f) + Under(b, f)
  {
  }

  lemma {:induction false} EntriesBelowEffect(entries: seq<Entry>, f: Key)
    ensures EffectOfEntries(EntriesBelow(entries, f)) == Under(EffectOfEntries(entries), f)
    decreases |entries|
  {
    if entries != [] {
      var (k, v) := entries[0];
      var first: Effect := map[k := Some(v)];
      EntriesBelowEffect(entries[1..], f);
      UnderMerge(first, EffectOfEntries(entries[1..]), f);
      var tail := EntriesBelow(entries[1..], f);
      if Less(k, f) {
        assert ([entries[0]] + tail)[1..] == tail;
        assert Under(first, f) == first;
      } else {
        assert [] + tail == tail;
        assert Under(first, f) == map[];
      }
    }
  }

  lemma {:induction false} KeysBelowMembers(keys: seq<Key>, f: Key, k: Key)
    ensures k in KeysBelow(keys, f) <==> k in keys && Less(k, f)
    decreases |keys|
  {
    if keys != [] {
      KeysBelowMembers(keys[1..], f, k);
      assert k in keys <==> k == keys[0] || k in keys[1..] by {
        assert keys == [keys[0]] + keys[1..];
      }
    }
  }

  /** The forwarded part of a command has the command's effect on the keys below the frontier, and no other. */
  lemma BelowEffect(cmd: Command, f: Key)
    ensures EffectOf(Below(cmd, f)) == map k | k in EffectOf(cmd) && Less(k, f) :: EffectOf(cmd)[k]
  {
    match cmd
    case Set(entries) => EntriesBelowEffect(entries, f);
    case Del(keys) =>
      forall k ensures k in KeysBelow(keys, f) <==> k in keys && Less(k, f) {
        KeysBelowMembers(keys, f, k);
      }
  }

  lemma EmptyEffect(cmd: Command)
    requires IsEmpty(cmd)
    ensures EffectOf(cmd) == map[]
  {
  }

  lemma AppendEffect(q: seq<Command>, cmd: Command)
    ensures EffectOfAll(q + [cmd]) == EffectOfAll(q) + EffectOf(cmd)
  {
    EffectConcat(q, [cmd]);
    EffectOfOne(cmd);
  }

  lemma EffectOfOne(cmd: Command)
    ensures EffectOfAll([cmd]) == EffectOf(cmd)
  {
    assert [cmd][1..] == [];
    assert EffectOf(cmd) + map[] == EffectOf(cmd);
  }

  lemma ForwardSyncing(c: ClientState, cmd: Command)
    requires c.phase == Syncing
    ensures EffectOfAll(Forward(c, cmd).queue) == EffectOfAll(c.queue) + EffectOf(Below(cmd, Current(c)))
  {
    var f := Current(c);
    BelowEffect(cmd, f);
    if IsEmpty(cmd) {
      EmptyEffect(cmd);
      assert EffectOf(Below(cmd, f)) == map[];
    } else if IsEmpty(Below(cmd, f)) {
      EmptyEffect(Below(cmd, f));
    } else {
      AppendEffect(c.queue, Below(cmd, f));
    }
  }

  // ---------------------------------------------------------------- the invariant

  /**
   Convergent: running everything sent or queued gives the slave the master's store, or,
   while the bulk copy is under way, the part of it up to the frontier.
   */
  ghost predicate Convergent(s: System) {
    match s.client.phase
    case Syncing => s.up
      && Covers(Eventual(s), s.master, Current(s.client))
      && KeysBelowOnly(EffectOfAll(s.client.queue), Current(s.client))
    case SyncFinishing => s.up && Eventual(s) == s.master
    case _ => Eventual(s) == s.master
  }

  /**
   A write loses nothing: while syncing it must leave the frontier key as it is (or, before
   the first non-empty key has been sent, not remove an empty key already sent); once the
   copy is finishing it must not change the store at all.
   */
  ghost predicate SafeWrite(s: System, cmd: Command) {
    var db' := Run(cmd, s.master);
    match s.client.phase
    case Syncing =>
      var f := Current(s.client);
      if f == [] then [] in Eventual(s) ==> [] in db' else Lookup(db', f) == Lookup(s.master, f)
    case SyncFinishing => db' == s.master
    case _ => true
  }

  ghost predicate Safe(s: System, e: Event) {
    match e
    case Write(cmd) => SafeWrite(s, cmd)
    case Drop => s.client.phase == Running
    case _ => true
  }

  lemma EventualLookupSync(s: System, k: Key)
    requires s.client.phase != Running
    ensures Lookup(Eventual(s), k)
         == if k in EffectOfAll(s.client.queue) then EffectOfAll(s.client.queue)[k]
            else if k in EffectOfAll(s.wire) then EffectOfAll(s.wire)[k]
            else Lookup(s.slave, k)
  {
    EffectConcat(s.wire, s.client.queue);
    RunAllIsOverlay(s.wire + s.client.queue, s.slave);
  }

  lemma MasterLookup(s: System, cmd: Command, k: Key)
    ensures Lookup(Run(cmd, s.master), k)
         == if k in EffectOf(cmd) then EffectOf(cmd)[k] else Lookup(s.master, k)
  {
    RunIsOverlay(cmd, s.master);
  }

  /** What a write does, during the copy, to what the slave will have. */
  lemma WriteSyncingEventual(s: System, cmd: Command, k: Key)
    requires s.client.phase == Syncing
    ensures Lookup(Eventual(Step(s, Write(cmd)).value), k)
         == if k in EffectOf(cmd) && Less(k, Current(s.client)) then EffectOf(cmd)[k] else Lookup(Eventual(s), k)
  {
    ForwardSyncing(s.client, cmd);
    BelowEffect(cmd, Current(s.client));
    EventualLookupSync(s, k);
    EventualLookupSync(Step(s, Write(cmd)).value, k);
  }

  lemma WriteKeepsQueueBelow(s: System, cmd: Command)
    requires s.client.phase == Syncing && KeysBelowOnly(EffectOfAll(s.client.queue), Current(s.client))
    ensures var c := Step(s, Write(cmd)).value.client;
            c.phase == Syncing && Current(c) == Current(s.client) && KeysBelowOnly(EffectOfAll(c.queue), Current(c))
  {
    ForwardSyncing(s.client, cmd);
    BelowEffect(cmd, Current(s.client));
  }

  /** Before a non-empty key has been sent nothing is forwarded. */
  lemma WriteAtStart(s: System, cmd: Command)
    requires s.client.phase == Syncing && Current(s.client) == [] && Covers(Eventual(s), s.master, [])
    ensures Covers(Eventual(Step(s, Write(cmd)).value), Run(cmd, s.master), []) <==> SafeWrite(s, cmd)
  {
    var s' := Step(s, Write(cmd)).value;
    forall k ensures Lookup(Eventual(s'), k) == Lookup(Eventual(s), k) {
      WriteSyncingEventual(s, cmd, k);
    }
    SameLookups(Eventual(s'), Eventual(s));
    assert Eventual(s).Keys <= s'.master.Keys <==> ([] in Eventual(s) ==> [] in s'.master);
  }

  lemma SafeWriteCovers(s: System, cmd: Command, f: Key)
    requires s.client.phase == Syncing && f == Current(s.client) != [] && Covers(Eventual(s), s.master, f)
    requires SafeWrite(s, cmd)
    ensures Covers(Eventual(Step(s, Write(cmd)).value), Run(cmd, s.master), f)
  {
    var e' := Eventual(Step(s, Write(cmd)).value);
    LessIrreflexive(f);
    forall k ensures Lookup(e', k) == if AtMost(k, f) then Lookup(Run(cmd, s.master), k) else None {
      WriteSyncingEventual(s, cmd, k);
      MasterLookup(s, cmd, k);
    }
    assert Lookup(s.master, f).Some?;
  }

  lemma CoveringWriteIsSafe(s: System, cmd: Command, f: Key)
    requires s.client.phase == Syncing && f == Current(s.client) != [] && Covers(Eventual(s), s.master, f)
    requires Covers(Eventual(Step(s, Write(cmd)).value), Run(cmd, s.master), f)
    ensures SafeWrite(s, cmd)
  {
    WriteSyncingEventual(s, cmd, f);
    LessIrreflexive(f);
  }

  /** While syncing, a write keeps the invariant exactly when it is safe. */
  lemma WriteSyncing(s: System, cmd: Command)
    requires s.client.phase == Syncing && Convergent(s)
    ensures Convergent(Step(s, Write(cmd)).value) <==> SafeWrite(s, cmd)
  {
    var f := Current(s.client);
    WriteKeepsQueueBelow(s, cmd);
    if f == [] {
      WriteAtStart(s, cmd);
    } else if SafeWrite(s, cmd) {
      SafeWriteCovers(s, cmd, f);
    } else if Convergent(Step(s, Write(cmd)).value) {
      CoveringWriteIsSafe(s, cmd, f);
    }
  }

  /** In particular a write that leaves out the frontier key is safe. */
  lemma WriteElsewhereIsSafe(s: System, cmd: Command)
    requires s.client.phase == Syncing && Convergent(s) && Current(s.client) !in EffectOf(cmd)
    ensures SafeWrite(s, cmd)
  {
    MasterLookup(s, cmd, Current(s.client));
    assert Current(s.client) == [] && [] in Eventual(s) ==> Lookup(s.master, []).Some?;
  }

  lemma WriteFinishing(s: System, cmd: Command)
    requires s.client.phase == SyncFinishing && Convergent(s)
    ensures Convergent(Step(s, Write(cmd)).value) <==> SafeWrite(s, cmd)
  {
  }

  lemma WriteRunning(s: System, cmd: Command)
    requires s.client.phase == Running
    ensures Eventual(Step(s, Write(cmd)).value) == Run(cmd, Eventual(s))
  {
    var q := s.client.queue;
    if IsEmpty(cmd) {
      EmptyEffect(cmd);
      RunIsOverlay(cmd, Eventual(s));
      SameLookups(Run(cmd, Eventual(s)), Eventual(s));
    } else {
      RunAllConcat(q, [cmd], s.slave);
      assert RunAll([cmd], RunAll(q, s.slave)) == Run(cmd, RunAll(q, s.slave));
    }
  }

  /**
   A write keeps the slave on course if and only if it is safe, in every phase.
   */
  lemma WriteKeepsConvergentIffSafe(s: System, cmd: Command)
    requires Book(s) && Convergent(s)
    ensures Convergent(Step(s, Write(cmd)).value) <==> SafeWrite(s, cmd)
  {
    match s.client.phase
    case Syncing => WriteSyncing(s, cmd);
    case SyncFinishing => WriteFinishing(s, cmd);
    case Running => WriteRunning(s, cmd);
  }

  // ---------------------------------------------------------------- the other steps

  /** What the slave has run already can be run again from any confirmed point on. */
  lemma QueueSuffices(slave: Db, q: seq<Command>, n: nat)
    requires n <= |q| && Shows(slave, EffectOfAll(q[..n]))
    ensures RunAll(q[n..], slave) == RunAll(q, slave)
  {
    assert q == q[..n] + q[n..];
    RunAllConcat(q[..n], q[n..], slave);
    ShowsIsFixpoint(slave, q[..n]);
  }

  lemma ApplyQueue(slave: Db, q: seq<Command>, n: nat)
    requires n < |q| && Shows(slave, EffectOfAll(q[..n]))
    ensures RunAll(q, Run(q[n], slave)) == RunAll(q, slave)
  {
    QueueSuffices(slave, q, n);
    ApplyShows(slave, q, n);
    QueueSuffices(Run(q[n], slave), q, n + 1);
    assert q[n..] == [q[n]] + q[n + 1..];
  }

  lemma ApplyPortion(wire: seq<Command>, q: seq<Command>, slave: Db)
    requires wire != []
    ensures RunAll(wire[1..] + q, Run(wire[0], slave)) == RunAll(wire + q, slave)
  {
    assert (wire + q)[1..] == wire[1..] + q;
  }

  lemma ApplyEventual(s: System)
    requires Book(s) && Enabled(s, Apply)
    ensures Eventual(Step(s, Apply).value) == Eventual(s)
  {
    if s.client.phase == Running {
      assert s.wire[0] == s.client.queue[s.confirms];
      ApplyQueue(s.slave, s.client.queue, s.confirms);
    } else {
      ApplyPortion(s.wire, s.client.queue, s.slave);
    }
  }

  lemma ConfirmRunningEventual(s: System)
    requires Book(s) && Enabled(s, Confirm) && s.client.phase == Running && Step(s, Confirm).Some?
    ensures Eventual(Step(s, Confirm).value) == Eventual(s)
  {
    var q, n := s.client.queue, s.confirms;
    QueueSuffices(s.slave, q, n);
    ConfirmShows(s.slave, q, n);
    QueueSuffices(s.slave, q[1..], n - 1);
    assert q[1..][n - 1..] == q[n..];
  }

  /** A portion sent ahead of the queue acts as if sent after it, the two touching different keys. */
  lemma ConfirmSyncingEventual(s: System)
    requires s.client.phase == Syncing && s.client.currentKeys != []
    requires KeysBelowOnly(EffectOfAll(s.client.queue), Current(s.client))
    requires Enabled(s, Confirm) && Step(s, Confirm).Some?
    ensures Eventual(Step(s, Confirm).value) == Run(Set(Portion(s.master, Current(s.client))), Eventual(s))
  {
    var s' := Step(s, Confirm).value;
    var f := Current(s.client);
    var p := Set(Portion(s.master, f));
    AppendEffect(s.wire, p);
    EffectOfEntriesAt(s.master, PortionKeys(s.master, f));
    PortionEndNotBelow(s.master, f);
    forall k ensures Lookup(Eventual(s'), k) == Lookup(Run(p, Eventual(s)), k) {
      EventualLookupSync(s, k);
      EventualLookupSync(s', k);
      PortionLookup(Eventual(s), s.master, f, k);
      if k in EffectOfAll(s.client.queue) && k in PortionKeys(s.master, f) {
        LessAsymmetric(k, f);
      }
    }
    SameLookups(Eventual(s'), Run(p, Eventual(s)));
  }

  lemma ConfirmSyncing(s: System)
    requires Book(s) && Convergent(s) && s.client.phase == Syncing
    requires Enabled(s, Confirm) && Step(s, Confirm).Some?
    ensures Convergent(Step(s, Confirm).value)
  {
    var s', f := Step(s, Confirm).value, Current(s.client);
    ConfirmSyncingEventual(s);
    PortionEndNotBelow(s.master, f);
    if PortionKeys(s.master, f) == [] {
      CoverEnd(Eventual(s), s.master, f);
      assert Portion(s.master, f) == [];
    } else {
      CoverStep(Eventual(s), s.master, f);
      var f' := PortionEnd(s.master, f);
      assert Current(s'.client) == f';
      forall k | k in EffectOfAll(s.client.queue) ensures Less(k, f') {
        if f != f' { LessTransitive(k, f, f'); }
      }
    }
  }

  lemma FinishingEventual(s: System, c: ClientState, sent: seq<Command>)
    requires s.client.phase == SyncFinishing && c.queue == s.client.queue
    requires (c.phase == SyncFinishing && sent == []) || (c.phase == Running && s.wire == [])
    ensures Eventual(s.(client := c, wire := s.wire + sent)) == Eventual(s)
  {
    assert s.wire + [] == s.wire && [] + s.client.queue == s.client.queue;
  }

  lemma ConfirmFinishingEventual(s: System)
    requires Book(s) && Enabled(s, Confirm) && s.client.phase == SyncFinishing && Step(s, Confirm).Some?
    ensures Eventual(Step(s, Confirm).value) == Eventual(s)
  {
    var o := OnConfirm(s.client, s.master);
    FinishingEventual(s, o.client, o.sent);
  }

  /** Filling the window changes nothing in the end. */
  lemma PushEventual(s: System)
    requires s.client.phase == Running && Carry(s, PushQueue(s.client)).Some?
    ensures var s' := Carry(s, PushQueue(s.client)).value;
            s'.client.phase == Running && s'.master == s.master && Eventual(s') == Eventual(s)
  {
  }

  lemma PollEventual(s: System, e: Event)
    requires Book(s) && Enabled(s, e) && (e.Poll? || e.StalePoll?) && Step(s, e).Some?
    ensures s.client.phase == Running
    ensures var s' := Step(s, e).value;
            s'.client.phase == Running && s'.master == s.master && Eventual(s') == Eventual(s)
  {
    if e.Poll? {
      PushEventual(s.(polls := s.polls - 1));
    } else if e.reused && s.up {
      PushEventual(s.(stale := s.stale - 1));
    }
  }

  lemma ContinueConverges(s: System)
    requires Book(s) && Convergent(s) && Enabled(s, Continue) && Step(s, Continue).Some?
    ensures Convergent(Step(s, Continue).value)
  {
    assert s.client.phase == Running;
  }

  /** Every safe step keeps the slave on course. */
  lemma StepConverges(s: System, e: Event)
    requires Book(s) && Convergent(s) && Enabled(s, e) && Safe(s, e)
    ensures Step(s, e).Some? && Convergent(Step(s, e).value)
  {
    StepBook(s, e);
    match e
    case Write(cmd) => WriteKeepsConvergentIffSafe(s, cmd);
    case Apply => ApplyEventual(s);
    case Confirm =>
      match s.client.phase {
        case Syncing => ConfirmSyncing(s);
        case SyncFinishing => ConfirmFinishingEventual(s);
        case Running => ConfirmRunningEventual(s);
      }
    case Poll => PollEventual(s, e);
    case StalePoll(_) => PollEventual(s, e);
    case Drop =>
    case Continue => ContinueConverges(s);
  }

  // ---------------------------------------------------------------- whole runs

  ghost predicate SafeRun(s: System, es: seq<Event>) {
    RunOf(Safe, s, es)
  }

  ghost predicate OnCourse(s: System) {
    Book(s) && Convergent(s)
  }

  lemma OnCourseKept()
    ensures Kept(OnCourse, Safe)
  {
    forall s, e | OnCourse(s) && Enabled(s, e) && Safe(s, e) ensures Step(s, e).Some? && OnCourse(Step(s, e).value) {
      StepBook(s, e);
      StepConverges(s, e);
    }
  }

  lemma RunConverges(s: System, es: seq<Event>)
    requires OnCourse(s) && SafeRun(s, es)
    ensures After(s, es).Some? && OnCourse(After(s, es).value)
  {
    OnCourseKept();
    RunKeeps(OnCourse, Safe, s, es);
  }

  lemma CoverNext(e: Db, db: Db, from: Key)
    requires Covers(e, db, from)
    ensures Covers(Run(Set(Portion(db, from)), e), db, PortionEnd(db, from))
  {
    if PortionKeys(db, from) != [] {
      CoverStep(e, db, from);
    } else {
      assert Portion(db, from) == [];
    }
  }

  /** What one portion keeps of the slave's store and the frontier, all portions keep. */
  lemma {:induction false} PortionsKeep(P: (Db, Key) -> bool, e: Db, c: ClientState, db: Db, from: Key, n: nat,
                                        c1: ClientState, sent: seq<Command>)
    requires forall x, f :: P(x, f) ==> P(Run(Set(Portion(db, f)), x), PortionEnd(db, f))
    requires PushPortions(c, db, from, n) == (c1, sent)
    requires P(e, from) && Current(c) == from
    ensures P(RunAll(sent, e), Current(c1))
    decreases n
  {
    if n > 0 {
      FirstOfPortions(c, db, from, n, c1, sent);
      CurrentPushed(c, db, from);
      PortionsKeep(P, Run(sent[0], e), PushPortion(c, db, from), db, PortionEnd(db, from), n - 1, c1, sent[1..]);
    }
  }

  lemma CurrentPushed(c: ClientState, db: Db, from: Key)
    ensures Current(PushPortion(c, db, from)) == PortionEnd(db, from)
  {
  }

  lemma FirstOfPortions(c: ClientState, db: Db, from: Key, n: nat, c1: ClientState, sent: seq<Command>)
    requires n > 0 && PushPortions(c, db, from, n) == (c1, sent)
    ensures sent != [] && sent[0] == Set(Portion(db, from))
    ensures PushPortions(PushPortion(c, db, from), db, PortionEnd(db, from), n - 1) == (c1, sent[1..])
  {
  }

  lemma FirstPortionsCover(master: Db, n: nat, c1: ClientState, sent: seq<Command>)
    requires PushPortions(FRESH, master, [], n) == (c1, sent)
    ensures Covers(RunAll(sent, map[]), master, Current(c1))
  {
    var P := (x, f) => Covers(x, master, f);
    forall x, f | P(x, f) ensures P(Run(Set(Portion(master, f)), x), PortionEnd(master, f)) {
      CoverNext(x, master, f);
    }
    PortionsKeep(P, map[], FRESH, master, [], n, c1, sent);
  }

  lemma StartShape(master: Db, slave: Db, c1: ClientState, sent: seq<Command>)
    requires PushPortions(FRESH, master, [], PIPELINE_SIZE) == (c1, sent)
    ensures Start(master, slave).client == c1.(phase := Syncing) && Start(master, slave).wire == sent
  {
  }

  /** A fresh copy onto an empty slave starts on course. */
  lemma StartConverges(master: Db)
    ensures Book(Start(master, map[])) && Convergent(Start(master, map[]))
  {
    StartBook(master, map[]);
    var (c1, sent) := PushPortions(FRESH, master, [], PIPELINE_SIZE);
    StartShape(master, map[], c1, sent);
    FirstPortionsCover(master, PIPELINE_SIZE, c1, sent);
    CoveringConverges(Start(master, map[]), sent);
  }

  lemma CoveringConverges(s: System, sent: seq<Command>)
    requires s.up && s.client.phase == Syncing && s.client.queue == [] && s.wire == sent && s.slave == map[]
    requires Covers(RunAll(sent, map[]), s.master, Current(s.client))
    ensures Convergent(s)
  {
    assert s.wire + s.client.queue == s.wire;
  }

  /**
   Convergence: from "start" on an empty slave, over every run whose writes are safe and
   whose connection is not lost before the copy is done, whenever the client record is
   running the requests still on the wire followed by the unsent part of the queue turn
   the slave's store into the master's; with the queue empty the two stores are equal.
   */
  lemma Convergence(master: Db, es: seq<Event>, s: System)
    requires SafeRun(Start(master, map[]), es) && After(Start(master, map[]), es) == Some(s)
    requires s.client.phase == Running
    ensures s.up ==> 0 <= s.client.pipelined <= |s.client.queue|
    ensures s.up ==> RunAll(s.wire + s.client.queue[s.client.pipelined..], s.slave) == s.master
    ensures RunAll(s.client.queue, s.slave) == s.master
    ensures s.client.queue == [] ==> s.slave == s.master
  {
    StartConverges(master);
    RunConverges(Start(master, map[]), es);
    RunningMeaning(s);
  }

  lemma RunningMeaning(s: System)
    requires Book(s) && s.client.phase == Running
    ensures s.up ==> 0 <= s.client.pipelined <= |s.client.queue|
    ensures s.up ==> RunAll(s.wire + s.client.queue[s.client.pipelined..], s.slave) == Eventual(s)
  {
    if s.up {
      var q := s.client.queue;
      QueueSuffices(s.slave, q, s.confirms);
      assert q[s.confirms..] == s.wire + q[s.client.pipelined..];
    }
  }

  /**
   Running convergence across reconnections: from any running state whose slave is on
   course, over every possible run of writes, slave steps, confirmations, polls,
   connection losses and "continue" reconnections, the slave stays on course.
   */
  lemma RunningConvergence(s: System, es: seq<Event>)
    requires Book(s) && s.client.phase == Running && Eventual(s) == s.master && Possible(s, es)
    ensures After(s, es).Some?
    ensures var t := After(s, es).value;
            t.client.phase == Running && Book(t) && RunAll(t.client.queue, t.slave) == t.master
  {
    RunningKept();
    RunKeeps(RunningOnCourse, Anything, s, es);
  }

  ghost predicate RunningOnCourse(s: System) {
    Book(s) && s.client.phase == Running && Eventual(s) == s.master
  }

  lemma RunningStays(s: System, e: Event)
    requires Book(s) && s.client.phase == Running && Enabled(s, e) && Step(s, e).Some?
    ensures Step(s, e).value.client.phase == Running
  {
  }

  lemma RunningKept()
    ensures Kept(RunningOnCourse, Anything)
  {
    forall s, e | RunningOnCourse(s) && Enabled(s, e) ensures Step(s, e).Some? && RunningOnCourse(Step(s, e).value) {
      StepBook(s, e);
      StepConverges(s, e);
      RunningStays(s, e);
    }
  }
}
