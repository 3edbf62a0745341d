/**
 Master, client record, wire and slave as one transition system, and what its
 bookkeeping keeps in every run.

 A write on the master, together with the forwarding to the client record, is one step.
 A dropped connection loses every request and every confirmation on its way.
 */
module ReplicationSystem {
  import opened Bytes
  import opened Sequences
  import opened Store
  import opened ReplicationClient

  /**
   `wire` holds requests the slave has not run yet and `confirms` counts requests it has
   run whose confirmations the master has not seen.  `polls` counts the sleeping looks at
   the queue scheduled on this connection, `stale` those scheduled on earlier ones: such a
   look finds its connection closed and does nothing, unless the connection object has been
   taken for the slave's new connection.  `copied` is a history variable: the entries of all
   portions pushed so far.
   */
  datatype System = System(
    master: Db, client: ClientState, up: bool,
    wire: seq<Command>, confirms: nat, polls: nat, stale: nat,
    slave: Db, copied: seq<Entry>)

  datatype Event =
    | Write(cmd: Command)        // a client changes the master's store
    | Apply                      // the slave runs the next request and confirms it
    | Confirm                    // a confirmation reaches the master
    | Poll                       // a look at the queue scheduled on this connection fires
    | StalePoll(reused: bool)    // one scheduled on an earlier connection does
    | Drop                       // the connection dies
    | Continue                   // the slave reconnects and asks to continue

  /** A slave asks to be filled from scratch: `add_client` with "start". */
  function Start(master: Db, slave: Db): System {
    var o := SyncInitial(FRESH, master);
    System(master, o.client, true, o.sent, 0, 0, 0, slave, Gathered(o.sent))
  }

  /** The entries of the portions among the given requests, in order. */
  function Gathered(cmds: seq<Command>): seq<Entry>
    decreases |cmds|
  {
    if cmds == [] then []
    else (match cmds[0] case Set(entries) => entries case Del(_) => []) + Gathered(cmds[1..])
  }

  predicate Enabled(s: System, e: Event) {
    match e
    case Write(_) => true
    case Apply => s.up && s.wire != []
    case Confirm => s.up && s.confirms > 0
    case Poll => s.up && s.polls > 0
    case StalePoll(_) => s.stale > 0
    case Drop => s.up
    case Continue => !s.up
  }

  /** What the client record does, carried over to the system; None when it throws. */
  function Carry(s: System, o: Outcome): Option<System> {
    match o
    case Thrown => None
    case Done(c, sent, polls) => Some(s.(client := c, wire := s.wire + sent, polls := s.polls + polls))
  }

  function Step(s: System, e: Event): Option<System>
    requires Enabled(s, e)
  {
    match e
    case Write(cmd) => Some(s.(master := Run(cmd, s.master), client := Forward(s.client, cmd)))
    case Apply => Some(s.(slave := Run(s.wire[0], s.slave), wire := s.wire[1..], confirms := s.confirms + 1))
    case Confirm =>
      var o := OnConfirm(s.client, s.master);
      var more := if s.client.phase == Syncing then Portion(s.master, Current(s.client)) else [];
      var s1 := s.(confirms := s.confirms - 1, copied := s.copied + more);
      Carry(s1, o)
    case Poll => Carry(s.(polls := s.polls - 1), PushQueue(s.client))
    case StalePoll(reused) =>
      var s1 := s.(stale := s.stale - 1);
      if reused && s.up then Carry(s1, PushQueue(s.client)) else Some(s1)
    case Drop => Some(s.(up := false, wire := [], confirms := 0, polls := 0, stale := s.stale + s.polls))
    case Continue => Carry(s.(up := true), SyncQueue(s.client))
  }

  // ---------------------------------------------------------------- bookkeeping

  ghost predicate NonDecreasing(ks: seq<Key>) {
    forall i :: 0 < i < |ks| ==> AtMost(ks[i - 1], ks[i])
  }

  /** While the bulk copy is under way every remembered key stands for one outstanding portion. */
  ghost predicate SyncBook(s: System) {
    && s.polls == 0 && s.stale == 0
    && NonDecreasing(s.client.currentKeys)
    && (if s.up then
          && |s.client.currentKeys| == |s.wire| + s.confirms
          && 0 < |s.client.currentKeys| <= PIPELINE_SIZE
          && (s.client.phase == Syncing ==> |s.client.currentKeys| == PIPELINE_SIZE)
        else s.wire == [] && s.confirms == 0)
  }

  /**
   While running, the requests not yet run are the sent part of the queue behind the
   entries already run, the slave shows those entries, and a confirmation is awaited or a
   look at the queue scheduled on this very connection.
   */
  ghost predicate RunBook(s: System) {
    var c := s.client;
    && 0 <= c.pipelined <= PIPELINE_SIZE && c.pipelined <= |c.queue|
    && (if s.up then
          && c.pipelined == |s.wire| + s.confirms
          && s.wire == c.queue[s.confirms..c.pipelined]
          && (s.polls > 0 || c.pipelined > 0)
          && Shows(s.slave, EffectOfAll(c.queue[..s.confirms]))
        else s.wire == [] && s.confirms == 0 && s.polls == 0)
  }

  ghost predicate Book(s: System) {
    match s.client.phase
    case NotReady => false
    case Running => RunBook(s)
    case _ => SyncBook(s)
  }

  lemma AboveSeek(ks: seq<Key>, from: Key, j: nat)
    requires Increasing(ks) && from != [] && PortionStart(ks, from) <= j < |ks|
    ensures Less(from, ks[j])
  {
    var p := SeekPosition(ks, from);
    SeekSeparates(ks, from, p);
    PositionOrder(ks, p, j);
    if from != ks[p] {
      LessTransitive(from, ks[p], ks[j]);
    }
  }

  lemma SliceAbove(ks: seq<Key>, from: Key, n: nat, j: nat)
    requires Increasing(ks) && from != [] && PortionStart(ks, from) + n <= |ks| && j < n
    ensures Less(from, ks[PortionStart(ks, from)..PortionStart(ks, from) + n][j])
  {
    AboveSeek(ks, from, PortionStart(ks, from) + j);
  }

  lemma PortionKeyAbove(db: Db, from: Key, j: nat)
    requires from != [] && j < |PortionKeys(db, from)|
    ensures Less(from, PortionKeys(db, from)[j])
  {
    SliceAbove(Listing(db), from, PortionLength(Listing(db), from), j);
  }

  lemma PortionEndNotBelow(db: Db, from: Key)
    ensures AtMost(from, PortionEnd(db, from))
    ensures from != [] ==> forall k :: k in PortionKeys(db, from) ==> Less(from, k)
  {
    var r := PortionKeys(db, from);
    if from != [] {
      forall j | 0 <= j < |r| ensures Less(from, r[j]) {
        PortionKeyAbove(db, from, j);
      }
    }
  }

  lemma {:induction false} PortionsBook(c: ClientState, db: Db, from: Key, n: nat)
    requires NonDecreasing(c.currentKeys) && Current(c) == from
    ensures var (c1, sent) := PushPortions(c, db, from, n);
            && NonDecreasing(c1.currentKeys)
            && |sent| == n && |c1.currentKeys| == |c.currentKeys| + n
            && c1.queue == c.queue && c1.pipelined == c.pipelined
    decreases n
  {
    if n > 0 {
      PortionEndNotBelow(db, from);
      PortionsBook(PushPortion(c, db, from), db, PortionEnd(db, from), n - 1);
    }
  }

  lemma StartBook(master: Db, slave: Db)
    ensures Book(Start(master, slave)) && Start(master, slave).client.phase == Syncing
    ensures Start(master, slave).client.queue == []
  {
    PortionsBook(FRESH, master, [], PIPELINE_SIZE);
  }

  lemma ShowsNothing(db: Db)
    ensures Shows(db, EffectOfAll([]))
  {
  }

  /** The books of the window alone, for a connection that is up. */
  ghost predicate Window(q: seq<Command>, pipelined: int, wire: seq<Command>, confirms: nat, slave: Db) {
    && 0 <= pipelined <= PIPELINE_SIZE && pipelined <= |q|
    && pipelined == |wire| + confirms && wire == q[confirms..pipelined]
    && Shows(slave, EffectOfAll(q[..confirms]))
  }

  /** Filling the window neither throws nor breaks the books. */
  lemma PushQueueBook(s: System)
    requires s.up && s.client.phase == Running
    requires Window(s.client.queue, s.client.pipelined, s.wire, s.confirms, s.slave)
    ensures Carry(s, PushQueue(s.client)).Some? && Book(Carry(s, PushQueue(s.client)).value)
  {
    var c := s.client;
    if c.queue != [] && c.pipelined < |c.queue| && c.pipelined < PIPELINE_SIZE {
      var n := SendCount(c);
      assert c.queue[s.confirms..c.pipelined] + c.queue[c.pipelined..c.pipelined + n]
          == c.queue[s.confirms..c.pipelined + n];
    }
  }

  /** Running one more command keeps showing everything run before. */
  lemma ApplyShows(slave: Db, q: seq<Command>, n: nat)
    requires n < |q| && Shows(slave, EffectOfAll(q[..n]))
    ensures Shows(Run(q[n], slave), EffectOfAll(q[..n + 1]))
  {
    assert q[..n + 1] == q[..n] + [q[n]];
    EffectConcat(q[..n], [q[n]]);
    assert EffectOfAll([q[n]]) == EffectOf(q[n]) + EffectOfAll([]);
    RunIsOverlay(q[n], slave);
  }

  /** Forgetting the oldest command leaves the later ones shown. */
  lemma ConfirmShows(slave: Db, q: seq<Command>, n: nat)
    requires 0 < n <= |q| && Shows(slave, EffectOfAll(q[..n]))
    ensures Shows(slave, EffectOfAll(q[1..][..n - 1]))
  {
    assert q[..n] == [q[0]] + q[1..][..n - 1];
    EffectConcat([q[0]], q[1..][..n - 1]);
  }

  lemma WriteBook(s: System, cmd: Command)
    requires Book(s)
    ensures Book(Step(s, Write(cmd)).value)
  {
    var q, q' := s.client.queue, Forward(s.client, cmd).queue;
    if s.client.phase == Running && s.up {
      assert q'[..s.confirms] == q[..s.confirms];
      assert q'[s.confirms..s.client.pipelined] == q[s.confirms..s.client.pipelined];
    }
  }

  lemma ApplyBook(s: System)
    requires Book(s) && Enabled(s, Apply)
    ensures Book(Step(s, Apply).value)
  {
    if s.client.phase == Running {
      assert s.wire[0] == s.client.queue[s.confirms];
      ApplyShows(s.slave, s.client.queue, s.confirms);
    }
  }

  lemma ShiftedSlice<T>(q: seq<T>, a: nat, b: nat)
    requires 0 < a <= b <= |q|
    ensures q[1..][a - 1..b - 1] == q[a..b]
  {
  }

  /** The oldest entry, once confirmed, leaves the window. */
  lemma WindowPop(q: seq<Command>, pipelined: int, wire: seq<Command>, confirms: nat, slave: Db)
    requires Window(q, pipelined, wire, confirms, slave) && confirms > 0
    ensures Window(q[1..], pipelined - 1, wire, confirms - 1, slave)
  {
    ConfirmShows(slave, q, confirms);
    ShiftedSlice(q, confirms, pipelined);
  }

  lemma BookIsWindow(s: System)
    requires Book(s) && s.client.phase == Running && s.up
    ensures Window(s.client.queue, s.client.pipelined, s.wire, s.confirms, s.slave)
  {
  }

  /** The record with its oldest queue entry confirmed. */
  function Popped(s: System): System
    requires s.confirms > 0 && s.client.queue != []
  {
    s.(confirms := s.confirms - 1,
    client := s.client.(pipelined := s.client.pipelined - 1, queue := s.client.queue[1..]))
  }

  lemma ConfirmRunningStep(s: System)
    requires Enabled(s, Confirm) && s.client.phase == Running && s.client.queue != []
    ensures Step(s, Confirm) == Carry(Popped(s), PushQueue(Popped(s).client))
  {
    assert s.copied + [] == s.copied;
  }

  lemma ConfirmRunningBook(s: System)
    requires Book(s) && Enabled(s, Confirm) && s.client.phase == Running
    ensures Step(s, Confirm).Some? && Book(Step(s, Confirm).value)
  {
    BookIsWindow(s);
    WindowPop(s.client.queue, s.client.pipelined, s.wire, s.confirms, s.slave);
    PushQueueBook(Popped(s));
    ConfirmRunningStep(s);
  }

  lemma ExtendNonDecreasing(ks: seq<Key>, k: Key)
    requires NonDecreasing(ks) && ks != [] && AtMost(ks[|ks| - 1], k)
    ensures NonDecreasing(ks[1..] + [k])
  {
    var r := ks[1..] + [k];
    forall i | 0 < i < |r| ensures AtMost(r[i - 1], r[i]) {
      assert r[i - 1] == ks[i];
      assert r[i] == if i + 1 < |ks| then ks[i + 1] else k;
    }
  }

  lemma ConfirmSyncingBook(s: System)
    requires Book(s) && Enabled(s, Confirm) && s.client.phase == Syncing
    ensures Step(s, Confirm).Some? && Book(Step(s, Confirm).value)
  {
    PortionEndNotBelow(s.master, Current(s.client));
    ExtendNonDecreasing(s.client.currentKeys, PortionEnd(s.master, Current(s.client)));
  }

  lemma ConfirmFinishingBook(s: System)
    requires Book(s) && Enabled(s, Confirm) && s.client.phase == SyncFinishing
    ensures Step(s, Confirm).Some? && Book(Step(s, Confirm).value)
  {
    var c1 := s.client.(currentKeys := s.client.currentKeys[1..]);
    if c1.currentKeys == [] {
      ShowsNothing(s.slave);
      PushQueueBook(s.(confirms := s.confirms - 1, client := c1.(phase := Running, pipelined := 0)));
    }
  }

  lemma PollBook(s: System)
    requires Book(s) && Enabled(s, Poll)
    ensures Step(s, Poll).Some? && Book(Step(s, Poll).value)
  {
    BookIsWindow(s);
    PushQueueBook(s.(polls := s.polls - 1));
  }

  /** A push by a poll left over from an earlier connection does no harm, and its silence none either. */
  lemma StalePollBook(s: System, reused: bool)
    requires Book(s) && Enabled(s, StalePoll(reused))
    ensures Step(s, StalePoll(reused)).Some? && Book(Step(s, StalePoll(reused)).value)
  {
    if s.up && reused {
      BookIsWindow(s);
      PushQueueBook(s.(stale := s.stale - 1));
    }
  }

  lemma ContinueBook(s: System)
    requires Book(s) && Enabled(s, Continue)
    ensures Step(s, Continue).Some? && Book(Step(s, Continue).value)
  {
    ShowsNothing(s.slave);
    PushQueueBook(s.(up := true, client := s.client.(phase := Running, pipelined := 0)));
  }

  /** Every step keeps the books, and no step throws. */
  lemma StepBook(s: System, e: Event)
    requires Book(s) && Enabled(s, e)
    ensures Step(s, e).Some? && Book(Step(s, e).value)
  {
    match e
    case Write(cmd) => WriteBook(s, cmd);
    case Apply => ApplyBook(s);
    case Confirm =>
      match s.client.phase {
        case Syncing => ConfirmSyncingBook(s);
        case SyncFinishing => ConfirmFinishingBook(s);
        case Running => ConfirmRunningBook(s);
      }
    case Poll => PollBook(s);
    case StalePoll(reused) => StalePollBook(s, reused);
    case Drop =>
    case Continue => ContinueBook(s);
  }

  // ---------------------------------------------------------------- runs

  /** The state after a sequence of events; None when one of them throws or is not enabled. */
  function After(s: System, es: seq<Event>): Option<System>
    decreases |es|
  {
    if es == [] then Some(s)
    else if !Enabled(s, es[0]) then None
    else match Step(s, es[0]) case None => None case Some(s1) => After(s1, es[1..])
  }

  /** Each event is possible and allowed when its turn comes. */
  ghost predicate RunOf(allowed: (System, Event) -> bool, s: System, es: seq<Event>)
    decreases |es|
  {
    es == [] || (
      && Enabled(s, es[0]) && allowed(s, es[0])
      && (Step(s, es[0]).Some? ==> RunOf(allowed, Step(s, es[0]).value, es[1..])))
  }

  predicate Anything(s: System, e: Event) {
    true
  }

  ghost predicate Possible(s: System, es: seq<Event>) {
    RunOf(Anything, s, es)
  }

  /** What every allowed step keeps, without throwing, every run of such steps keeps. */
  ghost predicate Kept(P: System -> bool, allowed: (System, Event) -> bool) {
    forall s, e :: P(s) && Enabled(s, e) && allowed(s, e) ==> Step(s, e).Some? && P(Step(s, e).value)
  }

  lemma {:induction false} RunKeeps(P: System -> bool, allowed: (System, Event) -> bool, s: System, es: seq<Event>)
    requires Kept(P, allowed) && P(s) && RunOf(allowed, s, es)
    ensures After(s, es).Some? && P(After(s, es).value)
    decreases |es|
  {
    if es != [] {
      var o := Step(s, es[0]);
      assert o.Some? && P(o.value);
      RunKeeps(P, allowed, o.value, es[1..]);
    }
  }

  lemma {:induction false} RunWidens(a: (System, Event) -> bool, b: (System, Event) -> bool, s: System, es: seq<Event>)
    requires RunOf(a, s, es) && forall x, e :: a(x, e) ==> b(x, e)
    ensures RunOf(b, s, es)
    decreases |es|
  {
    if es != [] {
      var o := Step(s, es[0]);
      if o.Some? {
        RunWidens(a, b, o.value, es[1..]);
      }
    }
  }

  lemma BookKept()
    ensures Kept(Book, Anything)
  {
    forall s, e | Book(s) && Enabled(s, e) ensures Step(s, e).Some? && Book(Step(s, e).value) {
      StepBook(s, e);
    }
  }

  lemma RunKeepsBook(s: System, es: seq<Event>)
    requires Book(s) && Possible(s, es)
    ensures After(s, es).Some? && Book(After(s, es).value)
  {
    BookKept();
    RunKeeps(Book, Anything, s, es);
  }

  /**
   Whole runs: whatever the stores, from a "start" on and over any possible sequence of
   writes, slave steps, confirmations, polls, connection losses and reconnections, no
   exception is thrown and the books balance.
   */
  lemma NoRunThrows(master: Db, slave: Db, es: seq<Event>)
    requires Possible(Start(master, slave), es)
    ensures After(Start(master, slave), es).Some?
    ensures Book(After(Start(master, slave), es).value)
  {
    StartBook(master, slave);
    RunKeepsBook(Start(master, slave), es);
  }

  /** The window: sent entries are a prefix of the queue, at most 100, in order; the link never stalls. */
  lemma WindowAndNoStall(master: Db, slave: Db, es: seq<Event>, s: System)
    requires Possible(Start(master, slave), es) && After(Start(master, slave), es) == Some(s)
    requires s.client.phase == Running
    ensures 0 <= s.client.pipelined <= 100 && s.client.pipelined <= |s.client.queue|
    ensures s.up ==> s.confirms <= s.client.pipelined
    ensures s.up ==> s.client.queue[..s.client.pipelined] == s.client.queue[..s.confirms] + s.wire
    ensures s.up ==> Enabled(s, Poll) || Enabled(s, Apply) || Enabled(s, Confirm)
  {
    NoRunThrows(master, slave, es);
    if s.up {
      JoinSlices(s.client.queue, s.confirms, s.client.pipelined);
    }
  }

  /**
   During the bulk copy the remembered keys never decrease, there is one for each
   outstanding portion, exactly 100 while syncing; and the confirmation that starts the
   queue finds no portion outstanding.
   */
  lemma SyncBookkeeping(master: Db, slave: Db, es: seq<Event>, s: System)
    requires Possible(Start(master, slave), es) && After(Start(master, slave), es) == Some(s)
    requires s.client.phase != Running && s.up
    ensures NonDecreasing(s.client.currentKeys)
    ensures |s.client.currentKeys| == |s.wire| + s.confirms
    ensures s.client.phase == Syncing ==> |s.client.currentKeys| == 100
    ensures Enabled(s, Confirm) && Step(s, Confirm).Some? && Step(s, Confirm).value.client.phase == Running ==>
              s.wire == [] && s.confirms == 1
  {
    NoRunThrows(master, slave, es);
  }
}
