/**
 Plain `set` and `del` take no lock.  When that does harm, and when it does not.
 */
module UnlockedWrites {
  import opened Bytes
  import opened Store
  import opened JsonNumber
  import opened StoreOps
  import opened StripedLocks
  import opened LockedCounters

  /** A plain write: it goes into the log under a number that is no thread's. */
  function PlainWrite(w: World, k: Key, v: Verdict): World {
    w.(db := Settle(w.db, k, v), log := w.log + [(|w.threads|, Op(k, _ => v, 0, 0))])
  }

  /** What a key holds after a verdict. */
  function Outcome(r: Option<Value>, v: Verdict): Option<Value> {
    match v
    case Put(value) => Some(value)
    case Erase => None
    case _ => r
  }

  lemma SettleIsOutcome(db: Db, k: Key, v: Verdict)
    ensures Lookup(Settle(db, k, v), k) == Outcome(Lookup(db, k), v)
  {
  }

  lemma SameSettle(db: Db, k: Key, a: Verdict, b: Verdict)
    ensures Settle(db, k, a) == Settle(db, k, b) <==> Outcome(Lookup(db, k), a) == Outcome(Lookup(db, k), b)
  {
    SettleIsOutcome(db, k, a);
    SettleIsOutcome(db, k, b);
    if Outcome(Lookup(db, k), a) == Outcome(Lookup(db, k), b) {
      forall x ensures Lookup(Settle(db, k, a), x) == Lookup(Settle(db, k, b), x) {
        if x != k {
          SettleElsewhere(db, k, a, x);
          SettleElsewhere(db, k, b, x);
        }
      }
      SameLookups(Settle(db, k, a), Settle(db, k, b));
    }
  }

  predicate Between(w: World, t: nat) {
    t < |w.threads| && w.threads[t].pc.Read? && w.threads[t].todo != []
  }

  /** The write this thread is about to make is the one its operation would make on the store as it is. */
  predicate PendingRight(w: World, t: nat)
    requires Between(w, t)
  {
    var op := w.threads[t].todo[0];
    Settle(w.db, op.key, op.act(w.threads[t].pc.copy)) == Atomically(op, w.db)
  }

  ghost predicate PendingAllRight(w: World) {
    forall t: nat :: Between(w, t) ==> PendingRight(w, t)
  }

  lemma PendingElsewhere(w: World, w': World, t: nat)
    requires Between(w, t) && Between(w', t) && w.threads[t] == w'.threads[t] && PendingRight(w, t)
    requires Lookup(w.db, w.threads[t].todo[0].key) == Lookup(w'.db, w.threads[t].todo[0].key)
    ensures PendingRight(w', t)
  {
    var op := w.threads[t].todo[0];
    var r, copy := Lookup(w.db, op.key), w.threads[t].pc.copy;
    SameSettle(w.db, op.key, op.act(copy), op.act(r));
    SameSettle(w'.db, op.key, op.act(copy), op.act(r));
  }

  lemma StepPending(hash: Key -> nat, w: World, t: nat, u: nat)
    requires Excludes(hash, w) && PendingAllRight(w) && Unfinished(w, t) && Between(Step(hash, w, t), u)
    ensures PendingRight(Step(hash, w, t), u)
  {
    if u != t {
      var w' := Step(hash, w, t);
      assert Between(w, u) && PendingRight(w, u);
      if w.threads[t].pc.Read? {
        Exclusive(hash, w, t, u);
        var op := w.threads[t].todo[0];
        SettleElsewhere(w.db, op.key, op.act(w.threads[t].pc.copy), w.threads[u].todo[0].key);
      }
      PendingElsewhere(w, w', u);
    }
  }

  /** The store is what the logged operations make of it one after another, and what is pending will keep it so. */
  ghost predicate Serial(hash: Key -> nat, w: World, db0: Db) {
    Excludes(hash, w) && PendingAllRight(w) && w.db == Replay(w.log, db0)
  }

  lemma LockedIsSerial(hash: Key -> nat, w: World, db0: Db, programs: seq<seq<Op>>)
    requires Inv(hash, w, db0, programs)
    ensures Serial(hash, w, db0)
  {
  }

  lemma StepStaysSerial(hash: Key -> nat, w: World, t: nat, db0: Db)
    requires Serial(hash, w, db0) && Unfinished(w, t)
    ensures Serial(hash, Step(hash, w, t), db0)
  {
    StepExcludes(hash, w, t);
    forall u: nat | Between(Step(hash, w, t), u) ensures PendingRight(Step(hash, w, t), u) {
      StepPending(hash, w, t, u);
    }
    if w.threads[t].pc.Read? {
      assert Between(w, t) && PendingRight(w, t);
      LogOne(w.log, t, w.threads[t].todo[0], db0);
    }
  }

  lemma {:induction false} StaysSerial(hash: Key -> nat, w: World, ts: seq<nat>, db0: Db)
    requires Serial(hash, w, db0) && Schedule(hash, w, ts)
    ensures Serial(hash, After(hash, w, ts), db0)
    decreases |ts|
  {
    if ts != [] {
      StepStaysSerial(hash, w, ts[0], db0);
      StaysSerial(hash, Step(hash, w, ts[0]), ts[1..], db0);
    }
  }

  /** In every continuation by threads the store is what the logged operations make of it one after another. */
  ghost predicate SerialForEver(hash: Key -> nat, w: World, db0: Db) {
    forall ts :: Schedule(hash, w, ts) ==> After(hash, w, ts).db == Replay(After(hash, w, ts).log, db0)
  }

  /** The operation, having read `copy`, does to the key what it would do having read it after the plain write. */
  predicate Indifferent(op: Op, copy: Option<Value>, db: Db, v: Verdict) {
    var d := Settle(db, op.key, v);
    Settle(d, op.key, op.act(copy)) == Atomically(op, d)
  }

  /** Every operation that has read the key and not yet written it back is indifferent to the plain write. */
  ghost predicate NobodyMinds(w: World, k: Key, v: Verdict) {
    forall t: nat :: Between(w, t) && w.threads[t].todo[0].key == k ==>
      Indifferent(w.threads[t].todo[0], w.threads[t].pc.copy, w.db, v)
  }

  lemma PendingAfterPlainWrite(w: World, k: Key, v: Verdict, t: nat)
    requires PendingAllRight(w) && Between(w, t)
    ensures PendingRight(PlainWrite(w, k, v), t) <==>
            (w.threads[t].todo[0].key == k ==> Indifferent(w.threads[t].todo[0], w.threads[t].pc.copy, w.db, v))
  {
    var op := w.threads[t].todo[0];
    if op.key != k {
      SettleElsewhere(w.db, k, v, op.key);
      PendingElsewhere(w, PlainWrite(w, k, v), t);
    }
  }

  lemma PlainWriteKeepsSerialIff(hash: Key -> nat, w: World, k: Key, v: Verdict, db0: Db)
    requires Serial(hash, w, db0)
    ensures var w' := PlainWrite(w, k, v);
            && Excludes(hash, w') && w'.db == Replay(w'.log, db0)
            && (PendingAllRight(w') <==> NobodyMinds(w, k, v))
  {
    var w' := PlainWrite(w, k, v);
    LogOne(w.log, |w.threads|, Op(k, _ => v, 0, 0), db0);
    forall t: nat | Between(w', t)
      ensures PendingRight(w', t) <==>
              (w.threads[t].todo[0].key == k ==> Indifferent(w.threads[t].todo[0], w.threads[t].pc.copy, w.db, v))
    {
      PendingAfterPlainWrite(w, k, v, t);
    }
    assert forall t: nat :: Between(w, t) <==> Between(w', t);
  }

  /** The write of a thread that is out of date makes the history differ at once. */
  lemma WrongWriteShows(hash: Key -> nat, w: World, t: nat, db0: Db)
    requires Excludes(hash, w) && w.db == Replay(w.log, db0) && Between(w, t)
    ensures Schedule(hash, w, [t])
    ensures After(hash, w, [t]).db == Replay(After(hash, w, [t]).log, db0) <==> PendingRight(w, t)
  {
    assert [t][1..] == [];
    assert Schedule(hash, Step(hash, w, t), []);
    assert After(hash, w, [t]) == Step(hash, w, t);
    LogOne(w.log, t, w.threads[t].todo[0], db0);
  }

  /**
   A plain write in the middle of anything leaves the store serial in every continuation if
   and only if nobody who has read the key and not yet written it back minds.
   */
  lemma PlainWriteSerialIff(hash: Key -> nat, w: World, k: Key, v: Verdict, db0: Db)
    requires Serial(hash, w, db0)
    ensures SerialForEver(hash, PlainWrite(w, k, v), db0) <==> NobodyMinds(w, k, v)
  {
    var w' := PlainWrite(w, k, v);
    PlainWriteKeepsSerialIff(hash, w, k, v, db0);
    if t: nat :| Between(w', t) && !PendingRight(w', t) {
      WrongWriteShows(hash, w', t, db0);
    } else {
      SerialLasts(hash, w', db0);
    }
  }

  lemma SerialLasts(hash: Key -> nat, w: World, db0: Db)
    requires Serial(hash, w, db0)
    ensures SerialForEver(hash, w, db0)
  {
    forall ts | Schedule(hash, w, ts) ensures After(hash, w, ts).db == Replay(After(hash, w, ts).log, db0) {
      StaysSerial(hash, w, ts, db0);
    }
  }

  // ---------------------------------------------------------------- runs with plain writes

  datatype Move = ByThread(t: nat) | ByHand(k: Key, v: Verdict)

  function Moved(hash: Key -> nat, w: World, m: Move): World
    requires m.ByThread? ==> Unfinished(w, m.t) && WellFormed(w.threads[m.t])
  {
    match m
    case ByThread(t) => Step(hash, w, t)
    case ByHand(k, v) => PlainWrite(w, k, v)
  }

  /** Threads move when they can, and plain writes come when nobody minds. */
  ghost predicate GentleRun(hash: Key -> nat, w: World, ms: seq<Move>)
    decreases |ms|
  {
    ms == [] || (
      && (match ms[0]
          case ByThread(t) => Unfinished(w, t) && WellFormed(w.threads[t])
          case ByHand(k, v) => NobodyMinds(w, k, v))
      && GentleRun(hash, Moved(hash, w, ms[0]), ms[1..]))
  }

  function AfterMoves(hash: Key -> nat, w: World, ms: seq<Move>): World
    requires GentleRun(hash, w, ms)
    decreases |ms|
  {
    if ms == [] then w else AfterMoves(hash, Moved(hash, w, ms[0]), ms[1..])
  }

  lemma {:induction false} GentleStaysSerial(hash: Key -> nat, w: World, ms: seq<Move>, db0: Db)
    requires Serial(hash, w, db0) && GentleRun(hash, w, ms)
    ensures Serial(hash, AfterMoves(hash, w, ms), db0)
    decreases |ms|
  {
    if ms != [] {
      match ms[0] {
        case ByThread(t) => StepStaysSerial(hash, w, t, db0);
        case ByHand(k, v) => PlainWriteKeepsSerialIff(hash, w, k, v, db0);
      }
      GentleStaysSerial(hash, Moved(hash, w, ms[0]), ms[1..], db0);
    }
  }

  /** Over every run of threads and such plain writes the store is that of a serial history. */
  lemma PlainWritesAmongOps(hash: Key -> nat, db: Db, programs: seq<seq<Op>>, ms: seq<Move>)
    requires GentleRun(hash, Begin(db, programs), ms)
    ensures var w := AfterMoves(hash, Begin(db, programs), ms); w.db == Replay(w.log, db)
  {
    BeginInv(hash, db, programs);
    LockedIsSerial(hash, Begin(db, programs), db, programs);
    GentleStaysSerial(hash, Begin(db, programs), ms, db);
  }

  // ---------------------------------------------------------------- increments

  /** What a verdict of this increment on this content leaves in the key. */
  lemma IncrementOutcome(op: Op, r: Option<Value>, found: Option<Value>)
    requires IsIncrement(op)
    ensures Outcome(found, op.act(r))
         == if op.act(r).Put? then Some(Decimal(NumberOf(r, op.start) + op.delta)) else found
    ensures !op.act(r).Put? ==> !HasCounter(r)
  {
    assert match op.act(r)
           case Put(v) => v == Decimal(NumberOf(r, op.start) + op.delta)
           case Erase => false
           case _ => !HasCounter(r);
  }

  /**
   When an increment that has read `copy` is indifferent to a plain write that leaves
   `found`: if it writes either way, exactly when both stand for the same number; if it
   writes only for what it has read, never; if it would write only for what is there now,
   exactly when that is already the text it would write; and always if it writes neither way.
   */
  lemma IncrementIndifferentIff(op: Op, copy: Option<Value>, db: Db, v: Verdict)
    requires IsIncrement(op)
    ensures var found := Outcome(Lookup(db, op.key), v);
            Indifferent(op, copy, db, v) <==>
            if op.act(copy).Put? then
              op.act(found).Put? && NumberOf(copy, op.start) == NumberOf(found, op.start)
            else
              op.act(found).Put? ==> found == Some(Decimal(NumberOf(found, op.start) + op.delta))
  {
    var found, d := Outcome(Lookup(db, op.key), v), Settle(db, op.key, v);
    SettleIsOutcome(db, op.key, v);
    SameSettle(d, op.key, op.act(copy), op.act(found));
    IncrementOutcome(op, copy, found);
    IncrementOutcome(op, found, found);
    DecimalInjective(NumberOf(copy, op.start) + op.delta, NumberOf(found, op.start) + op.delta);
    CounterRoundTrip(NumberOf(copy, op.start) + op.delta);
  }

  /**
   An `inc_add` is indifferent to a `set` or `del` exactly when both contents, absent included,
   stand for one number.
   */
  lemma IncAddIndifferentIff(k: Key, d: int, def: map<Key, int>, copy: Option<Value>, db: Db, v: Verdict)
    ensures Indifferent(IncAddOp(k, d, def), copy, db, v) <==>
            NumberOf(copy, Default(def, k)) == NumberOf(Outcome(Lookup(db, k), v), Default(def, k))
  {
    IncAddIsIncrement(k, d, def);
    IncrementIndifferentIff(IncAddOp(k, d, def), copy, db, v);
  }

  /**
   An `inc` that has read a counter minds every `del` and every unreadable text, and of the
   readable ones those that read as another number; one that has found no counter minds a
   readable text unless adding to it changes nothing.
   */
  lemma IncIndifferentIff(k: Key, d: int, copy: Option<Value>, db: Db, v: Verdict)
    ensures var found := Outcome(Lookup(db, k), v);
            Indifferent(IncOp(k, d), copy, db, v) <==>
            if HasCounter(copy) then HasCounter(found) && CounterOr(copy.value, 0) == CounterOr(found.value, 0)
            else HasCounter(found) ==> found.value == Decimal(CounterOr(found.value, 0) + d)
  {
    IncIsIncrement(k, d);
    IncrementIndifferentIff(IncOp(k, d), copy, db, v);
  }

  lemma DecimalInjective(a: int, b: int)
    ensures Decimal(a) == Decimal(b) <==> a == b
  {
    CounterRoundTrip(a);
    CounterRoundTrip(b);
  }

  /** A `set` between an increment's read and its write leaves no trace in the store. */
  lemma PlainSetIsLost(hash: Key -> nat, w: World, t: nat, v: Value)
    requires Between(w, t) && WellFormed(w.threads[t]) && HasCounter(w.threads[t].pc.copy)
    requires IsIncrement(w.threads[t].todo[0])
    ensures var op := w.threads[t].todo[0];
            Step(hash, PlainWrite(w, op.key, Put(v)), t).db
            == w.db[op.key := Decimal(NumberOf(w.threads[t].pc.copy, op.start) + op.delta)]
  {
    var op, copy := w.threads[t].todo[0], w.threads[t].pc.copy;
    assert match op.act(copy) case Put(x) => x == Decimal(NumberOf(copy, op.start) + op.delta) case _ => false;
  }
}
