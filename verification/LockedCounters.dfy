/**
 The handlers' single steps as operations under the striped locks, and what becomes of
 counters: no increment is lost.
 */
module LockedCounters {
  import opened Bytes
  import opened Store
  import opened JsonNumber
  import opened JsonContainer
  import opened StoreOps
  import opened StripedLocks

  // ---------------------------------------------------------------- the handlers

  function IncOp(k: Key, d: int): Op {
    Op(k, (r: Option<Value>) => match r case None => Skip case Some(text) =>
         match ReadCounter(text) case Fail => Throw case Ok(v, _) => Put(Decimal(v + d)), d, 0)
  }

  /** What an `inc_add` starts from when the key is absent. */
  function Default(def: map<Key, int>, k: Key): int {
    if k in def then def[k] else 0
  }

  function IncAddOp(k: Key, d: int, def: map<Key, int>): Op {
    Op(k, (r: Option<Value>) => Put(Decimal(NumberOf(r, Default(def, k)) + d)), d, Default(def, k))
  }

  function AddOp(k: Key, v: Value): Op {
    Op(k, (r: Option<Value>) => if r.None? then Put(v) else Skip, 0, 0)
  }

  function RecordOf(r: Option<Value>, def: map<Key, Value>): map<Key, Value> {
    match r
    case None => def
    case Some(text) => match ParseMap(text) case Ok(m, _) => m case Fail => def
  }

  /** `order` stands for the order in which the hash map happens to be visited. */
  function PackedOp(key: Key, call: PackedCall, order: map<Key, Value> -> seq<Key>): Op {
    Op(key, (r: Option<Value>) =>
         var m := Updated(RecordOf(r, call.def), call);
         if forall k | k in order(m) :: k in m then Put(PrintMap(m, order(m))) else Skip, 0, 0)
  }

  lemma AddAlone(db: Db, k: Key, v: Value)
    ensures Atomically(AddOp(k, v), db) == Add(db, [(k, v)]).0
  {
    assert [(k, v)][1..] == [];
  }

  lemma IncAlone(db: Db, k: Key, d: int)
    ensures Atomically(IncOp(k, d), db) == Inc(db, [(k, d)]).db
    ensures IncOp(k, d).act(Lookup(db, k)).Throw? <==> Inc(db, [(k, d)]).Aborted?
  {
    assert [(k, d)][1..] == [];
  }

  lemma IncAddAlone(db: Db, k: Key, d: int, def: map<Key, int>)
    ensures Atomically(IncAddOp(k, d, def), db) == IncAdd(db, [(k, d)], def).0
  {
    var text := Decimal(StartFrom(db, k, def) + d);
    assert [(k, d)][1..] == [];
    assert IncAdd(db[k := text], [], def).0 == db[k := text];
  }

  lemma PackedAlone(db: Db, key: Key, call: PackedCall, order: map<Key, Value> -> seq<Key>)
    requires forall m :: Lists(order(m), m)
    ensures PackedStep(db, key, call, Atomically(PackedOp(key, call, order), db))
  {
    var m := Updated(BaseRecord(db, key, call.def), call);
    assert RecordOf(Lookup(db, key), call.def) == BaseRecord(db, key, call.def);
    assert Lists(order(m), m);
  }

  /** Run alone, each handler's single step does what the handler does with a batch of one. */
  lemma HandlersAreOps(db: Db, k: Key, d: int, def: map<Key, int>, v: Value)
    ensures Atomically(IncOp(k, d), db) == Inc(db, [(k, d)]).db
    ensures IncOp(k, d).act(Lookup(db, k)).Throw? <==> Inc(db, [(k, d)]).Aborted?
    ensures Atomically(IncAddOp(k, d, def), db) == IncAdd(db, [(k, d)], def).0
    ensures Atomically(AddOp(k, v), db) == Add(db, [(k, v)]).0
  {
    IncAlone(db, k, d);
    IncAddAlone(db, k, d, def);
    AddAlone(db, k, v);
  }

  // ---------------------------------------------------------------- increments

  /** The number a key stands for: its counter, zero if that is unreadable, `base` if the key is absent. */
  function NumberOf(r: Option<Value>, base: int): int {
    match r
    case None => base
    case Some(text) => CounterOr(text, 0)
  }

  predicate HasCounter(r: Option<Value>) {
    r.Some? && ReadCounter(r.value).Ok?
  }

  /**
   Either adds `delta` to the number the key stands for, an absent key standing for the
   operation's own default; or, if there is no readable counter, leaves the key alone.
   */
  ghost predicate IsIncrement(op: Op) {
    forall r ::
      match op.act(r)
      case Put(v) => v == Decimal(NumberOf(r, op.start) + op.delta)
      case Erase => false
      case _ => !HasCounter(r)
  }

  lemma IncIsIncrement(k: Key, d: int)
    ensures IsIncrement(IncOp(k, d))
    ensures forall r :: IncOp(k, d).act(r).Put? <==> HasCounter(r)
  {
  }

  lemma IncAddIsIncrement(k: Key, d: int, def: map<Key, int>)
    ensures IsIncrement(IncAddOp(k, d, def)) && IncAddOp(k, d, def).start == Default(def, k)
    ensures forall r :: IncAddOp(k, d, def).act(r).Put?
  {
  }

  /** The increments on a key that were carried out, in the order of the log. */
  function Completed(log: seq<(nat, Op)>, db: Db, k: Key): int
    decreases |log|
  {
    if log == [] then 0
    else
      var before, op := log[..|log| - 1], log[|log| - 1].1;
      Completed(before, db, k)
      + (if op.key == k && op.act(Lookup(Replay(before, db), k)).Put? then op.delta else 0)
  }

  /** Those that found nothing to add to: an `inc` of an absent or unreadable counter. */
  function Refused(log: seq<(nat, Op)>, db: Db, k: Key): int
    decreases |log|
  {
    if log == [] then 0
    else
      var before, op := log[..|log| - 1], log[|log| - 1].1;
      Refused(before, db, k)
      + (if op.key == k && !op.act(Lookup(Replay(before, db), k)).Put? then op.delta else 0)
  }

  /**
   The number counting starts from: the one stored, or the default of the increment that
   first put the key there; None while the key has not been there at all.
   */
  function Origin(log: seq<(nat, Op)>, db: Db, k: Key): Option<int>
    decreases |log|
  {
    if log == [] then (if k in db then Some(CounterOr(db[k], 0)) else None)
    else
      var before, op := Origin(log[..|log| - 1], db, k), log[|log| - 1].1;
      if before.None? && op.key == k && op.act(None).Put? then Some(op.start) else before
  }

  /** Of the first `n` logged operations none puts the key where there is none. */
  ghost predicate NonePuts(log: seq<(nat, Op)>, n: nat, k: Key) {
    forall i :: 0 <= i < n && i < |log| && log[i].1.key == k ==> !log[i].1.act(None).Put?
  }

  /** For an absent key the default taken is that of the first operation in the log that puts one. */
  lemma {:induction false} OriginIsFirst(log: seq<(nat, Op)>, db: Db, k: Key)
    ensures k in db ==> Origin(log, db, k) == Some(CounterOr(db[k], 0))
    ensures k !in db && Origin(log, db, k).None? ==> NonePuts(log, |log|, k)
    ensures k !in db && Origin(log, db, k).Some? ==>
              exists i :: 0 <= i < |log| && log[i].1.key == k && log[i].1.act(None).Put? && NonePuts(log, i, k)
                          && Origin(log, db, k).value == log[i].1.start
    decreases |log|
  {
    if log != [] {
      var before := log[..|log| - 1];
      OriginIsFirst(before, db, k);
      assert forall i | 0 <= i < |before| :: before[i] == log[i];
      if k !in db && Origin(log, db, k).Some? {
        if Origin(before, db, k).None? {
          assert NonePuts(log, |log| - 1, k);
        } else {
          var i :| 0 <= i < |before| && before[i].1.key == k && before[i].1.act(None).Put? && NonePuts(before, i, k)
            && Origin(before, db, k).value == before[i].1.start;
          assert log[i] == before[i] && NonePuts(log, i, k);
        }
      }
    }
  }

  ghost predicate LogIncrements(log: seq<(nat, Op)>, k: Key) {
    forall i :: 0 <= i < |log| && log[i].1.key == k ==> IsIncrement(log[i].1)
  }

  lemma OneIncrement(op: Op, db: Db, k: Key)
    requires op.key == k ==> IsIncrement(op)
    ensures var counted := op.key == k && op.act(Lookup(db, k)).Put?;
            Lookup(Atomically(op, db), k)
            == if counted then Some(Decimal(NumberOf(Lookup(db, k), op.start) + op.delta)) else Lookup(db, k)
    ensures op.key == k && HasCounter(Lookup(db, k)) ==> op.act(Lookup(db, k)).Put?
  {
    if op.key == k {
      var n := NumberOf(Lookup(db, k), op.start) + op.delta;
      assert match op.act(Lookup(db, k)) case Put(v) => v == Decimal(n) case Erase => false case _ => true;
    }
  }

  /** What a key holds when counting started from `origin` and `sum` was added. */
  ghost predicate Counts(r: Option<Value>, origin: Option<int>, sum: int) {
    match r
    case None => origin == None && sum == 0
    case Some(text) => origin.Some? && CounterOr(text, 0) == origin.value + sum
  }

  lemma {:induction false} ReplayAdds(log: seq<(nat, Op)>, db: Db, k: Key)
    requires LogIncrements(log, k)
    ensures Counts(Lookup(Replay(log, db), k), Origin(log, db, k), Completed(log, db, k))
    decreases |log|
  {
    if log != [] {
      var before, op := log[..|log| - 1], log[|log| - 1].1;
      ReplayAdds(before, db, k);
      OneIncrement(op, Replay(before, db), k);
      CounterRoundTrip(NumberOf(Lookup(Replay(before, db), k), op.start) + op.delta);
    }
  }

  /** Every operation on the key is an increment, each with a default of its own. */
  ghost predicate OnlyIncrements(programs: seq<seq<Op>>, k: Key) {
    forall t :: 0 <= t < |programs| ==> forall op :: op in programs[t] && op.key == k ==> IsIncrement(op)
  }

  lemma LogOnlyIncrements(hash: Key -> nat, db: Db, programs: seq<seq<Op>>, ts: seq<nat>, k: Key)
    requires Schedule(hash, Begin(db, programs), ts) && OnlyIncrements(programs, k)
    ensures var log := After(hash, Begin(db, programs), ts).log; LogIncrements(log, k) && LogWithin(log, programs)
  {
    var log := After(hash, Begin(db, programs), ts).log;
    BeginInv(hash, db, programs);
    RunLogWithin(hash, Begin(db, programs), ts, db, programs);
    forall i | 0 <= i < |log| && log[i].1.key == k ensures IsIncrement(log[i].1) {
      assert log[i].1 in programs[log[i].0];
    }
  }

  /**
   No lost update: whatever the key, the hash, the threads and the interleaving, a counter
   that only increments touch is at every moment the number counting started from plus the
   increments carried out; and while the key is absent none has been.  The counter may be
   absent or unreadable at the start, and each increment brings a default of its own.
   */
  lemma NoLostUpdate(hash: Key -> nat, db: Db, programs: seq<seq<Op>>, ts: seq<nat>, k: Key)
    requires Schedule(hash, Begin(db, programs), ts) && OnlyIncrements(programs, k)
    ensures var w := After(hash, Begin(db, programs), ts);
            Counts(Lookup(w.db, k), Origin(w.log, db, k), Completed(w.log, db, k))
  {
    Serializable(hash, db, programs, ts);
    LogOnlyIncrements(hash, db, programs, ts, k);
    ReplayAdds(After(hash, Begin(db, programs), ts).log, db, k);
  }

  // ---------------------------------------------------------------- every increment asked for

  function SumOn(log: seq<(nat, Op)>, k: Key): int
    decreases |log|
  {
    if log == [] then 0
    else SumOn(log[..|log| - 1], k) + (if log[|log| - 1].1.key == k then log[|log| - 1].1.delta else 0)
  }

  lemma {:induction false} CompletedOrRefused(log: seq<(nat, Op)>, db: Db, k: Key)
    ensures SumOn(log, k) == Completed(log, db, k) + Refused(log, db, k)
    decreases |log|
  {
    if log != [] {
      CompletedOrRefused(log[..|log| - 1], db, k);
    }
  }

  function SumOps(ops: seq<Op>, k: Key): int
    decreases |ops|
  {
    if ops == [] then 0
    else SumOps(ops[..|ops| - 1], k) + (if ops[|ops| - 1].key == k then ops[|ops| - 1].delta else 0)
  }

  function SumAll(programs: seq<seq<Op>>, k: Key): int
    decreases |programs|
  {
    if programs == [] then 0 else SumOps(programs[0], k) + SumAll(programs[1..], k)
  }

  lemma {:induction false} SumOneMore(xs: seq<seq<Op>>, t: nat, op: Op, k: Key)
    requires t < |xs|
    ensures SumAll(xs[t := xs[t] + [op]], k) == SumAll(xs, k) + (if op.key == k then op.delta else 0)
    decreases |xs|
  {
    var ys := xs[t := xs[t] + [op]];
    if t == 0 {
      assert ys[1..] == xs[1..];
      assert (xs[0] + [op])[..|xs[0]|] == xs[0];
    } else {
      SumOneMore(xs[1..], t - 1, op, k);
      assert ys[1..] == xs[1..][t - 1 := xs[1..][t - 1] + [op]];
    }
  }

  lemma {:induction false} SumOfNothing(n: nat, k: Key)
    ensures SumAll(seq(n, _ => []), k) == 0
    decreases n
  {
    if n > 0 {
      SumOfNothing(n - 1, k);
      assert seq(n, _ => [])[1..] == seq<seq<Op>>(n - 1, _ => []);
    }
  }

  /** The log of a run taken apart by threads. */
  function Parts(log: seq<(nat, Op)>, n: nat): (r: seq<seq<Op>>)
    ensures |r| == n && forall t :: 0 <= t < n ==> r[t] == ByThread(log, t)
  {
    seq(n, t requires 0 <= t < n => ByThread(log, t))
  }

  lemma PartsOneMore(before: seq<(nat, Op)>, t: nat, op: Op, n: nat)
    requires t < n
    ensures Parts(before + [(t, op)], n) == Parts(before, n)[t := Parts(before, n)[t] + [op]]
  {
    LogOne(before, t, op, map[]);
    assert forall u :: ByThread(before, u) + [] == ByThread(before, u);
  }

  /** Adding up along the log or thread by thread gives the same. */
  lemma {:induction false} SumByThread(log: seq<(nat, Op)>, n: nat, k: Key)
    requires forall i :: 0 <= i < |log| ==> log[i].0 < n
    ensures SumOn(log, k) == SumAll(Parts(log, n), k)
    decreases |log|
  {
    if log == [] {
      SumOfNothing(n, k);
      assert Parts(log, n) == seq<seq<Op>>(n, _ => []);
    } else {
      var before := log[..|log| - 1];
      var (t, op) := log[|log| - 1];
      SumByThread(before, n, k);
      SumOneMore(Parts(before, n), t, op, k);
      PartsOneMore(before, t, op, n);
      assert before + [(t, op)] == log;
    }
  }

  /** Nothing is left to do and nothing was given up. */
  ghost predicate RanToEnd(w: World) {
    AllDone(w) && forall t :: 0 <= t < |w.threads| ==> w.threads[t].dropped == []
  }

  lemma FinishedParts(hash: Key -> nat, w: World, db: Db, programs: seq<seq<Op>>)
    requires Inv(hash, w, db, programs) && RanToEnd(w)
    ensures Parts(w.log, |programs|) == programs
  {
    forall t | 0 <= t < |programs| ensures ByThread(w.log, t) == programs[t] {
      assert !Unfinished(w, t);
      assert programs[t] == ByThread(w.log, t) + [] + [];
    }
  }

  lemma FinishedSum(hash: Key -> nat, db: Db, programs: seq<seq<Op>>, ts: seq<nat>, k: Key)
    requires Schedule(hash, Begin(db, programs), ts) && RanToEnd(After(hash, Begin(db, programs), ts))
    ensures SumOn(After(hash, Begin(db, programs), ts).log, k) == SumAll(programs, k)
  {
    var w := After(hash, Begin(db, programs), ts);
    BeginInv(hash, db, programs);
    RunInv(hash, Begin(db, programs), ts, db, programs);
    RunLogWithin(hash, Begin(db, programs), ts, db, programs);
    FinishedParts(hash, w, db, programs);
    SumByThread(w.log, |programs|, k);
  }

  /** No increment of this key can be refused: it has a readable counter, or only `inc_add` touches it. */
  ghost predicate NeverRefused(db: Db, programs: seq<seq<Op>>, k: Key) {
    || HasCounter(Lookup(db, k))
    || forall t :: 0 <= t < |programs| ==> forall op :: op in programs[t] && op.key == k ==> forall r :: op.act(r).Put?
  }

  lemma {:induction false} NoneRefused(log: seq<(nat, Op)>, db: Db, k: Key)
    requires LogIncrements(log, k)
    requires HasCounter(Lookup(db, k)) || forall i, r :: 0 <= i < |log| && log[i].1.key == k ==> log[i].1.act(r).Put?
    ensures Refused(log, db, k) == 0 && (HasCounter(Lookup(db, k)) ==> HasCounter(Lookup(Replay(log, db), k)))
    decreases |log|
  {
    if log != [] {
      var before, op := log[..|log| - 1], log[|log| - 1].1;
      NoneRefused(before, db, k);
      OneIncrement(op, Replay(before, db), k);
      CounterRoundTrip(NumberOf(Lookup(Replay(before, db), k), op.start) + op.delta);
    }
  }

  /**
   Once all threads are done and none has thrown, a counter is the number counting started
   from plus every increment asked for, except those refused; and none is refused when the
   counter was readable at the start or only `inc_add` touches it.
   */
  lemma EveryIncrementCounts(hash: Key -> nat, db: Db, programs: seq<seq<Op>>, ts: seq<nat>, k: Key)
    requires Schedule(hash, Begin(db, programs), ts) && OnlyIncrements(programs, k)
    requires RanToEnd(After(hash, Begin(db, programs), ts))
    ensures var w := After(hash, Begin(db, programs), ts);
            && Counts(Lookup(w.db, k), Origin(w.log, db, k), SumAll(programs, k) - Refused(w.log, db, k))
            && (NeverRefused(db, programs, k) ==> Refused(w.log, db, k) == 0)
  {
    var w := After(hash, Begin(db, programs), ts);
    NoLostUpdate(hash, db, programs, ts, k);
    FinishedSum(hash, db, programs, ts, k);
    CompletedOrRefused(w.log, db, k);
    LogOnlyIncrements(hash, db, programs, ts, k);
    if NeverRefused(db, programs, k) {
      LogNeverRefused(w.log, db, programs, k);
      NoneRefused(w.log, db, k);
    }
  }

  lemma LogNeverRefused(log: seq<(nat, Op)>, db: Db, programs: seq<seq<Op>>, k: Key)
    requires NeverRefused(db, programs, k) && LogWithin(log, programs)
    ensures HasCounter(Lookup(db, k)) || forall i, r :: 0 <= i < |log| && log[i].1.key == k ==> log[i].1.act(r).Put?
  {
    if !HasCounter(Lookup(db, k)) {
      forall i, r | 0 <= i < |log| && log[i].1.key == k ensures log[i].1.act(r).Put? {
        assert log[i].1 in programs[log[i].0];
      }
    }
  }
}
