/**
 Read-modify-write operations of many threads under 1024 striped spinlocks.

 Each thread works through its operations one by one: take the stripe of the key, read
 the store, write the result, release the stripe.  These are four separate steps, and the
 steps of all threads interleave freely.  The hash is an arbitrary function.
 */
module StripedLocks {
  import opened Bytes
  import opened Store

  const STRIPES := 1024

  /** What an operation does once it has read its key. */
  datatype Verdict = Put(value: Value) | Erase | Skip | Throw

  /** An operation on one key; `delta` and the default `start` are meaningful for increments only. */
  datatype Op = Op(key: Key, act: Option<Value> -> Verdict, delta: int, start: int)

  datatype Pc = Idle | Holding | Read(copy: Option<Value>) | Written

  /** `dropped` keeps the operations a thread gave up because one of them threw. */
  datatype Thread = Thread(todo: seq<Op>, pc: Pc, dropped: seq<Op>)

  /** `log` is a history variable: the operations in the order of their write steps, with their threads. */
  datatype World = World(db: Db, held: set<nat>, threads: seq<Thread>, log: seq<(nat, Op)>)

  function Stripe(hash: Key -> nat, k: Key): nat {
    hash(k) % STRIPES
  }

  function Settle(db: Db, k: Key, v: Verdict): Db {
    match v
    case Put(value) => db[k := value]
    case Erase => db - {k}
    case _ => db
  }

  /** An operation run alone, from reading to writing. */
  function Atomically(op: Op, db: Db): Db {
    Settle(db, op.key, op.act(Lookup(db, op.key)))
  }

  function Replay(log: seq<(nat, Op)>, db: Db): Db
    decreases |log|
  {
    if log == [] then db else Atomically(log[|log| - 1].1, Replay(log[..|log| - 1], db))
  }

  function Begin(db: Db, programs: seq<seq<Op>>): World {
    World(db, {}, seq(|programs|, i requires 0 <= i < |programs| => Thread(programs[i], Idle, [])), [])
  }

  // ---------------------------------------------------------------- steps

  predicate Unfinished(w: World, t: nat) {
    t < |w.threads| && (w.threads[t].todo != [] || w.threads[t].pc != Idle)
  }

  predicate WellFormed(th: Thread) {
    th.pc != Idle ==> th.todo != []
  }

  /** The thread finds its stripe taken and tries again. */
  predicate Spins(hash: Key -> nat, w: World, t: nat)
    requires t < |w.threads| && WellFormed(w.threads[t])
  {
    var th := w.threads[t];
    th.pc == Idle && th.todo != [] && Stripe(hash, th.todo[0].key) in w.held
  }

  /** The next atomic step of thread `t`. */
  function Step(hash: Key -> nat, w: World, t: nat): World
    requires Unfinished(w, t) && WellFormed(w.threads[t])
  {
    var th := w.threads[t];
    var op := th.todo[0];
    var b := Stripe(hash, op.key);
    match th.pc
    case Idle =>
      if b in w.held then w
      else w.(held := w.held + {b}, threads := w.threads[t := th.(pc := Holding)])
    case Holding =>
      w.(threads := w.threads[t := th.(pc := Read(Lookup(w.db, op.key)))])
    case Read(copy) =>
      var v := op.act(copy);
      var th1 := if v.Throw? then Thread([op], Written, th.todo[1..] + th.dropped) else th.(pc := Written);
      w.(db := Settle(w.db, op.key, v), threads := w.threads[t := th1], log := w.log + [(t, op)])
    case Written =>
      w.(held := w.held - {b}, threads := w.threads[t := th.(pc := Idle, todo := th.todo[1..])])
  }

  // ---------------------------------------------------------------- the invariant

  function ByThread(log: seq<(nat, Op)>, t: nat): seq<Op>
    decreases |log|
  {
    if log == [] then []
    else ByThread(log[..|log| - 1], t) + (if log[|log| - 1].0 == t then [log[|log| - 1].1] else [])
  }

  function Remaining(th: Thread): seq<Op>
    requires WellFormed(th)
  {
    if th.pc == Written then th.todo[1..] else th.todo
  }

  /** The stripe a thread is inside of. */
  function HeldBy(hash: Key -> nat, th: Thread): Option<nat> {
    if th.pc == Idle || th.todo == [] then None else Some(Stripe(hash, th.todo[0].key))
  }

  ghost predicate Excludes(hash: Key -> nat, w: World) {
    && (forall t :: 0 <= t < |w.threads| ==> WellFormed(w.threads[t]))
    && (forall t :: 0 <= t < |w.threads| && HeldBy(hash, w.threads[t]).Some? ==>
          HeldBy(hash, w.threads[t]).value in w.held)
    && (forall b :: b in w.held ==> exists t :: 0 <= t < |w.threads| && HeldBy(hash, w.threads[t]) == Some(b))
    && (forall t, u :: 0 <= t < u < |w.threads| && HeldBy(hash, w.threads[t]).Some? ==>
          HeldBy(hash, w.threads[t]) != HeldBy(hash, w.threads[u]))
  }

  /** What a thread has read and not yet written back is still what the store holds. */
  ghost predicate CopiesCurrent(w: World) {
    forall t :: 0 <= t < |w.threads| && w.threads[t].pc.Read? && w.threads[t].todo != [] ==>
      w.threads[t].pc.copy == Lookup(w.db, w.threads[t].todo[0].key)
  }

  ghost predicate Inv(hash: Key -> nat, w: World, db0: Db, programs: seq<seq<Op>>) {
    && Excludes(hash, w)
    && CopiesCurrent(w)
    && w.db == Replay(w.log, db0)
    && |w.threads| == |programs|
    && forall t :: 0 <= t < |programs| ==>
         programs[t] == ByThread(w.log, t) + Remaining(w.threads[t]) + w.threads[t].dropped
  }

  lemma BeginInv(hash: Key -> nat, db: Db, programs: seq<seq<Op>>)
    ensures Inv(hash, Begin(db, programs), db, programs)
  {
    var w := Begin(db, programs);
    forall t | 0 <= t < |programs|
      ensures programs[t] == ByThread(w.log, t) + Remaining(w.threads[t]) + w.threads[t].dropped
    {
      assert [] + programs[t] + [] == programs[t];
    }
  }

  lemma LogOne(log: seq<(nat, Op)>, t: nat, op: Op, db: Db)
    ensures Replay(log + [(t, op)], db) == Atomically(op, Replay(log, db))
    ensures forall u :: ByThread(log + [(t, op)], u) == ByThread(log, u) + (if u == t then [op] else [])
  {
    assert (log + [(t, op)])[..|log|] == log;
  }

  lemma Exclusive(hash: Key -> nat, w: World, t: nat, u: nat)
    requires Excludes(hash, w) && t < |w.threads| && u < |w.threads| && t != u && HeldBy(hash, w.threads[t]).Some?
    ensures HeldBy(hash, w.threads[t]) != HeldBy(hash, w.threads[u])
  {
    var (a, b) := if t < u then (t, u) else (u, t);
    if HeldBy(hash, w.threads[a]).Some? {
      assert HeldBy(hash, w.threads[a]) != HeldBy(hash, w.threads[b]);
    }
  }

  lemma AcquireExcludes(hash: Key -> nat, w: World, t: nat)
    requires Excludes(hash, w) && Unfinished(w, t) && w.threads[t].pc == Idle
    ensures Excludes(hash, Step(hash, w, t))
  {
    var w' := Step(hash, w, t);
    var b := Stripe(hash, w.threads[t].todo[0].key);
    if b !in w.held {
      assert HeldBy(hash, w'.threads[t]) == Some(b);
      assert forall u | 0 <= u < |w.threads| && u != t ::
          w'.threads[u] == w.threads[u] && HeldBy(hash, w.threads[u]) != Some(b);
      forall x | x in w'.held ensures exists u :: 0 <= u < |w'.threads| && HeldBy(hash, w'.threads[u]) == Some(x) {
        if x != b {
          var u :| 0 <= u < |w.threads| && HeldBy(hash, w.threads[u]) == Some(x);
          assert HeldBy(hash, w'.threads[u]) == Some(x);
        }
      }
    }
  }

  lemma InsideExcludes(hash: Key -> nat, w: World, t: nat)
    requires Excludes(hash, w) && Unfinished(w, t) && (w.threads[t].pc == Holding || w.threads[t].pc.Read?)
    ensures Excludes(hash, Step(hash, w, t))
  {
    var w' := Step(hash, w, t);
    assert forall u | 0 <= u < |w.threads| :: HeldBy(hash, w'.threads[u]) == HeldBy(hash, w.threads[u]);
    forall x | x in w'.held ensures exists u :: 0 <= u < |w'.threads| && HeldBy(hash, w'.threads[u]) == Some(x) {
      var u :| 0 <= u < |w.threads| && HeldBy(hash, w.threads[u]) == Some(x);
      assert HeldBy(hash, w'.threads[u]) == Some(x);
    }
  }

  lemma ReleaseExcludes(hash: Key -> nat, w: World, t: nat)
    requires Excludes(hash, w) && Unfinished(w, t) && w.threads[t].pc == Written
    ensures Excludes(hash, Step(hash, w, t))
  {
    var w' := Step(hash, w, t);
    var b := Stripe(hash, w.threads[t].todo[0].key);
    assert HeldBy(hash, w.threads[t]) == Some(b) && HeldBy(hash, w'.threads[t]) == None;
    forall u | 0 <= u < |w.threads| && u != t
      ensures w'.threads[u] == w.threads[u] && HeldBy(hash, w.threads[u]) != Some(b)
    {
      Exclusive(hash, w, t, u);
    }
    forall x | x in w'.held ensures exists u :: 0 <= u < |w'.threads| && HeldBy(hash, w'.threads[u]) == Some(x) {
      var u :| 0 <= u < |w.threads| && HeldBy(hash, w.threads[u]) == Some(x);
      assert HeldBy(hash, w'.threads[u]) == Some(x);
    }
  }

  lemma StepExcludes(hash: Key -> nat, w: World, t: nat)
    requires Excludes(hash, w) && Unfinished(w, t)
    ensures Excludes(hash, Step(hash, w, t))
  {
    match w.threads[t].pc
    case Idle => AcquireExcludes(hash, w, t);
    case Written => ReleaseExcludes(hash, w, t);
    case _ => InsideExcludes(hash, w, t);
  }

  lemma SettleElsewhere(db: Db, k: Key, v: Verdict, x: Key)
    requires x != k
    ensures Lookup(Settle(db, k, v), x) == Lookup(db, x)
  {
  }

  lemma StepCopies(hash: Key -> nat, w: World, t: nat)
    requires Excludes(hash, w) && CopiesCurrent(w) && Unfinished(w, t)
    ensures CopiesCurrent(Step(hash, w, t))
  {
    var w' := Step(hash, w, t);
    forall u | 0 <= u < |w'.threads| && w'.threads[u].pc.Read? && w'.threads[u].todo != []
      ensures w'.threads[u].pc.copy == Lookup(w'.db, w'.threads[u].todo[0].key)
    {
      if u != t && w.threads[t].pc.Read? {
        Exclusive(hash, w, t, u);
        var op := w.threads[t].todo[0];
        SettleElsewhere(w.db, op.key, op.act(w.threads[t].pc.copy), w.threads[u].todo[0].key);
      }
    }
  }

  lemma StepLog(hash: Key -> nat, w: World, t: nat, db0: Db)
    requires Excludes(hash, w) && CopiesCurrent(w) && Unfinished(w, t) && w.db == Replay(w.log, db0)
    ensures Step(hash, w, t).db == Replay(Step(hash, w, t).log, db0)
  {
    if w.threads[t].pc.Read? {
      LogOne(w.log, t, w.threads[t].todo[0], db0);
    }
  }

  lemma MoveAcross<T>(done: seq<T>, x: T, rest: seq<T>, dropped: seq<T>)
    ensures done + ([x] + rest) + dropped == (done + [x]) + rest + dropped
    ensures done + ([x] + rest) + dropped == (done + [x]) + [] + (rest + dropped)
  {
  }

  /** Writing moves the current operation from the remaining ones to the done ones. */
  lemma WriteOrder(done: seq<Op>, th: Thread, throws: bool)
    requires th.pc.Read? && th.todo != []
    ensures var op := th.todo[0];
            var th1 := if throws then Thread([op], Written, th.todo[1..] + th.dropped) else th.(pc := Written);
            done + Remaining(th) + th.dropped == (done + [op]) + Remaining(th1) + th1.dropped
  {
    assert th.todo == [th.todo[0]] + th.todo[1..];
    MoveAcross(done, th.todo[0], th.todo[1..], th.dropped);
    assert [th.todo[0]][1..] == [];
  }

  lemma StepOrder(hash: Key -> nat, w: World, t: nat, u: nat, program: seq<Op>)
    requires Unfinished(w, t) && WellFormed(w.threads[t]) && u < |w.threads|
    requires WellFormed(w.threads[u]) && WellFormed(Step(hash, w, t).threads[u])
    requires program == ByThread(w.log, u) + Remaining(w.threads[u]) + w.threads[u].dropped
    ensures var w' := Step(hash, w, t);
            program == ByThread(w'.log, u) + Remaining(w'.threads[u]) + w'.threads[u].dropped
  {
    var th := w.threads[t];
    if th.pc.Read? {
      var op := th.todo[0];
      LogOne(w.log, t, op, map[]);
      if u == t {
        WriteOrder(ByThread(w.log, t), th, op.act(th.pc.copy).Throw?);
      } else {
        assert ByThread(w.log, u) + [] == ByThread(w.log, u);
      }
    }
  }

  lemma StepInv(hash: Key -> nat, w: World, t: nat, db0: Db, programs: seq<seq<Op>>)
    requires Inv(hash, w, db0, programs) && Unfinished(w, t)
    ensures Inv(hash, Step(hash, w, t), db0, programs)
  {
    StepExcludes(hash, w, t);
    StepCopies(hash, w, t);
    StepLog(hash, w, t, db0);
    var w' := Step(hash, w, t);
    forall u | 0 <= u < |programs|
      ensures programs[u] == ByThread(w'.log, u) + Remaining(w'.threads[u]) + w'.threads[u].dropped
    {
      StepOrder(hash, w, t, u, programs[u]);
    }
  }

  // ---------------------------------------------------------------- whole runs

  /** A schedule names, step by step, which thread moves. */
  ghost predicate Schedule(hash: Key -> nat, w: World, ts: seq<nat>)
    decreases |ts|
  {
    ts == [] || (Unfinished(w, ts[0]) && WellFormed(w.threads[ts[0]]) && Schedule(hash, Step(hash, w, ts[0]), ts[1..]))
  }

  function After(hash: Key -> nat, w: World, ts: seq<nat>): World
    requires Schedule(hash, w, ts)
    decreases |ts|
  {
    if ts == [] then w else After(hash, Step(hash, w, ts[0]), ts[1..])
  }

  lemma {:induction false} RunInv(hash: Key -> nat, w: World, ts: seq<nat>, db0: Db, programs: seq<seq<Op>>)
    requires Inv(hash, w, db0, programs) && Schedule(hash, w, ts)
    ensures Inv(hash, After(hash, w, ts), db0, programs)
    decreases |ts|
  {
    if ts != [] {
      StepInv(hash, w, ts[0], db0, programs);
      RunInv(hash, Step(hash, w, ts[0]), ts[1..], db0, programs);
    }
  }

  /**
   Every interleaving amounts to running the operations one after another: at any moment
   the store is what the logged operations make of the starting store when each runs
   alone, and each thread's operations appear in the log in the thread's own order.
   */
  lemma Serializable(hash: Key -> nat, db: Db, programs: seq<seq<Op>>, ts: seq<nat>)
    requires Schedule(hash, Begin(db, programs), ts)
    ensures var w := After(hash, Begin(db, programs), ts);
            && w.db == Replay(w.log, db)
            && forall t :: 0 <= t < |programs| ==> ByThread(w.log, t) <= programs[t]
  {
    BeginInv(hash, db, programs);
    RunInv(hash, Begin(db, programs), ts, db, programs);
    OwnOrder(hash, After(hash, Begin(db, programs), ts), db, programs);
  }

  lemma OwnOrder(hash: Key -> nat, w: World, db: Db, programs: seq<seq<Op>>)
    requires Inv(hash, w, db, programs)
    ensures forall t :: 0 <= t < |programs| ==> ByThread(w.log, t) <= programs[t]
  {
    forall t | 0 <= t < |programs| ensures ByThread(w.log, t) <= programs[t] {
      assert programs[t] == ByThread(w.log, t) + Remaining(w.threads[t]) + w.threads[t].dropped;
    }
  }

  /** No stripe ever has two holders. */
  lemma MutualExclusion(hash: Key -> nat, db: Db, programs: seq<seq<Op>>, ts: seq<nat>, w: World, t: nat, u: nat)
    requires Schedule(hash, Begin(db, programs), ts) && After(hash, Begin(db, programs), ts) == w
    requires t < |w.threads| && u < |w.threads| && t != u
    ensures HeldBy(hash, w.threads[t]).Some? ==> HeldBy(hash, w.threads[t]) != HeldBy(hash, w.threads[u])
  {
    BeginInv(hash, db, programs);
    RunInv(hash, Begin(db, programs), ts, db, programs);
    if HeldBy(hash, w.threads[t]).Some? {
      Exclusive(hash, w, t, u);
    }
  }

  // ---------------------------------------------------------------- what the log holds

  ghost predicate LogWithin(log: seq<(nat, Op)>, programs: seq<seq<Op>>) {
    forall i :: 0 <= i < |log| ==> log[i].0 < |programs| && log[i].1 in programs[log[i].0]
  }

  lemma StepLogWithin(hash: Key -> nat, w: World, t: nat, db0: Db, programs: seq<seq<Op>>)
    requires Inv(hash, w, db0, programs) && Unfinished(w, t) && LogWithin(w.log, programs)
    ensures LogWithin(Step(hash, w, t).log, programs)
  {
    var th := w.threads[t];
    if th.pc.Read? {
      assert programs[t] == ByThread(w.log, t) + Remaining(th) + th.dropped;
      assert th.todo[0] in Remaining(th);
    }
  }

  lemma {:induction false} RunLogWithin(hash: Key -> nat, w: World, ts: seq<nat>, db0: Db, programs: seq<seq<Op>>)
    requires Inv(hash, w, db0, programs) && Schedule(hash, w, ts) && LogWithin(w.log, programs)
    ensures LogWithin(After(hash, w, ts).log, programs)
    decreases |ts|
  {
    if ts != [] {
      StepInv(hash, w, ts[0], db0, programs);
      StepLogWithin(hash, w, ts[0], db0, programs);
      RunLogWithin(hash, Step(hash, w, ts[0]), ts[1..], db0, programs);
    }
  }

  // ---------------------------------------------------------------- progress

  ghost predicate AllDone(w: World) {
    forall t :: 0 <= t < |w.threads| ==> !Unfinished(w, t)
  }

  /** While a thread is unfinished, some thread can make a step that is not a spin. */
  lemma SomeoneMoves(hash: Key -> nat, w: World, t: nat) returns (u: nat)
    requires Excludes(hash, w) && Unfinished(w, t)
    ensures Unfinished(w, u) && WellFormed(w.threads[u]) && !Spins(hash, w, u)
  {
    if Spins(hash, w, t) {
      var b := Stripe(hash, w.threads[t].todo[0].key);
      u :| 0 <= u < |w.threads| && HeldBy(hash, w.threads[u]) == Some(b);
    } else {
      u := t;
    }
  }

  function Effort(th: Thread): nat {
    4 * |th.todo| + (match th.pc case Idle => 3 case Holding => 2 case Read(_) => 1 case Written => 0)
  }

  function TotalEffort(ths: seq<Thread>): nat
    decreases |ths|
  {
    if ths == [] then 0 else Effort(ths[0]) + TotalEffort(ths[1..])
  }

  lemma {:induction false} EffortUpdate(ths: seq<Thread>, t: nat, th: Thread)
    requires t < |ths|
    ensures TotalEffort(ths[t := th]) == TotalEffort(ths) - Effort(ths[t]) + Effort(th)
    decreases |ths|
  {
    if t > 0 {
      EffortUpdate(ths[1..], t - 1, th);
      assert ths[t := th][1..] == ths[1..][t - 1 := th];
    } else {
      assert ths[t := th][1..] == ths[1..];
    }
  }

  /** Every step that is not a spin uses up a bounded supply, so every fair schedule finishes all threads. */
  lemma MovesAreBounded(hash: Key -> nat, w: World, t: nat)
    requires Unfinished(w, t) && WellFormed(w.threads[t]) && !Spins(hash, w, t)
    ensures TotalEffort(Step(hash, w, t).threads) < TotalEffort(w.threads)
  {
    EffortUpdate(w.threads, t, Step(hash, w, t).threads[t]);
    assert Step(hash, w, t).threads == w.threads[t := Step(hash, w, t).threads[t]];
  }

  /** From every reachable state some schedule finishes all threads: there is no deadlock. */
  lemma {:induction false} CanFinish(hash: Key -> nat, w: World) returns (ts: seq<nat>)
    requires Excludes(hash, w)
    ensures Schedule(hash, w, ts) && AllDone(After(hash, w, ts))
    decreases TotalEffort(w.threads)
  {
    ts := [];
    if t :| 0 <= t < |w.threads| && Unfinished(w, t) {
      var u := SomeoneMoves(hash, w, t);
      MovesAreBounded(hash, w, u);
      StepExcludes(hash, w, u);
      var rest := CanFinish(hash, Step(hash, w, u));
      ts := [u] + rest;
      assert ts[1..] == rest;
    }
  }
}
