/**
 A batch under the striped locks: when it waits, what an exception ends, and that run alone
 it does what the handler does.
 */
module LockedBatches {
  import opened Bytes
  import opened Store
  import opened JsonNumber
  import opened StoreOps
  import opened StripedLocks
  import opened LockedCounters

  // ---------------------------------------------------------------- waiting

  /** A thread waits exactly for another one that is busy with a key of the same stripe, of 1024. */
  lemma WaitsIff(hash: Key -> nat, w: World, t: nat)
    requires Excludes(hash, w) && t < |w.threads|
    ensures Spins(hash, w, t) <==>
            && w.threads[t].pc == Idle && w.threads[t].todo != []
            && exists u :: 0 <= u < |w.threads| && u != t && w.threads[u].pc != Idle && w.threads[u].todo != []
                 && hash(w.threads[u].todo[0].key) % 1024 == hash(w.threads[t].todo[0].key) % 1024
  {
    if w.threads[t].pc == Idle && w.threads[t].todo != [] {
      var b := Stripe(hash, w.threads[t].todo[0].key);
      if b in w.held {
        var u :| 0 <= u < |w.threads| && HeldBy(hash, w.threads[u]) == Some(b);
        assert u != t && w.threads[u].pc != Idle && w.threads[u].todo != [];
      }
      if u :| 0 <= u < |w.threads| && u != t && w.threads[u].pc != Idle && w.threads[u].todo != []
              && hash(w.threads[u].todo[0].key) % 1024 == hash(w.threads[t].todo[0].key) % 1024 {
        assert HeldBy(hash, w.threads[u]) == Some(b);
      }
    }
  }

  // ---------------------------------------------------------------- exceptions

  /** The `i`th logged operation threw. */
  predicate Threw(log: seq<(nat, Op)>, i: nat, db0: Db)
    requires i < |log|
  {
    log[i].1.act(Lookup(Replay(log[..i], db0), log[i].1.key)).Throw?
  }

  predicate IsOver(th: Thread) {
    (th.pc == Written && |th.todo| == 1) || (th.pc == Idle && th.todo == [])
  }

  /** After an operation that threw, its thread logs nothing more and has nothing left to do. */
  ghost predicate ThrowEnds(w: World, db0: Db) {
    && (forall i, j :: 0 <= i < j < |w.log| && w.log[i].0 == w.log[j].0 ==> !Threw(w.log, i, db0))
    && forall i :: 0 <= i < |w.log| && w.log[i].0 < |w.threads| && Threw(w.log, i, db0) ==>
         IsOver(w.threads[w.log[i].0])
  }

  lemma ThrewBefore(log: seq<(nat, Op)>, e: (nat, Op), i: nat, db0: Db)
    requires i < |log|
    ensures Threw(log + [e], i, db0) == Threw(log, i, db0)
  {
    assert (log + [e])[..i] == log[..i];
  }

  lemma ThrewLast(log: seq<(nat, Op)>, e: (nat, Op), db0: Db)
    ensures Threw(log + [e], |log|, db0) == e.1.act(Lookup(Replay(log, db0), e.1.key)).Throw?
  {
    assert (log + [e])[..|log|] == log;
  }

  lemma WriteThrowEnds(hash: Key -> nat, w: World, t: nat, db0: Db, programs: seq<seq<Op>>)
    requires Inv(hash, w, db0, programs) && ThrowEnds(w, db0) && Unfinished(w, t) && w.threads[t].pc.Read?
    ensures ThrowEnds(Step(hash, w, t), db0)
  {
    var w' := Step(hash, w, t);
    var op := w.threads[t].todo[0];
    assert w'.log == w.log + [(t, op)];
    ThrewLast(w.log, (t, op), db0);
    forall i | 0 <= i < |w.log| ensures Threw(w'.log, i, db0) == Threw(w.log, i, db0) {
      ThrewBefore(w.log, (t, op), i, db0);
    }
    assert forall i :: 0 <= i < |w.log| && w.log[i].0 == t ==> !Threw(w.log, i, db0) by {
      assert !IsOver(w.threads[t]);
    }
    forall i, j | 0 <= i < j < |w'.log| && w'.log[i].0 == w'.log[j].0 ensures !Threw(w'.log, i, db0) {
      assert w'.log[i] == w.log[i];
    }
  }

  lemma StepThrowEnds(hash: Key -> nat, w: World, t: nat, db0: Db, programs: seq<seq<Op>>)
    requires Inv(hash, w, db0, programs) && ThrowEnds(w, db0) && Unfinished(w, t)
    ensures ThrowEnds(Step(hash, w, t), db0)
  {
    if w.threads[t].pc.Read? {
      WriteThrowEnds(hash, w, t, db0, programs);
    }
  }

  lemma {:induction false} RunThrowEnds(hash: Key -> nat, w: World, ts: seq<nat>, db0: Db, programs: seq<seq<Op>>)
    requires Inv(hash, w, db0, programs) && ThrowEnds(w, db0) && Schedule(hash, w, ts)
    ensures ThrowEnds(After(hash, w, ts), db0)
    decreases |ts|
  {
    if ts != [] {
      StepInv(hash, w, ts[0], db0, programs);
      StepThrowEnds(hash, w, ts[0], db0, programs);
      RunThrowEnds(hash, Step(hash, w, ts[0]), ts[1..], db0, programs);
    }
  }

  /** Over every run: once an operation of a batch has thrown, nothing of that batch is done any more. */
  lemma ThrowEndsBatch(hash: Key -> nat, db: Db, programs: seq<seq<Op>>, ts: seq<nat>)
    requires Schedule(hash, Begin(db, programs), ts)
    ensures var log := After(hash, Begin(db, programs), ts).log;
            forall i, j :: 0 <= i < j < |log| && log[i].0 == log[j].0 ==> !Threw(log, i, db)
  {
    BeginInv(hash, db, programs);
    RunThrowEnds(hash, Begin(db, programs), ts, db, programs);
  }

  // ---------------------------------------------------------------- a batch run alone

  /** The operations one after another, up to one that throws. */
  function InTurn(ops: seq<Op>, db: Db): Db
    decreases |ops|
  {
    if ops == [] then db
    else
      var v := ops[0].act(Lookup(db, ops[0].key));
      if v.Throw? then db else InTurn(ops[1..], Settle(db, ops[0].key, v))
  }

  /** What the one thread there is will leave. */
  function Future(w: World): Db
    requires |w.threads| == 1 && WellFormed(w.threads[0])
  {
    InTurn(Remaining(w.threads[0]), w.db)
  }

  lemma SoloStep(hash: Key -> nat, w: World)
    requires |w.threads| == 1 && WellFormed(w.threads[0]) && CopiesCurrent(w) && Unfinished(w, 0)
    ensures var w' := Step(hash, w, 0);
            |w'.threads| == 1 && WellFormed(w'.threads[0]) && Future(w') == Future(w)
  {
  }

  lemma {:induction false} SoloRun(hash: Key -> nat, w: World, ts: seq<nat>, db0: Db, programs: seq<seq<Op>>)
    requires Inv(hash, w, db0, programs) && |w.threads| == 1 && Schedule(hash, w, ts)
    ensures var w' := After(hash, w, ts);
            |w'.threads| == 1 && WellFormed(w'.threads[0]) && Future(w') == Future(w)
    decreases |ts|
  {
    if ts != [] {
      SoloStep(hash, w);
      StepInv(hash, w, ts[0], db0, programs);
      SoloRun(hash, Step(hash, w, ts[0]), ts[1..], db0, programs);
    }
  }

  /** A batch run by one thread alone leaves, when it is done, what its operations leave in turn. */
  lemma SoloBatch(hash: Key -> nat, db: Db, ops: seq<Op>, ts: seq<nat>)
    requires Schedule(hash, Begin(db, [ops]), ts) && AllDone(After(hash, Begin(db, [ops]), ts))
    ensures After(hash, Begin(db, [ops]), ts).db == InTurn(ops, db)
  {
    var w := After(hash, Begin(db, [ops]), ts);
    BeginInv(hash, db, [ops]);
    SoloRun(hash, Begin(db, [ops]), ts, db, [ops]);
    assert !Unfinished(w, 0);
  }

  function IncOps(batch: seq<Delta>): (ops: seq<Op>)
    ensures |ops| == |batch| && forall i :: 0 <= i < |batch| ==> ops[i] == IncOp(batch[i].0, batch[i].1)
  {
    seq(|batch|, i requires 0 <= i < |batch| => IncOp(batch[i].0, batch[i].1))
  }

  function IncAddOps(batch: seq<Delta>, def: map<Key, int>): (ops: seq<Op>)
    ensures |ops| == |batch| && forall i :: 0 <= i < |batch| ==> ops[i] == IncAddOp(batch[i].0, batch[i].1, def)
  {
    seq(|batch|, i requires 0 <= i < |batch| => IncAddOp(batch[i].0, batch[i].1, def))
  }

  /** For `inc` that is what the handler leaves, also when it throws. */
  lemma {:induction false} IncInTurn(db: Db, batch: seq<Delta>)
    ensures InTurn(IncOps(batch), db) == Inc(db, batch).db
    decreases |batch|
  {
    if batch != [] {
      var (k, d) := batch[0];
      assert IncOps(batch)[1..] == IncOps(batch[1..]);
      if k !in db {
        IncInTurn(db, batch[1..]);
      } else if ReadCounter(db[k]).Ok? {
        IncInTurn(Settle(db, k, IncOp(k, d).act(Some(db[k]))), batch[1..]);
      }
    }
  }

  lemma FirstPuts(ops: seq<Op>, db: Db, text: Value)
    requires ops != [] && ops[0].act(Lookup(db, ops[0].key)) == Put(text)
    ensures InTurn(ops, db) == InTurn(ops[1..], db[ops[0].key := text])
  {
  }

  lemma IncAddPuts(db: Db, k: Key, d: int, def: map<Key, int>)
    ensures IncAddOp(k, d, def).act(Lookup(db, k)) == Put(Decimal(StartFrom(db, k, def) + d))
  {
    assert NumberOf(Lookup(db, k), Default(def, k)) == StartFrom(db, k, def);
  }

  lemma IncAddStep(db: Db, batch: seq<Delta>, def: map<Key, int>)
    requires batch != []
    ensures InTurn(IncAddOps(batch, def), db) == InTurn(IncAddOps(batch[1..], def), IncAddedOne(db, batch[0], def))
  {
    var (k, d) := batch[0];
    IncAddPuts(db, k, d, def);
    FirstPuts(IncAddOps(batch, def), db, Decimal(StartFrom(db, k, def) + d));
    assert IncAddOps(batch, def)[1..] == IncAddOps(batch[1..], def);
  }

  /** And for `inc_add`. */
  lemma {:induction false} IncAddInTurn(db: Db, batch: seq<Delta>, def: map<Key, int>)
    ensures InTurn(IncAddOps(batch, def), db) == IncAdd(db, batch, def).0
    decreases |batch|
  {
    if batch != [] {
      IncAddStep(db, batch, def);
      IncAddInTurn(IncAddedOne(db, batch[0], def), batch[1..], def);
    }
  }
}
