/**
 The request handlers that change the store and what they hand to replication, as
 functions of the store.

 Store writes are taken to succeed.  The module Handlers holds the methods that do the
 same in place.
 */
module StoreOps {
  import opened Bytes
  import opened Sequences
  import opened Store
  import opened JsonNumber
  import opened JsonString
  import opened JsonContainer

  type Delta = (Key, int)

  /** What a batch left behind: the new store and the pairs put, or an exception with the puts made so far. */
  datatype Batch = Done(db: Db, put: seq<Entry>) | Aborted(db: Db)

  function With(e: Entry, b: Batch): Batch {
    match b
    case Done(db, put) => Done(db, [e] + put)
    case Aborted(db) => Aborted(db)
  }

  // ---------------------------------------------------------------- counters

  /** Reads a stored counter; null counts as zero, text after the number is ignored. */
  function ReadCounter(text: seq<byte>): Parse<int> {
    if IsNull(text) then ParseNull(text, 0) else ParseInteger(text)
  }

  /** The value taken for a counter that may be unreadable. */
  function CounterOr(text: seq<byte>, default: int): int {
    match ReadCounter(text)
    case Ok(v, _) => v
    case Fail => default
  }

  lemma CounterRoundTrip(v: int)
    ensures ReadCounter(Decimal(v)) == Ok(v, [])
  {
    NumberRoundTrip(v, []);
    assert Decimal(v) + [] == Decimal(v);
    assert !IsNull(Decimal(v));
  }

  /** A counter is read as a decimal, as zero from null, or not at all; unread it counts as the default. */
  lemma CounterCases(text: seq<byte>, default: int)
    ensures text != [] && text[0] == 110 ==>
              ReadCounter(text) == if [110, 117, 108, 108] <= text then Ok(0, text[4..]) else Fail
    ensures text == [] || text[0] != 110 ==> ReadCounter(text) == ParseInteger(text)
    ensures CounterOr(text, default) == if ReadCounter(text).Ok? then ReadCounter(text).value else default
  {
  }

  // ---------------------------------------------------------------- inc

  /** Adds each delta to its counter if the key exists; an unreadable counter stops the batch. */
  function Inc(db: Db, batch: seq<Delta>): Batch
    decreases |batch|
  {
    if batch == [] then Done(db, [])
    else
      var (k, d) := batch[0];
      if k !in db then Inc(db, batch[1..])
      else
        match ReadCounter(db[k])
        case Fail => Aborted(db)
        case Ok(v, _) =>
          var text := Decimal(v + d);
          With((k, text), Inc(db[k := text], batch[1..]))
  }

  ghost predicate Readable(db: Db, batch: seq<Delta>) {
    forall i :: 0 <= i < |batch| && batch[i].0 in db ==> ReadCounter(db[batch[i].0]).Ok?
  }

  /** A batch runs to its end exactly when every counter it meets in the store can be read. */
  lemma {:induction false} IncCompletesIff(db: Db, batch: seq<Delta>)
    ensures Inc(db, batch).Done? <==> Readable(db, batch)
    decreases |batch|
  {
    if batch != [] {
      var (k, d) := batch[0];
      assert forall i | 0 <= i < |batch| - 1 :: batch[1..][i] == batch[i + 1];
      assert Readable(db, batch) <==> (k in db ==> ReadCounter(db[k]).Ok?) && Readable(db, batch[1..]) by {
        assert forall i | 0 < i < |batch| :: batch[i] == batch[1..][i - 1];
      }
      if k !in db {
        IncCompletesIff(db, batch[1..]);
      } else if ReadCounter(db[k]).Ok? {
        var v := ReadCounter(db[k]).value;
        var db1 := db[k := Decimal(v + d)];
        CounterRoundTrip(v + d);
        IncCompletesIff(db1, batch[1..]);
        assert Readable(db1, batch[1..]) <==> Readable(db, batch[1..]) by {
          assert forall x | x in db :: ReadCounter(db1[x]).Ok? <==> ReadCounter(db[x]).Ok?;
        }
      }
    }
  }

  /** A completed batch: what is emitted, run on the store as it was, gives the store as it is. */
  lemma {:induction false} IncReplicates(db: Db, batch: seq<Delta>)
    requires Inc(db, batch).Done?
    ensures Run(Set(Inc(db, batch).put), db) == Inc(db, batch).db
    decreases |batch|
  {
    if batch != [] {
      var (k, d) := batch[0];
      if k !in db {
        IncReplicates(db, batch[1..]);
      } else {
        var text := Decimal(ReadCounter(db[k]).value + d);
        var db1 := db[k := text];
        IncReplicates(db1, batch[1..]);
        assert ([(k, text)] + Inc(db1, batch[1..]).put)[1..] == Inc(db1, batch[1..]).put;
      }
    }
  }

  function SumFor(batch: seq<Delta>, k: Key): int
    decreases |batch|
  {
    if batch == [] then 0 else (if batch[0].0 == k then batch[0].1 else 0) + SumFor(batch[1..], k)
  }

  /** Every existing counter moves by the sum of its deltas, repeated keys included; absent keys stay absent. */
  lemma {:induction false} IncAdds(db: Db, batch: seq<Delta>, k: Key)
    requires Inc(db, batch).Done?
    ensures k in Inc(db, batch).db <==> k in db
    ensures k in db && ReadCounter(db[k]).Ok? ==>
              CounterOr(Inc(db, batch).db[k], 0) == CounterOr(db[k], 0) + SumFor(batch, k)
    decreases |batch|
  {
    if batch != [] {
      var (x, d) := batch[0];
      if x !in db {
        IncAdds(db, batch[1..], k);
      } else {
        var v := ReadCounter(db[x]).value;
        CounterRoundTrip(v + d);
        IncAdds(db[x := Decimal(v + d)], batch[1..], k);
      }
    }
  }

  lemma SumForOne(batch: seq<Delta>)
    requires |batch| == 1
    ensures SumFor(batch, batch[0].0) == batch[0].1 && batch[..0] == [] && batch[1..] == []
  {
    assert SumFor(batch[1..], batch[0].0) == 0;
  }

  lemma SplitLast(batch: seq<Delta>)
    requires |batch| > 1
    ensures batch[1..][..|batch| - 2] == batch[..|batch| - 1][1..]
    ensures batch[1..][|batch| - 2] == batch[|batch| - 1]
  {
  }

  /** What the last delta of a batch adds to what `inc` reports: the number so far, if the key is stored. */
  function LastIncReport(db: Db, batch: seq<Delta>): seq<Entry>
    requires batch != []
  {
    var k := batch[|batch| - 1].0;
    if k in db then [(k, Decimal(CounterOr(db[k], 0) + SumFor(batch, k)))] else []
  }

  /** The store and the report after the first delta of a batch that completes. */
  function IncrementedOne(db: Db, e: Delta): (Db, seq<Entry>) {
    if e.0 !in db then (db, [])
    else
      var text := Decimal(CounterOr(db[e.0], 0) + e.1);
      (db[e.0 := text], [(e.0, text)])
  }

  lemma IncFirst(db: Db, batch: seq<Delta>)
    requires batch != [] && (batch[0].0 in db ==> ReadCounter(db[batch[0].0]).Ok?)
    ensures var (db1, front) := IncrementedOne(db, batch[0]);
            var rest := Inc(db1, batch[1..]);
            && Inc(db, batch).Done? == rest.Done? && Inc(db, batch).db == rest.db
            && (rest.Done? ==> Inc(db, batch).put == front + rest.put)
  {
    var rest := Inc(db, batch[1..]);
    assert rest.Done? ==> [] + rest.put == rest.put;
  }

  lemma LastIncReportStep(db: Db, batch: seq<Delta>)
    requires |batch| > 1
    ensures LastIncReport(IncrementedOne(db, batch[0]).0, batch[1..]) == LastIncReport(db, batch)
  {
    if batch[0].0 in db {
      CounterRoundTrip(CounterOr(db[batch[0].0], 0) + batch[0].1);
    }
  }

  lemma IncReportsStep(db: Db, batch: seq<Delta>, db1: Db, front: seq<Entry>, tail: seq<Entry>)
    requires |batch| > 1 && (batch[0].0 in db ==> ReadCounter(db[batch[0].0]).Ok?)
    requires (db1, front) == IncrementedOne(db, batch[0])
    requires Inc(db1, batch[1..]).Done? && Inc(db1, batch[1..][..|batch| - 2]).Done?
    requires Inc(db1, batch[1..]).put == Inc(db1, batch[1..][..|batch| - 2]).put + tail
    ensures Inc(db, batch).Done? && Inc(db, batch[..|batch| - 1]).Done?
    ensures Inc(db, batch).put == Inc(db, batch[..|batch| - 1]).put + tail
  {
    var init := batch[..|batch| - 1];
    SplitLast(batch);
    IncFirst(db, batch);
    IncFirst(db, init);
    FrontAndBack(Inc(db, batch).put, Inc(db1, batch[1..]).put, Inc(db, init).put, Inc(db1, init[1..]).put, front, tail);
  }

  /** What `inc` reports and emits grows with each delta of a stored key by the number so far. */
  lemma {:induction false} IncReports(db: Db, batch: seq<Delta>)
    requires Inc(db, batch).Done? && batch != []
    ensures Inc(db, batch[..|batch| - 1]).Done?
    ensures Inc(db, batch).put == Inc(db, batch[..|batch| - 1]).put + LastIncReport(db, batch)
    decreases |batch|
  {
    IncFirst(db, batch);
    var (db1, front) := IncrementedOne(db, batch[0]);
    if |batch| == 1 {
      SumForOne(batch);
    } else {
      IncReports(db1, batch[1..]);
      LastIncReportStep(db, batch);
      IncReportsStep(db, batch, db1, front, LastIncReport(db, batch));
    }
  }

  /** The part of a batch before the first counter in the store that cannot be read. */
  function Attempted(db: Db, batch: seq<Delta>): (p: seq<Delta>)
    ensures p <= batch
    decreases |batch|
  {
    if batch == [] || (batch[0].0 in db && ReadCounter(db[batch[0].0]).Fail?) then []
    else
      assert batch == [batch[0]] + batch[1..];
      [batch[0]] + Attempted(db, batch[1..])
  }

  /** Adding to readable counters changes which keys are stored and which are readable not at all. */
  lemma {:induction false} AttemptedAfterPut(db: Db, k: Key, n: int, batch: seq<Delta>)
    requires k in db && ReadCounter(db[k]).Ok?
    ensures Attempted(db[k := Decimal(n)], batch) == Attempted(db, batch)
    decreases |batch|
  {
    if batch != [] {
      CounterRoundTrip(n);
      AttemptedAfterPut(db, k, n, batch[1..]);
    }
  }

  lemma AttemptedNext(db: Db, batch: seq<Delta>)
    requires batch != [] && (batch[0].0 in db ==> ReadCounter(db[batch[0].0]).Ok?)
    ensures Attempted(db, batch) != [] && Attempted(db, batch)[0] == batch[0]
    ensures Attempted(db, batch)[1..] == Attempted(db, batch[1..])
  {
  }

  /** A batch leaves what its attempted part leaves, which by itself runs to its end. */
  lemma {:induction false} IncStops(db: Db, batch: seq<Delta>)
    ensures Inc(db, Attempted(db, batch)).Done? && Inc(db, batch).db == Inc(db, Attempted(db, batch)).db
    decreases |batch|
  {
    if batch != [] && (batch[0].0 in db ==> ReadCounter(db[batch[0].0]).Ok?) {
      var (k, d) := batch[0];
      AttemptedNext(db, batch);
      if k !in db {
        IncStops(db, batch[1..]);
      } else {
        var n := ReadCounter(db[k]).value + d;
        AttemptedAfterPut(db, k, n, batch[1..]);
        IncStops(db[k := Decimal(n)], batch[1..]);
      }
    }
  }

  predicate Names(batch: seq<Delta>, k: Key) {
    exists i :: 0 <= i < |batch| && batch[i].0 == k
  }

  lemma NamesFirst(batch: seq<Delta>, k: Key)
    requires batch != []
    ensures Names(batch, k) <==> batch[0].0 == k || Names(batch[1..], k)
  {
    if Names(batch[1..], k) {
      var i :| 0 <= i < |batch[1..]| && batch[1..][i].0 == k;
      assert batch[i + 1].0 == k;
    }
    if i :| 0 <= i < |batch| && batch[i].0 == k {
      assert i > 0 ==> batch[1..][i - 1].0 == k;
    }
  }

  lemma {:induction false} SumOfOthers(batch: seq<Delta>, k: Key)
    requires !Names(batch, k)
    ensures SumFor(batch, k) == 0
    decreases |batch|
  {
    if batch != [] {
      NamesFirst(batch, k);
      SumOfOthers(batch[1..], k);
    }
  }

  lemma SumForFirst(batch: seq<Delta>, k: Key)
    requires batch != []
    ensures SumFor(batch, k) == (if batch[0].0 == k then batch[0].1 else 0) + SumFor(batch[1..], k)
    ensures Names(batch, k) <==> batch[0].0 == k || Names(batch[1..], k)
    ensures !Names(batch[1..], k) ==> SumFor(batch[1..], k) == 0
  {
    NamesFirst(batch, k);
    if !Names(batch[1..], k) {
      SumOfOthers(batch[1..], k);
    }
  }

  /** What holds a number, after a list of increments: the canonical sum if it is named, what it was if not. */
  function SumOn(text: Option<Value>, number: int, batch: seq<Delta>, k: Key): Option<Value> {
    if Names(batch, k) then Some(Decimal(number + SumFor(batch, k))) else text
  }

  lemma SumOnNext(text: Option<Value>, number: int, batch: seq<Delta>, k: Key)
    requires batch != []
    ensures SumOn(text, number, batch, k)
         == if k != batch[0].0 then SumOn(text, number, batch[1..], k)
            else SumOn(Some(Decimal(number + batch[0].1)), number + batch[0].1, batch[1..], k)
  {
    SumForFirst(batch, k);
  }

  lemma IncTextStep(db: Db, batch: seq<Delta>, k: Key)
    requires batch != [] && k in db && (batch[0].0 in db ==> ReadCounter(db[batch[0].0]).Ok?)
    ensures var db1 := IncrementedOne(db, batch[0]).0;
            && k in db1
            && SumOn(Some(db1[k]), CounterOr(db1[k], 0), batch[1..], k)
               == SumOn(Some(db[k]), CounterOr(db[k], 0), batch, k)
  {
    if batch[0].0 in db {
      CounterRoundTrip(CounterOr(db[batch[0].0], 0) + batch[0].1);
    }
    SumOnNext(Some(db[k]), CounterOr(db[k], 0), batch, k);
  }

  lemma {:induction false} IncLeaves(db: Db, batch: seq<Delta>, k: Key)
    requires Inc(db, batch).Done? && k in db
    ensures Lookup(Inc(db, batch).db, k) == SumOn(Some(db[k]), CounterOr(db[k], 0), batch, k)
    decreases |batch|
  {
    if batch != [] {
      IncFirst(db, batch);
      IncTextStep(db, batch, k);
      IncLeaves(IncrementedOne(db, batch[0]).0, batch[1..], k);
    }
  }

  /** The text a completed batch leaves in each stored key: the canonical sum if it is named, what it was if not. */
  lemma IncFinalText(db: Db, batch: seq<Delta>, k: Key)
    requires Inc(db, batch).Done? && k in db
    ensures k in Inc(db, batch).db
    ensures Inc(db, batch).db[k]
         == if Names(batch, k) then Decimal(CounterOr(db[k], 0) + SumFor(batch, k)) else db[k]
  {
    IncLeaves(db, batch, k);
  }

  /** Every stored key the batch names holds, canonically, the number the batch would leave there. */
  ghost predicate AddsNothing(db: Db, batch: seq<Delta>) {
    forall k :: k in db && Names(batch, k) ==> db[k] == Decimal(CounterOr(db[k], 0) + SumFor(batch, k))
  }

  lemma IncUnchangedIff(db: Db, batch: seq<Delta>)
    requires Inc(db, batch).Done?
    ensures Inc(db, batch).db == db <==> AddsNothing(db, batch)
  {
    var after := Inc(db, batch).db;
    forall k ensures k in after <==> k in db {
      IncAdds(db, batch, k);
    }
    forall k | k in db
      ensures after[k] == if Names(batch, k) then Decimal(CounterOr(db[k], 0) + SumFor(batch, k)) else db[k]
    {
      IncFinalText(db, batch, k);
    }
    if AddsNothing(db, batch) {
      assert after.Keys == db.Keys;
      assert after == db;
    }
  }

  /** What replication makes of the store as it was: an aborted batch emits nothing. */
  function Replicated(db: Db, b: Batch): Db {
    match b
    case Done(_, put) => Run(Set(put), db)
    case Aborted(_) => db
  }

  /**
   The replicated effect of `inc` equals its local effect if and only if every counter named
   can be read, or the part attempted before the first that cannot adds nothing.
   */
  lemma IncReplicatesIff(db: Db, batch: seq<Delta>)
    ensures Replicated(db, Inc(db, batch)) == Inc(db, batch).db <==>
            Readable(db, batch) || AddsNothing(db, Attempted(db, batch))
  {
    IncCompletesIff(db, batch);
    if Inc(db, batch).Done? {
      IncReplicates(db, batch);
    } else {
      IncStops(db, batch);
      IncUnchangedIff(db, Attempted(db, batch));
    }
  }

  /**
   An aborted batch has changed the store and emitted nothing: the first counter moves, the second
   is not a number.
   */
  lemma AbortLosesUpdates()
    ensures var a: Key, b: Key, one: Value, x: Value := [97], [98], [49], [120];
            var db: Db := map[a := one, b := x];
            Inc(db, [(a, 1), (b, 1)]) == Aborted(db[a := [50]]) && db[a := [50]] != db
  {
    var a: Key, b: Key, one: Value, x: Value := [97], [98], [49], [120];
    var db: Db := map[a := one, b := x];
    assert Decimal(1) == one;
    CounterRoundTrip(1);
    assert Decimal(2) == [50];
    var db1 := db[a := Decimal(2)];
    assert [(a, 1), (b, 1)][1..] == [(b, 1)];
    assert ReadCounter(db1[b]) == Fail;
    assert Inc(db1, [(b, 1)]) == Aborted(db1);
    assert db1[a] != db[a];
  }

  // ---------------------------------------------------------------- inc_add

  /** The number an increment starts from: the stored one, else the default, else zero. */
  function StartFrom(db: Db, k: Key, def: map<Key, int>): int {
    if k in db then CounterOr(db[k], 0) else if k in def then def[k] else 0
  }

  function IncAdd(db: Db, batch: seq<Delta>, def: map<Key, int>): (Db, seq<Entry>)
    decreases |batch|
  {
    if batch == [] then (db, [])
    else
      var (k, d) := batch[0];
      var text := Decimal(StartFrom(db, k, def) + d);
      var (db1, put) := IncAdd(db[k := text], batch[1..], def);
      (db1, [(k, text)] + put)
  }

  lemma {:induction false} IncAddReplicates(db: Db, batch: seq<Delta>, def: map<Key, int>)
    ensures Run(Set(IncAdd(db, batch, def).1), db) == IncAdd(db, batch, def).0
    decreases |batch|
  {
    if batch != [] {
      var (k, d) := batch[0];
      var db1 := db[k := Decimal(StartFrom(db, k, def) + d)];
      IncAddReplicates(db1, batch[1..], def);
      assert IncAdd(db, batch, def).1[1..] == IncAdd(db1, batch[1..], def).1;
    }
  }

  /** Each key ends at its starting number plus the sum of its deltas. */
  lemma {:induction false} IncAddAdds(db: Db, batch: seq<Delta>, def: map<Key, int>, k: Key)
    ensures var after := IncAdd(db, batch, def).0;
            StartFrom(after, k, def) == StartFrom(db, k, def) + SumFor(batch, k)
    decreases |batch|
  {
    if batch != [] {
      var (x, d) := batch[0];
      CounterRoundTrip(StartFrom(db, x, def) + d);
      IncAddAdds(db[x := Decimal(StartFrom(db, x, def) + d)], batch[1..], def, k);
    }
  }

  /** The number a request starts from, case by case: unreadable counts as zero, absent as the default or zero. */
  lemma StartCases(db: Db, k: Key, def: map<Key, int>)
    ensures k in db && ReadCounter(db[k]).Ok? ==> StartFrom(db, k, def) == ReadCounter(db[k]).value
    ensures k in db && ReadCounter(db[k]).Fail? ==> StartFrom(db, k, def) == 0
    ensures k !in db && k in def ==> StartFrom(db, k, def) == def[k]
    ensures k !in db && k !in def ==> StartFrom(db, k, def) == 0
  {
  }

  lemma IncAddTextStep(db: Db, batch: seq<Delta>, def: map<Key, int>, k: Key)
    requires batch != []
    ensures var db1 := IncAddedOne(db, batch[0], def);
            SumOn(Lookup(db1, k), StartFrom(db1, k, def), batch[1..], k)
            == SumOn(Lookup(db, k), StartFrom(db, k, def), batch, k)
  {
    CounterRoundTrip(StartFrom(db, batch[0].0, def) + batch[0].1);
    SumOnNext(Lookup(db, k), StartFrom(db, k, def), batch, k);
  }

  /** The text `inc_add` leaves in each key: the canonical sum if it is named, what it was if not. */
  lemma {:induction false} IncAddFinalText(db: Db, batch: seq<Delta>, def: map<Key, int>, k: Key)
    ensures Lookup(IncAdd(db, batch, def).0, k) == SumOn(Lookup(db, k), StartFrom(db, k, def), batch, k)
    decreases |batch|
  {
    if batch != [] {
      IncAddTextStep(db, batch, def, k);
      IncAddFinalText(IncAddedOne(db, batch[0], def), batch[1..], def, k);
    }
  }

  /** The store after the first delta of a batch. */
  function IncAddedOne(db: Db, e: Delta, def: map<Key, int>): Db {
    db[e.0 := Decimal(StartFrom(db, e.0, def) + e.1)]
  }

  lemma StartAfterOne(db: Db, batch: seq<Delta>, def: map<Key, int>, k: Key)
    requires batch != []
    ensures StartFrom(IncAddedOne(db, batch[0], def), k, def) + SumFor(batch[1..], k)
         == StartFrom(db, k, def) + SumFor(batch, k)
  {
    CounterRoundTrip(StartFrom(db, batch[0].0, def) + batch[0].1);
  }

  lemma IncAddFirst(db: Db, batch: seq<Delta>, def: map<Key, int>)
    requires batch != []
    ensures var (k, d) := batch[0];
            IncAdd(db, batch, def).1
            == [(k, Decimal(StartFrom(db, k, def) + d))] + IncAdd(IncAddedOne(db, batch[0], def), batch[1..], def).1
  {
  }

  /** What the last delta of a batch adds to what is reported: the number so far. */
  function LastReport(db: Db, batch: seq<Delta>, def: map<Key, int>): Entry
    requires batch != []
  {
    var k := batch[|batch| - 1].0;
    (k, Decimal(StartFrom(db, k, def) + SumFor(batch, k)))
  }

  lemma LastReportStep(db: Db, batch: seq<Delta>, def: map<Key, int>)
    requires |batch| > 1
    ensures LastReport(IncAddedOne(db, batch[0], def), batch[1..], def) == LastReport(db, batch, def)
  {
    StartAfterOne(db, batch, def, batch[|batch| - 1].0);
  }

  lemma ReportsStep(db: Db, batch: seq<Delta>, def: map<Key, int>, db1: Db, tail: seq<Entry>)
    requires |batch| > 1 && db1 == IncAddedOne(db, batch[0], def)
    requires IncAdd(db1, batch[1..], def).1 == IncAdd(db1, batch[1..][..|batch| - 2], def).1 + tail
    ensures IncAdd(db, batch, def).1 == IncAdd(db, batch[..|batch| - 1], def).1 + tail
  {
    var init := batch[..|batch| - 1];
    SplitLast(batch);
    IncAddFirst(db, batch, def);
    IncAddFirst(db, init, def);
    FrontAndBack(IncAdd(db, batch, def).1, IncAdd(db1, batch[1..], def).1,
                 IncAdd(db, init, def).1, IncAdd(db1, init[1..], def).1,
                 [(batch[0].0, Decimal(StartFrom(db, batch[0].0, def) + batch[0].1))], tail);
  }

  /** What `inc_add` reports and emits grows with each delta by the number so far. */
  lemma {:induction false} IncAddReports(db: Db, batch: seq<Delta>, def: map<Key, int>)
    requires batch != []
    ensures IncAdd(db, batch, def).1 == IncAdd(db, batch[..|batch| - 1], def).1 + [LastReport(db, batch, def)]
    decreases |batch|
  {
    if |batch| == 1 {
      IncAddFirst(db, batch, def);
      SumForOne(batch);
    } else {
      var db1 := IncAddedOne(db, batch[0], def);
      IncAddReports(db1, batch[1..], def);
      LastReportStep(db, batch, def);
      ReportsStep(db, batch, def, db1, [LastReport(db, batch, def)]);
    }
  }

  // ---------------------------------------------------------------- add

  /** Puts each pair whose key is still absent. */
  function Add(db: Db, batch: seq<Entry>): (Db, seq<Entry>)
    decreases |batch|
  {
    if batch == [] then (db, [])
    else
      var (k, v) := batch[0];
      if k in db then Add(db, batch[1..])
      else
        var (db1, put) := Add(db[k := v], batch[1..]);
        (db1, [(k, v)] + put)
  }

  lemma {:induction false} AddReplicates(db: Db, batch: seq<Entry>)
    ensures Run(Set(Add(db, batch).1), db) == Add(db, batch).0
    decreases |batch|
  {
    if batch != [] {
      var (k, v) := batch[0];
      if k in db {
        AddReplicates(db, batch[1..]);
      } else {
        AddReplicates(db[k := v], batch[1..]);
        assert Add(db, batch).1[1..] == Add(db[k := v], batch[1..]).1;
      }
    }
  }

  /** Nothing stored is ever overwritten, and of several pairs for an absent key the first wins. */
  lemma {:induction false} AddKeepsFirst(db: Db, batch: seq<Entry>)
    ensures Add(db, batch).0 == MapOf(batch) + db
    decreases |batch|
  {
    if batch != [] {
      var (k, v) := batch[0];
      if k in db {
        AddKeepsFirst(db, batch[1..]);
      } else {
        AddKeepsFirst(db[k := v], batch[1..]);
      }
    }
  }

  // ---------------------------------------------------------------- update_packed

  datatype PackedCall = PackedCall(inc: seq<Delta>, puts: seq<Entry>, def: map<Key, Value>)

  /** The record to start from: the stored text if it can be read, else the default. */
  function BaseRecord(db: Db, key: Key, def: map<Key, Value>): map<Key, Value> {
    if key !in db then def
    else
      match ParseMap(db[key])
      case Ok(m, _) => m
      case Fail => def
  }

  function FieldNumber(m: map<Key, Value>, f: Key): int {
    if f in m && m[f] != [] then CounterOr(m[f], 0) else 0
  }

  function Incremented(m: map<Key, Value>, inc: seq<Delta>): map<Key, Value>
    decreases |inc|
  {
    if inc == [] then m
    else Incremented(m[inc[0].0 := Decimal(FieldNumber(m, inc[0].0) + inc[0].1)], inc[1..])
  }

  /** One call on a record seen as a map: overlay, then increment. */
  function Updated(m: map<Key, Value>, call: PackedCall): map<Key, Value> {
    Incremented(PutAll(m, call.puts), call.inc)
  }

  ghost predicate FramedCall(call: PackedCall) {
    && FramedMap(call.def)
    && (forall i :: 0 <= i < |call.puts| ==> FramedEntry(call.puts[i]))
    && forall i :: 0 <= i < |call.inc| ==> Framed(call.inc[i].0, true)
  }

  lemma {:induction false} DigitsFramed(s: seq<byte>)
    requires forall i :: 0 <= i < |s| ==> s[i] == MINUS || 48 <= s[i] <= 57
    ensures Framed(s, false)
    decreases |s|
  {
    if s != [] {
      DigitsFramed(s[1..]);
    }
  }

  lemma {:induction false} PutAllFramed(m: map<Key, Value>, es: seq<Entry>)
    requires FramedMap(m) && forall i :: 0 <= i < |es| ==> FramedEntry(es[i])
    ensures FramedMap(PutAll(m, es))
    decreases |es|
  {
    if es != [] {
      PutAllFramed(m[es[0].0 := es[0].1], es[1..]);
    }
  }

  lemma {:induction false} IncrementedFramed(m: map<Key, Value>, inc: seq<Delta>)
    requires FramedMap(m) && forall i :: 0 <= i < |inc| ==> Framed(inc[i].0, true)
    ensures FramedMap(Incremented(m, inc))
    decreases |inc|
  {
    if inc != [] {
      var text := Decimal(FieldNumber(m, inc[0].0) + inc[0].1);
      DigitsFramed(text);
      IncrementedFramed(m[inc[0].0 := text], inc[1..]);
    }
  }

  /** One handler call: the new store, given the order in which the map was printed. */
  ghost predicate PackedStep(db: Db, key: Key, call: PackedCall, db': Db) {
    exists order :: Lists(order, Updated(BaseRecord(db, key, call.def), call))
      && db' == db[key := PrintMap(Updated(BaseRecord(db, key, call.def), call), order)]
  }

  /** After a call the stored text reads back as the updated map. */
  lemma PackedCallReadsBack(db: Db, key: Key, call: PackedCall, db': Db)
    requires FramedCall(call) && FramedMap(BaseRecord(db, key, call.def))
    requires PackedStep(db, key, call, db')
    ensures var m := Updated(BaseRecord(db, key, call.def), call);
            key in db' && ParseMap(db'[key]) == Ok(m, []) && FramedMap(m)
  {
    var base := BaseRecord(db, key, call.def);
    var m := Updated(base, call);
    var order :| Lists(order, m) && db' == db[key := PrintMap(m, order)];
    PutAllFramed(base, call.puts);
    IncrementedFramed(PutAll(base, call.puts), call.inc);
    MapRoundTrip(m, order, []);
    assert PrintMap(m, order) + [] == PrintMap(m, order);
  }

  function UpdatedAll(m: map<Key, Value>, calls: seq<PackedCall>): map<Key, Value>
    decreases |calls|
  {
    if calls == [] then m else UpdatedAll(Updated(m, calls[0]), calls[1..])
  }

  /** A run of calls on one key, each printed in an order of its own; `dbs` are the stores in between. */
  ghost predicate PackedRun(dbs: seq<Db>, key: Key, calls: seq<PackedCall>)
    decreases |calls|
  {
    && |dbs| == |calls| + 1
    && (calls != [] ==>
          && FramedCall(calls[0]) && PackedStep(dbs[0], key, calls[0], dbs[1])
          && PackedRun(dbs[1..], key, calls[1..]))
  }

  /** The stored text is exactly this record. */
  ghost predicate Holds(db: Db, key: Key, m: map<Key, Value>) {
    key in db && ParseMap(db[key]) == Ok(m, []) && FramedMap(m)
  }

  lemma HeldStep(db: Db, key: Key, call: PackedCall, db': Db, m: map<Key, Value>)
    requires FramedCall(call) && PackedStep(db, key, call, db') && FramedMap(m)
    requires BaseRecord(db, key, call.def) == m
    ensures Holds(db', key, Updated(m, call))
  {
    PackedCallReadsBack(db, key, call, db');
  }

  lemma {:induction false} PackedRunFrom(dbs: seq<Db>, key: Key, calls: seq<PackedCall>, m: map<Key, Value>)
    requires PackedRun(dbs, key, calls) && Holds(dbs[0], key, m)
    ensures Holds(dbs[|calls|], key, UpdatedAll(m, calls))
    decreases |calls|
  {
    if calls != [] {
      HeldStep(dbs[0], key, calls[0], dbs[1], m);
      PackedRunFrom(dbs[1..], key, calls[1..], Updated(m, calls[0]));
    }
  }

  /** The value a field starts a call with: that of the stored record, or of the default if none can be read. */
  function StoredField(db: Db, key: Key, def: map<Key, Value>, f: Key): Option<Value> {
    if key in db && ParseMap(db[key]).Ok? then Lookup(ParseMap(db[key]).value, f) else Lookup(def, f)
  }

  /** The number a field stands for: zero if it is absent, empty or unreadable. */
  function NumberIn(field: Option<Value>): int {
    match field
    case None => 0
    case Some(text) =>
      if text == [] then 0
      else match ReadCounter(text) case Ok(v, _) => v case Fail => 0
  }

  /**
   What one call makes of one field: it is overlaid first, with the last value `set` for it,
   and then its increments are added to the number that leaves.
   */
  function FieldStep(field: Option<Value>, call: PackedCall, f: Key): Option<Value> {
    var overlaid := if LastPut(call.puts, f).Some? then LastPut(call.puts, f) else field;
    if Names(call.inc, f) then Some(Decimal(NumberIn(overlaid) + SumFor(call.inc, f))) else overlaid
  }

  function SumField(m: map<Key, Value>, inc: seq<Delta>, f: Key): Option<Value> {
    SumOn(Lookup(m, f), NumberIn(Lookup(m, f)), inc, f)
  }

  lemma NumberAfter(m: map<Key, Value>, x: Key, n: int, f: Key)
    ensures NumberIn(Lookup(m[x := Decimal(n)], f)) == if f == x then n else NumberIn(Lookup(m, f))
  {
    CounterRoundTrip(n);
  }

  lemma SumFieldStep(m: map<Key, Value>, inc: seq<Delta>, f: Key)
    requires inc != []
    ensures var n := NumberIn(Lookup(m, inc[0].0)) + inc[0].1;
            SumField(m[inc[0].0 := Decimal(n)], inc[1..], f) == SumField(m, inc, f)
  {
    NumberAfter(m, inc[0].0, NumberIn(Lookup(m, inc[0].0)) + inc[0].1, f);
    SumOnNext(Lookup(m, f), NumberIn(Lookup(m, f)), inc, f);
  }

  lemma FieldNumberIs(m: map<Key, Value>, f: Key)
    ensures FieldNumber(m, f) == NumberIn(Lookup(m, f))
  {
  }

  lemma {:induction false} IncrementedField(m: map<Key, Value>, inc: seq<Delta>, f: Key)
    ensures Lookup(Incremented(m, inc), f) == SumField(m, inc, f)
    decreases |inc|
  {
    if inc != [] {
      FieldNumberIs(m, inc[0].0);
      SumFieldStep(m, inc, f);
      IncrementedField(m[inc[0].0 := Decimal(NumberIn(Lookup(m, inc[0].0)) + inc[0].1)], inc[1..], f);
    }
  }

  lemma UpdatedField(m: map<Key, Value>, call: PackedCall, f: Key)
    ensures Lookup(Updated(m, call), f) == FieldStep(Lookup(m, f), call, f)
  {
    PutAllGivesLast(m, call.puts, f);
    IncrementedField(PutAll(m, call.puts), call.inc, f);
  }

  function FieldRun(field: Option<Value>, calls: seq<PackedCall>, f: Key): Option<Value>
    decreases |calls|
  {
    if calls == [] then field else FieldRun(FieldStep(field, calls[0], f), calls[1..], f)
  }

  lemma {:induction false} UpdatedAllField(m: map<Key, Value>, calls: seq<PackedCall>, f: Key)
    ensures Lookup(UpdatedAll(m, calls), f) == FieldRun(Lookup(m, f), calls, f)
    decreases |calls|
  {
    if calls != [] {
      UpdatedField(m, calls[0], f);
      UpdatedAllField(Updated(m, calls[0]), calls[1..], f);
    }
  }

  /**
   Field by field: after any non-empty sequence of calls on a key, whatever the printing
   orders, each field of the stored record is what each call in turn makes of it, overlay
   before increment, from the stored record or the first call's default.
   */
  lemma PackedFieldByField(dbs: seq<Db>, key: Key, calls: seq<PackedCall>, f: Key)
    requires calls != [] && PackedRun(dbs, key, calls)
    requires FramedMap(BaseRecord(dbs[0], key, calls[0].def))
    ensures key in dbs[|calls|] && ParseMap(dbs[|calls|][key]).Ok?
    ensures Lookup(ParseMap(dbs[|calls|][key]).value, f)
         == FieldRun(StoredField(dbs[0], key, calls[0].def, f), calls, f)
  {
    PackedRecordIsMap(dbs, key, calls);
    var base := BaseRecord(dbs[0], key, calls[0].def);
    assert Lookup(base, f) == StoredField(dbs[0], key, calls[0].def, f);
    UpdatedAllField(base, calls, f);
  }

  /**
   The packed record is a map: after any non-empty sequence of calls on a key, whatever
   the printing orders, the stored text reads as the map the same calls make of the
   record the first call started from.
   */
  lemma PackedRecordIsMap(dbs: seq<Db>, key: Key, calls: seq<PackedCall>)
    requires calls != [] && PackedRun(dbs, key, calls)
    requires FramedMap(BaseRecord(dbs[0], key, calls[0].def))
    ensures key in dbs[|calls|]
    ensures ParseMap(dbs[|calls|][key]) == Ok(UpdatedAll(BaseRecord(dbs[0], key, calls[0].def), calls), [])
  {
    var base := BaseRecord(dbs[0], key, calls[0].def);
    HeldStep(dbs[0], key, calls[0], dbs[1], base);
    PackedRunFrom(dbs[1..], key, calls[1..], Updated(base, calls[0]));
    assert dbs[1..][|calls| - 1] == dbs[|calls|];
  }

  /** In that map a counter field moves by the sum of its increments, from what the overlay left. */
  lemma {:induction false} IncrementedAdds(m: map<Key, Value>, inc: seq<Delta>, f: Key)
    ensures FieldNumber(Incremented(m, inc), f) == FieldNumber(m, f) + SumFor(inc, f)
    decreases |inc|
  {
    if inc != [] {
      var v := FieldNumber(m, inc[0].0) + inc[0].1;
      CounterRoundTrip(v);
      IncrementedAdds(m[inc[0].0 := Decimal(v)], inc[1..], f);
    }
  }
}
