/**
 The request handlers in place: a store and the commands handed to replication.
 */
module Handlers {
  import opened Bytes
  import opened Store
  import opened JsonNumber
  import opened JsonContainer
  import opened StoreOps

  // ---------------------------------------------------------------- range scans

  const SCAN_LIMIT := 11000

  predicate InScan(k: Key, from: Key, to: Key) {
    AtMost(from, k) && (to == [] || AtMost(k, to))
  }

  /** The keys of a listing that fall into the scanned range. */
  function Selected(ks: seq<Key>, from: Key, to: Key): seq<Key>
    decreases |ks|
  {
    if ks == [] then []
    else (if InScan(ks[0], from, to) then [ks[0]] else []) + Selected(ks[1..], from, to)
  }

  function Page<T>(xs: seq<T>, skip: nat, limit: nat): (r: seq<T>)
    ensures |r| <= limit
  {
    var rest := if skip <= |xs| then xs[skip..] else [];
    if limit <= |rest| then rest[..limit] else rest
  }

  /** Consecutive pages tile the range: no gap, no overlap. */
  lemma PagesTile<T>(xs: seq<T>, skip: nat, a: nat, b: nat)
    ensures Page(xs, skip, a) + Page(xs, skip + a, b) == Page(xs, skip, a + b)
  {
  }

  lemma {:induction false} SelectedMembers(ks: seq<Key>, from: Key, to: Key, k: Key)
    ensures k in Selected(ks, from, to) <==> k in ks && AtMost(from, k) && (to == [] || AtMost(k, to))
    decreases |ks|
  {
    if ks != [] {
      SelectedMembers(ks[1..], from, to, k);
      assert ks == [ks[0]] + ks[1..];
    }
  }

  lemma {:induction false} SelectedSorted(ks: seq<Key>, from: Key, to: Key)
    requires Increasing(ks)
    ensures Increasing(Selected(ks, from, to))
    decreases |ks|
  {
    if ks != [] {
      var rest := Selected(ks[1..], from, to);
      SelectedSorted(ks[1..], from, to);
      forall j | 0 <= j < |rest| ensures Less(ks[0], rest[j]) {
        SelectedMembers(ks[1..], from, to, rest[j]);
        var m :| 0 <= m < |ks[1..]| && ks[1..][m] == rest[j];
        assert Less(ks[0], ks[m + 1]);
      }
    }
  }

  /** A page is what is left after `skip`, up to `limit` elements. */
  lemma PageIs<T>(xs: seq<T>, skip: nat, limit: nat)
    ensures var left := if skip <= |xs| then |xs| - skip else 0;
            && |Page(xs, skip, limit)| == (if left < limit then left else limit)
            && forall i :: 0 <= i < |Page(xs, skip, limit)| ==> Page(xs, skip, limit)[i] == xs[skip + i]
  {
  }

  /** Below the first wanted key nothing is selected. */
  lemma {:induction false} SelectedSkips(ks: seq<Key>, i: nat, from: Key, to: Key)
    requires i <= |ks| && forall j :: 0 <= j < i ==> Less(ks[j], from)
    ensures Selected(ks, from, to) == Selected(ks[i..], from, to)
    decreases i
  {
    if i > 0 {
      assert Less(ks[0], from);
      LessAsymmetric(ks[0], from);
      SelectedSkips(ks[1..], i - 1, from, to);
      assert ks[1..][i - 1..] == ks[i..];
      assert Selected(ks, from, to) == [] + Selected(ks[1..], from, to);
    } else {
      assert ks[0..] == ks;
    }
  }

  /** Past the last wanted key nothing is selected. */
  lemma {:induction false} SelectedStops(ks: seq<Key>, from: Key, to: Key)
    requires to != [] && forall j :: 0 <= j < |ks| ==> !AtMost(ks[j], to)
    ensures Selected(ks, from, to) == []
    decreases |ks|
  {
    if ks != [] {
      assert !AtMost(ks[0], to);
      SelectedStops(ks[1..], from, to);
    }
  }

  lemma BeyondStaysBeyond(ks: seq<Key>, i: nat, to: Key)
    requires Increasing(ks) && i < |ks| && !AtMost(ks[i], to)
    ensures forall j :: i <= j < |ks| ==> !AtMost(ks[j], to)
  {
    LessTotal(ks[i], to);
    forall j | i <= j < |ks| ensures !AtMost(ks[j], to) {
      if i < j {
        PositionOrder(ks, i, j);
        LessTransitive(to, ks[i], ks[j]);
        LessAsymmetric(to, ks[j]);
      }
      LessAsymmetric(to, ks[i]);
    }
  }

  /** The keys visited so far and those still to be selected. */
  function TakenAnd(ks: seq<Key>, start: nat, i: nat, from: Key, to: Key): seq<Key>
    requires start <= i <= |ks|
  {
    ks[start..i] + Selected(ks[i..], from, to)
  }

  lemma TakeOne(ks: seq<Key>, start: nat, i: nat, from: Key, to: Key)
    requires start <= i < |ks| && InScan(ks[i], from, to)
    ensures TakenAnd(ks, start, i, from, to) == TakenAnd(ks, start, i + 1, from, to)
  {
    assert ks[i..][1..] == ks[i + 1..];
    assert ks[start..i + 1] == ks[start..i] + [ks[i]];
  }

  lemma FirstPage<T>(p: seq<T>, rest: seq<T>, total: nat)
    requires |p| == total || (|p| < total && rest == [])
    ensures Page(p + rest, 0, total) == p
  {
  }

  /**
   The scan loop: how many elements it visits from `start`.  It goes on as long as there are
   elements, they are wanted and the total is not reached.
   */
  method Scan<T>(xs: seq<T>, start: nat, wanted: T -> bool, total: nat) returns (n: nat)
    requires start <= |xs|
    ensures start + n <= |xs| && n <= total
    ensures forall j :: start <= j < start + n ==> wanted(xs[j])
    ensures start + n < |xs| && n < total ==> !wanted(xs[start + n])
  {
    n := 0;
    while start + n < |xs| && wanted(xs[start + n]) && n < total
      invariant start + n <= |xs| && n <= total
      invariant forall j :: start <= j < start + n ==> wanted(xs[j])
    {
      n := n + 1;
    }
  }

  /** What the scan has visited is selected. */
  lemma {:induction false} VisitedSelected(ks: seq<Key>, start: nat, n: nat, from: Key, to: Key)
    requires start + n <= |ks| && forall j :: start <= j < start + n ==> InScan(ks[j], from, to)
    ensures Selected(ks[start..], from, to) == TakenAnd(ks, start, start + n, from, to)
    decreases n
  {
    if n == 0 {
      assert [] + Selected(ks[start..], from, to) == Selected(ks[start..], from, to);
    } else {
      VisitedSelected(ks, start, n - 1, from, to);
      TakeOne(ks, start, start + n - 1, from, to);
    }
  }

  lemma ScanPageDone(ks: seq<Key>, start: nat, n: nat, from: Key, to: Key, total: nat)
    requires Increasing(ks) && start + n <= |ks| && n <= total
    requires forall j :: start <= j < start + n ==> InScan(ks[j], from, to)
    requires start + n < |ks| && n < total ==> to != [] && !AtMost(ks[start + n], to)
    ensures ks[start..start + n] == Page(Selected(ks[start..], from, to), 0, total)
  {
    VisitedSelected(ks, start, n, from, to);
    if n < total {
      ScanEnds(ks, start + n, from, to);
    }
    FirstPage(ks[start..start + n], Selected(ks[start + n..], from, to), total);
  }

  lemma VisitedPage(ks: seq<Key>, start: nat, n: nat, all: seq<Key>, skip: nat, limit: nat)
    requires start + n <= |ks| && ks[start..start + n] == Page(all, 0, limit + skip)
    ensures Page(all, skip, limit) == if skip <= n then ks[start..start + n][skip..] else []
  {
    PageOfPage(all, skip, limit);
  }

  predicate UpTo(k: Key, to: Key) {
    to == [] || AtMost(k, to)
  }

  lemma SeekSplits(ks: seq<Key>, from: Key, start: nat)
    requires Increasing(ks) && start == if from == [] then 0 else SeekPosition(ks, from)
    ensures start <= |ks|
    ensures forall j :: 0 <= j < start ==> Less(ks[j], from)
    ensures forall j :: start <= j < |ks| ==> AtMost(from, ks[j])
  {
    forall j | 0 <= j < |ks| ensures if j < start then Less(ks[j], from) else AtMost(from, ks[j]) {
      SeekSeparates(ks, from, j);
    }
  }

  method ScanPage(db: Db, from: Key, to: Key, limit: nat, skip: nat) returns (taken: seq<Key>)
    ensures taken == ScanResult(db, from, to, skip, limit)
  {
    var ks := Listing(db);
    var start := if from == [] then 0 else SeekPosition(ks, from);
    SeekSplits(ks, from, start);
    var n := Scan(ks, start, k => UpTo(k, to), limit + skip);
    SelectedSkips(ks, start, from, to);
    ScanPageDone(ks, start, n, from, to, limit + skip);
    VisitedPage(ks, start, n, Selected(ks, from, to), skip, limit);
    taken := if skip <= n then ks[start..start + n][skip..] else [];
  }

  function ScanResult(db: Db, from: Key, to: Key, skip: nat, limit: nat): (r: seq<Key>)
    ensures forall k :: k in r ==> k in db
  {
    var all := Selected(Listing(db), from, to);
    assert forall k | k in all :: k in db by {
      forall k | k in all ensures k in db { SelectedMembers(Listing(db), from, to, k); }
    }
    Page(all, skip, limit)
  }

  lemma ScanEnds(ks: seq<Key>, i: nat, from: Key, to: Key)
    requires Increasing(ks) && i <= |ks|
    requires i < |ks| ==> to != [] && !AtMost(ks[i], to)
    ensures Selected(ks[i..], from, to) == []
  {
    if i < |ks| {
      BeyondStaysBeyond(ks, i, to);
      SelectedStops(ks[i..], from, to);
    }
  }

  /**
   The scan, without reference to how it is done: of the increasing list of all stored keys
   from `from` up to `to`, if there is a `to`, the elements after the first `skip`, at most
   `limit` of them.
   */
  lemma ScanIsExact(db: Db, from: Key, to: Key, skip: nat, limit: nat) returns (all: seq<Key>)
    ensures Increasing(all)
    ensures forall k :: k in all <==> k in db && AtMost(from, k) && (to == [] || AtMost(k, to))
    ensures var left := if skip <= |all| then |all| - skip else 0;
            var r := ScanResult(db, from, to, skip, limit);
            && |r| == (if left < limit then left else limit)
            && forall i :: 0 <= i < |r| ==> r[i] == all[skip + i]
  {
    all := Selected(Listing(db), from, to);
    SelectedSorted(Listing(db), from, to);
    forall k ensures k in all <==> k in db && AtMost(from, k) && (to == [] || AtMost(k, to)) {
      SelectedMembers(Listing(db), from, to, k);
    }
    PageIs(all, skip, limit);
  }

  /** The pair is the first of its key in the batch and the key was not stored. */
  predicate IsNew(db: Db, batch: seq<Entry>, i: nat)
    requires i < |batch|
  {
    batch[i].0 !in db && forall j :: 0 <= j < i ==> batch[j].0 != batch[i].0
  }

  /** What `add` reports: for each pair its key and whether it was put. */
  function AddFlags(db: Db, batch: seq<Entry>): (r: seq<(Key, bool)>)
    ensures |r| == |batch|
    decreases |batch|
  {
    if batch == [] then []
    else
      var (k, v) := batch[0];
      [(k, k !in db)] + AddFlags(if k in db then db else db[k := v], batch[1..])
  }

  lemma IsNewShift(db: Db, batch: seq<Entry>, i: nat)
    requires 0 < i < |batch|
    ensures var (k, v) := batch[0];
            IsNew(db, batch, i) <==> IsNew(if k in db then db else db[k := v], batch[1..], i - 1)
  {
    if IsNew(db, batch, i) {
      assert batch[0].0 != batch[i].0;
    } else if batch[i].0 !in db && batch[i].0 != batch[0].0 {
      var j :| 0 <= j < i && batch[j].0 == batch[i].0;
      assert batch[1..][j - 1].0 == batch[1..][i - 1].0;
    }
  }

  /** Exactly the first pair of each key not stored before is put. */
  lemma {:induction false} AddFlagsAreNew(db: Db, batch: seq<Entry>, i: nat)
    requires i < |batch|
    ensures AddFlags(db, batch)[i] == (batch[i].0, IsNew(db, batch, i))
    decreases |batch|
  {
    if i > 0 {
      var (k, v) := batch[0];
      IsNewShift(db, batch, i);
      AddFlagsAreNew(if k in db then db else db[k := v], batch[1..], i - 1);
    }
  }

  /** What `add` puts and emits for the last pair of a batch: the pair if it is new, nothing otherwise. */
  lemma {:induction false} AddReports(db: Db, batch: seq<Entry>)
    requires batch != []
    ensures var init, e := batch[..|batch| - 1], batch[|batch| - 1];
            Add(db, batch).1 == Add(db, init).1 + (if IsNew(db, batch, |batch| - 1) then [e] else [])
    decreases |batch|
  {
    var (x, v) := batch[0];
    if |batch| == 1 {
      assert batch[..0] == [] && batch[1..] == [];
    } else {
      var rest, init := batch[1..], batch[..|batch| - 1];
      var db1 := if x in db then db else db[x := v];
      assert rest[..|rest| - 1] == init[1..] && rest[|rest| - 1] == batch[|batch| - 1];
      IsNewShift(db, batch, |batch| - 1);
      AddReports(db1, rest);
      var tail := if IsNew(db, batch, |batch| - 1) then [batch[|batch| - 1]] else [];
      assert [(x, v)] + (Add(db1, init[1..]).1 + tail) == ([(x, v)] + Add(db1, init[1..]).1) + tail;
    }
  }

  lemma FlagsUnroll(db: Db, batch: seq<Entry>, i: nat, done: seq<(Key, bool)>)
    requires i < |batch|
    ensures var (k, v) := batch[i];
            done + AddFlags(db, batch[i..])
            == done + [(k, k !in db)] + AddFlags(if k in db then db else db[k := v], batch[i + 1..])
  {
    assert batch[i..][1..] == batch[i + 1..];
  }

  /** The rest of a batch, with what has been put already in front. */
  function AddOn(db: Db, batch: seq<Entry>, put: seq<Entry>): (Db, seq<Entry>) {
    (Add(db, batch).0, put + Add(db, batch).1)
  }

  lemma AddOnNothing(db: Db, batch: seq<Entry>)
    ensures AddOn(db, batch[0..], []) == Add(db, batch)
  {
    assert batch[0..] == batch;
    assert [] + Add(db, batch).1 == Add(db, batch).1;
  }

  lemma AddOnEnd(db: Db, rest: seq<Entry>, put: seq<Entry>)
    requires rest == []
    ensures AddOn(db, rest, put) == (db, put)
  {
    assert put + [] == put;
  }

  lemma AddUnroll(db: Db, batch: seq<Entry>, i: nat, put: seq<Entry>)
    requires i < |batch|
    ensures var (k, v) := batch[i];
            AddOn(db, batch[i..], put)
            == if k in db then AddOn(db, batch[i + 1..], put) else AddOn(db[k := v], batch[i + 1..], put + [(k, v)])
  {
    assert batch[i..][1..] == batch[i + 1..];
    var (k, v) := batch[i];
    assert put + ([(k, v)] + Add(db[k := v], batch[i + 1..]).1) == put + [(k, v)] + Add(db[k := v], batch[i + 1..]).1;
  }

  function IncOn(db: Db, batch: seq<Delta>, put: seq<Entry>): Batch {
    match Inc(db, batch)
    case Done(db1, more) => Done(db1, put + more)
    case Aborted(db1) => Aborted(db1)
  }

  lemma IncOnNothing(db: Db, batch: seq<Delta>)
    ensures IncOn(db, batch[0..], []) == Inc(db, batch)
  {
    assert batch[0..] == batch;
    assert Inc(db, batch).Done? ==> [] + Inc(db, batch).put == Inc(db, batch).put;
  }

  lemma IncOnEnd(db: Db, rest: seq<Delta>, put: seq<Entry>)
    requires rest == []
    ensures IncOn(db, rest, put) == Done(db, put)
  {
    assert put + [] == put;
  }

  lemma IncUnroll(db: Db, batch: seq<Delta>, i: nat, put: seq<Entry>)
    requires i < |batch|
    ensures var (k, d) := batch[i];
            IncOn(db, batch[i..], put)
            == if k !in db then IncOn(db, batch[i + 1..], put)
               else match ReadCounter(db[k])
                    case Fail => Aborted(db)
                    case Ok(v, _) => IncOn(db[k := Decimal(v + d)], batch[i + 1..], put + [(k, Decimal(v + d))])
  {
    assert batch[i..][1..] == batch[i + 1..];
    var (k, d) := batch[i];
    if k in db && ReadCounter(db[k]).Ok? {
      var text := Decimal(ReadCounter(db[k]).value + d);
      var rest := Inc(db[k := text], batch[i + 1..]);
      assert rest.Done? ==> put + ([(k, text)] + rest.put) == put + [(k, text)] + rest.put;
    }
  }

  function IncAddOn(db: Db, batch: seq<Delta>, def: map<Key, int>, put: seq<Entry>): (Db, seq<Entry>) {
    (IncAdd(db, batch, def).0, put + IncAdd(db, batch, def).1)
  }

  lemma IncAddOnNothing(db: Db, batch: seq<Delta>, def: map<Key, int>)
    ensures IncAddOn(db, batch[0..], def, []) == IncAdd(db, batch, def)
  {
    assert batch[0..] == batch;
    assert [] + IncAdd(db, batch, def).1 == IncAdd(db, batch, def).1;
  }

  lemma IncAddOnEnd(db: Db, rest: seq<Delta>, def: map<Key, int>, put: seq<Entry>)
    requires rest == []
    ensures IncAddOn(db, rest, def, put) == (db, put)
  {
    assert put + [] == put;
  }

  lemma IncAddUnroll(db: Db, batch: seq<Delta>, i: nat, def: map<Key, int>, put: seq<Entry>)
    requires i < |batch|
    ensures var (k, d) := batch[i];
            var text := Decimal(StartFrom(db, k, def) + d);
            IncAddOn(db, batch[i..], def, put) == IncAddOn(db[k := text], batch[i + 1..], def, put + [(k, text)])
  {
    assert batch[i..][1..] == batch[i + 1..];
    var (k, d) := batch[i];
    var text := Decimal(StartFrom(db, k, def) + d);
    assert put + ([(k, text)] + IncAdd(db[k := text], batch[i + 1..], def).1)
        == put + [(k, text)] + IncAdd(db[k := text], batch[i + 1..], def).1;
  }

  class Daemon {
    var db: Db
    var emitted: seq<Command>

    /**
     Range scan: refused for negative or excessive bounds; otherwise exactly the sorted
     entries of the range, `skip` of them dropped and then at most `limit` taken.
     */
    method GetRange(from: Key, to: Key, limit: int, skip: int) returns (r: Option<seq<Entry>>)
      ensures r == if limit < 0 || skip < 0 || limit + skip > 11000 then None
                   else Some(EntriesAt(db, ScanResult(db, from, to, skip, limit)))
    {
      if limit < 0 || skip < 0 || limit + skip > SCAN_LIMIT {
        return None;
      }
      var taken := ScanPage(db, from, to, limit, skip);
      r := Some(EntriesAt(db, taken));
    }

    method DoSet(batch: seq<Entry>)
      modifies this
      ensures db == PutAll(old(db), batch) && emitted == old(emitted) + [Set(batch)]
      ensures Run(Set(batch), old(db)) == db
    {
      var i := 0;
      while i < |batch|
        invariant i <= |batch| && emitted == old(emitted)
        invariant PutAll(db, batch[i..]) == PutAll(old(db), batch)
      {
        assert batch[i..][1..] == batch[i + 1..];
        db := db[batch[i].0 := batch[i].1];
        i := i + 1;
      }
      emitted := emitted + [Set(batch)];
    }

    method DoDel(keys: seq<Key>)
      modifies this
      ensures db == DeleteAll(old(db), keys) && emitted == old(emitted) + [Del(keys)]
      ensures Run(Del(keys), old(db)) == db
    {
      var i := 0;
      while i < |keys|
        invariant i <= |keys| && emitted == old(emitted)
        invariant DeleteAll(db, keys[i..]) == DeleteAll(old(db), keys)
      {
        assert keys[i..][1..] == keys[i + 1..];
        db := db - {keys[i]};
        i := i + 1;
      }
      emitted := emitted + [Del(keys)];
    }

    method DoAdd(batch: seq<Entry>) returns (result: seq<(Key, bool)>)
      modifies this
      ensures db == Add(old(db), batch).0 && emitted == old(emitted) + [Set(Add(old(db), batch).1)]
      ensures Run(emitted[|emitted| - 1], old(db)) == db
      ensures |result| == |batch|
      ensures forall i :: 0 <= i < |batch| ==> result[i] == (batch[i].0, IsNew(old(db), batch, i))
    {
      var repl;
      result, repl := PutMissing(batch);
      AddReplicates(old(db), batch);
      forall i | 0 <= i < |batch| ensures result[i] == (batch[i].0, IsNew(old(db), batch, i)) {
        AddFlagsAreNew(old(db), batch, i);
      }
      emitted := emitted + [Set(repl)];
    }

    method PutMissing(batch: seq<Entry>) returns (result: seq<(Key, bool)>, repl: seq<Entry>)
      modifies this`db
      ensures (db, repl) == Add(old(db), batch) && result == AddFlags(old(db), batch)
    {
      var i := 0;
      repl, result := [], [];
      AddOnNothing(db, batch);
      while i < |batch|
        invariant i <= |batch|
        invariant AddOn(db, batch[i..], repl) == Add(old(db), batch)
        invariant result + AddFlags(db, batch[i..]) == AddFlags(old(db), batch)
      {
        AddUnroll(db, batch, i, repl);
        FlagsUnroll(db, batch, i, result);
        var (k, v) := batch[i];
        if k !in db {
          db := db[k := v];
          result := result + [(k, true)];
          repl := repl + [(k, v)];
        } else {
          result := result + [(k, false)];
        }
        i := i + 1;
      }
      AddOnEnd(db, batch[i..], repl);
    }

    /** Throws on an unreadable counter, leaving the puts made so far and emitting nothing. */
    method DoInc(batch: seq<Delta>) returns (thrown: bool, result: seq<Entry>)
      modifies this
      ensures thrown <==> !Readable(old(db), batch)
      ensures db == Inc(old(db), batch).db
      ensures thrown ==> emitted == old(emitted)
      ensures thrown ==> (db == old(db) <==> AddsNothing(old(db), Attempted(old(db), batch)))
      ensures !thrown ==> emitted == old(emitted) + [Set(result)] && Run(Set(result), old(db)) == db
    {
      IncCompletesIff(db, batch);
      thrown, result := PutCounters(batch);
      IncReplicatesIff(old(db), batch);
      if !thrown {
        IncReplicates(old(db), batch);
        emitted := emitted + [Set(result)];
      }
    }

    method PutCounters(batch: seq<Delta>) returns (thrown: bool, result: seq<Entry>)
      modifies this`db
      ensures Inc(old(db), batch) == if thrown then Aborted(db) else Done(db, result)
    {
      var i := 0;
      result := [];
      IncOnNothing(db, batch);
      while i < |batch|
        invariant i <= |batch|
        invariant IncOn(db, batch[i..], result) == Inc(old(db), batch)
      {
        IncUnroll(db, batch, i, result);
        var (k, d) := batch[i];
        if k in db {
          var r := ReadCounter(db[k]);
          if r.Fail? {
            return true, [];
          }
          var text := Decimal(r.value + d);
          db := db[k := text];
          result := result + [(k, text)];
        }
        i := i + 1;
      }
      IncOnEnd(db, batch[i..], result);
      thrown := false;
    }

    method DoIncAdd(batch: seq<Delta>, def: map<Key, int>) returns (result: seq<Entry>)
      modifies this
      ensures db == IncAdd(old(db), batch, def).0 && result == IncAdd(old(db), batch, def).1
      ensures emitted == old(emitted) + [Set(result)] && Run(Set(result), old(db)) == db
    {
      result := PutIncremented(batch, def);
      IncAddReplicates(old(db), batch, def);
      emitted := emitted + [Set(result)];
    }

    method PutIncremented(batch: seq<Delta>, def: map<Key, int>) returns (result: seq<Entry>)
      modifies this`db
      ensures (db, result) == IncAdd(old(db), batch, def)
    {
      var i := 0;
      result := [];
      IncAddOnNothing(db, batch, def);
      while i < |batch|
        invariant i <= |batch|
        invariant IncAddOn(db, batch[i..], def, result) == IncAdd(old(db), batch, def)
      {
        IncAddUnroll(db, batch, i, def, result);
        var (k, d) := batch[i];
        var text := Decimal(StartFrom(db, k, def) + d);
        db := db[k := text];
        result := result + [(k, text)];
        i := i + 1;
      }
      IncAddOnEnd(db, batch[i..], def, result);
    }

    method DoUpdatePacked(key: Key, call: PackedCall) returns (result: seq<byte>)
      modifies this
      ensures PackedStep(old(db), key, call, db) && db == old(db)[key := result]
      ensures emitted == old(emitted) + [Set([(key, result)])] && Run(Set([(key, result)]), old(db)) == db
    {
      var data := BaseRecord(db, key, call.def);
      var i := 0;
      while i < |call.puts|
        invariant i <= |call.puts|
        invariant PutAll(data, call.puts[i..]) == PutAll(BaseRecord(db, key, call.def), call.puts)
      {
        assert call.puts[i..][1..] == call.puts[i + 1..];
        data := data[call.puts[i].0 := call.puts[i].1];
        i := i + 1;
      }
      i := 0;
      while i < |call.inc|
        invariant i <= |call.inc|
        invariant Incremented(data, call.inc[i..]) == Updated(BaseRecord(db, key, call.def), call)
      {
        assert call.inc[i..][1..] == call.inc[i + 1..];
        var (f, d) := call.inc[i];
        data := data[f := Decimal(FieldNumber(data, f) + d)];
        i := i + 1;
      }
      var order := VisitOrder(data);
      result := PrintMap(data, order);
      db := db[key := result];
      emitted := emitted + [Set([(key, result)])];
      SinglePut(old(db), key, result);
    }
  }

  lemma SinglePut(db: Db, k: Key, v: Value)
    ensures Run(Set([(k, v)]), db) == db[k := v]
  {
    assert [(k, v)][1..] == [];
    assert PutAll(db[k := v], []) == db[k := v];
  }

  lemma PageOfPage<T>(xs: seq<T>, skip: nat, limit: nat)
    ensures var p := Page(xs, 0, limit + skip);
            Page(xs, skip, limit) == if skip <= |p| then p[skip..] else []
  {
  }

  /** Some order of visiting a hash map. */
  method VisitOrder(m: map<Key, Value>) returns (order: seq<Key>)
    ensures Lists(order, m)
  {
    order := [];
    var todo := m.Keys;
    while todo != {}
      invariant todo <= m.Keys
      invariant forall k :: k in order <==> k in m && k !in todo
      invariant forall i, j :: 0 <= i < j < |order| ==> order[i] != order[j]
      decreases |todo|
    {
      var k :| k in todo;
      order, todo := order + [k], todo - {k};
    }
  }
}
