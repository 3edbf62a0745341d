/**
 The key-value store as an ordered map, and the two commands that travel from a
 master to its slaves.
 */
module Store {
  import opened Bytes

  type Db = map<Key, Value>

  type Entry = (Key, Value)

  /** What a slave is asked to do: put every entry, or delete every key, in order. */
  datatype Command = Set(entries: seq<Entry>) | Del(keys: seq<Key>)

  function Lookup(db: Db, k: Key): Option<Value> {
    if k in db then Some(db[k]) else None
  }

  lemma SameLookups(a: Db, b: Db)
    requires forall k :: Lookup(a, k) == Lookup(b, k)
    ensures a == b
  {
    assert forall k :: k in a <==> Lookup(a, k).Some?;
    assert forall k :: k in b <==> Lookup(b, k).Some?;
    assert a.Keys == b.Keys;
    forall k | k in a ensures a[k] == b[k] {
      assert Lookup(a, k) == Some(a[k]) && Lookup(b, k) == Some(b[k]);
    }
  }

  // ---------------------------------------------------------------- running commands

  function PutAll(db: Db, entries: seq<Entry>): Db
    decreases |entries|
  {
    if entries == [] then db else PutAll(db[entries[0].0 := entries[0].1], entries[1..])
  }

  function DeleteAll(db: Db, keys: seq<Key>): Db
    decreases |keys|
  {
    if keys == [] then db else DeleteAll(db - {keys[0]}, keys[1..])
  }

  function Run(cmd: Command, db: Db): Db {
    match cmd
    case Set(entries) => PutAll(db, entries)
    case Del(keys) => DeleteAll(db, keys)
  }

  function RunAll(cmds: seq<Command>, db: Db): Db
    decreases |cmds|
  {
    if cmds == [] then db else RunAll(cmds[1..], Run(cmds[0], db))
  }

  /** The last value a batch gives a key, if it names the key. */
  function LastPut(batch: seq<Entry>, k: Key): Option<Value>
    decreases |batch|
  {
    if batch == [] then None
    else if batch[|batch| - 1].0 == k then Some(batch[|batch| - 1].1)
    else LastPut(batch[..|batch| - 1], k)
  }

  lemma {:induction false} LastPutFirst(e: Entry, batch: seq<Entry>, k: Key)
    ensures LastPut([e] + batch, k)
         == if LastPut(batch, k).Some? then LastPut(batch, k) else if e.0 == k then Some(e.1) else None
    decreases |batch|
  {
    if batch != [] {
      var all := [e] + batch;
      assert all[|all| - 1] == batch[|batch| - 1];
      assert all[..|all| - 1] == [e] + batch[..|batch| - 1];
      LastPutFirst(e, batch[..|batch| - 1], k);
    } else {
      assert ([e] + batch)[..0] == [];
    }
  }

  /** A batch of puts leaves each key it names with the last value given, and every other key alone. */
  lemma {:induction false} PutAllGivesLast(db: Db, batch: seq<Entry>, k: Key)
    ensures Lookup(PutAll(db, batch), k)
         == if LastPut(batch, k).Some? then LastPut(batch, k) else Lookup(db, k)
    decreases |batch|
  {
    if batch != [] {
      PutAllGivesLast(db[batch[0].0 := batch[0].1], batch[1..], k);
      LastPutFirst(batch[0], batch[1..], k);
      assert batch == [batch[0]] + batch[1..];
    }
  }

  /** A batch of deletes removes exactly the keys it names. */
  lemma {:induction false} DeleteAllRemoves(db: Db, keys: seq<Key>, k: Key)
    ensures Lookup(DeleteAll(db, keys), k) == if k in keys then None else Lookup(db, k)
    decreases |keys|
  {
    if keys != [] {
      DeleteAllRemoves(db - {keys[0]}, keys[1..], k);
      assert keys == [keys[0]] + keys[1..];
    }
  }

  /** What a command leaves in a key. */
  lemma RunGives(cmd: Command, db: Db, k: Key)
    ensures cmd.Set? ==>
              Lookup(Run(cmd, db), k)
              == if LastPut(cmd.entries, k).Some? then LastPut(cmd.entries, k) else Lookup(db, k)
    ensures cmd.Del? ==> Lookup(Run(cmd, db), k) == if k in cmd.keys then None else Lookup(db, k)
  {
    match cmd
    case Set(entries) => PutAllGivesLast(db, entries, k);
    case Del(keys) => DeleteAllRemoves(db, keys, k);
  }

  lemma {:induction false} RunAllConcat(a: seq<Command>, b: seq<Command>, db: Db)
    ensures RunAll(a + b, db) == RunAll(b, RunAll(a, db))
    decreases |a|
  {
    if a == [] {
      assert a + b == b;
    } else {
      assert (a + b)[1..] == a[1..] + b;
      RunAllConcat(a[1..], b, Run(a[0], db));
    }
  }

  // ---------------------------------------------------------------- effects

  /** The net effect of commands: for each touched key its final value, or None if deleted. */
  type Effect = map<Key, Option<Value>>

  function EffectOfEntries(entries: seq<Entry>): Effect
    decreases |entries|
  {
    if entries == [] then map[]
    else map[entries[0].0 := Some(entries[0].1)] + EffectOfEntries(entries[1..])
  }

  function EffectOfKeys(keys: seq<Key>): Effect {
    map k | k in keys :: None
  }

  function EffectOf(cmd: Command): Effect {
    match cmd
    case Set(entries) => EffectOfEntries(entries)
    case Del(keys) => EffectOfKeys(keys)
  }

  function EffectOfAll(cmds: seq<Command>): Effect
    decreases |cmds|
  {
    if cmds == [] then map[] else EffectOf(cmds[0]) + EffectOfAll(cmds[1..])
  }

  function Overlay(db: Db, e: Effect): (r: Db)
    ensures forall k :: Lookup(r, k) == if k in e then e[k] else Lookup(db, k)
  {
    map k | k in db.Keys + e.Keys && (k in e ==> e[k].Some?) ::
      if k in e then e[k].value else db[k]
  }

  lemma OverlayTwice(db: Db, a: Effect, b: Effect)
    ensures Overlay(Overlay(db, a), b) == Overlay(db, a + b)
  {
    SameLookups(Overlay(Overlay(db, a), b), Overlay(db, a + b));
  }

  lemma {:induction false} PutAllIsOverlay(db: Db, entries: seq<Entry>)
    ensures PutAll(db, entries) == Overlay(db, EffectOfEntries(entries))
    decreases |entries|
  {
    if entries == [] {
      SameLookups(db, Overlay(db, map[]));
    } else {
      var first: Effect := map[entries[0].0 := Some(entries[0].1)];
      var db1 := db[entries[0].0 := entries[0].1];
      SameLookups(db1, Overlay(db, first));
      PutAllIsOverlay(db1, entries[1..]);
      OverlayTwice(db, first, EffectOfEntries(entries[1..]));
    }
  }

  lemma {:induction false} DeleteAllIsOverlay(db: Db, keys: seq<Key>)
    ensures DeleteAll(db, keys) == Overlay(db, EffectOfKeys(keys))
    decreases |keys|
  {
    if keys == [] {
      SameLookups(db, Overlay(db, EffectOfKeys(keys)));
    } else {
      var first: Effect := map[keys[0] := None];
      SameLookups(db - {keys[0]}, Overlay(db, first));
      DeleteAllIsOverlay(db - {keys[0]}, keys[1..]);
      OverlayTwice(db, first, EffectOfKeys(keys[1..]));
      EffectOfMoreKeys(keys[0], keys[1..]);
      assert keys == [keys[0]] + keys[1..];
    }
  }

  lemma EffectOfMoreKeys(k: Key, rest: seq<Key>)
    ensures map[k := None] + EffectOfKeys(rest) == EffectOfKeys([k] + rest)
  {
  }

  lemma RunIsOverlay(cmd: Command, db: Db)
    ensures Run(cmd, db) == Overlay(db, EffectOf(cmd))
  {
    match cmd
    case Set(entries) => PutAllIsOverlay(db, entries);
    case Del(keys) => DeleteAllIsOverlay(db, keys);
  }

  /** Running commands in order is laying their net effect over the store. */
  lemma {:induction false} RunAllIsOverlay(cmds: seq<Command>, db: Db)
    ensures RunAll(cmds, db) == Overlay(db, EffectOfAll(cmds))
    decreases |cmds|
  {
    if cmds == [] {
      SameLookups(db, Overlay(db, map[]));
    } else {
      RunIsOverlay(cmds[0], db);
      RunAllIsOverlay(cmds[1..], Run(cmds[0], db));
      OverlayTwice(db, EffectOf(cmds[0]), EffectOfAll(cmds[1..]));
    }
  }

  lemma {:induction false} EffectConcat(a: seq<Command>, b: seq<Command>)
    ensures EffectOfAll(a + b) == EffectOfAll(a) + EffectOfAll(b)
    decreases |a|
  {
    if a == [] {
      assert a + b == b;
    } else {
      assert (a + b)[1..] == a[1..] + b;
      EffectConcat(a[1..], b);
      MergeAssociates(EffectOf(a[0]), EffectOfAll(a[1..]), EffectOfAll(b));
    }
  }

  lemma MergeAssociates(x: Effect, y: Effect, z: Effect)
    ensures x + (y + z) == (x + y) + z
  {
  }

  /** The store already shows the effect. */
  ghost predicate Shows(db: Db, e: Effect) {
    forall k :: k in e ==> Lookup(db, k) == e[k]
  }

  lemma ShowsIsFixpoint(db: Db, cmds: seq<Command>)
    ensures Shows(db, EffectOfAll(cmds)) <==> RunAll(cmds, db) == db
  {
    RunAllIsOverlay(cmds, db);
    if Shows(db, EffectOfAll(cmds)) {
      SameLookups(RunAll(cmds, db), db);
    }
  }

  /**
   Replay: a store that has run the first `n` commands, and is then sent the whole
   sequence again from the beginning, ends where running the sequence once would end.
   */
  lemma ReplayChangesNothing(cmds: seq<Command>, n: nat, db: Db)
    requires n <= |cmds|
    ensures RunAll(cmds, RunAll(cmds[..n], db)) == RunAll(cmds, db)
  {
    assert cmds == cmds[..n] + cmds[n..];
    EffectConcat(cmds[..n], cmds[n..]);
    RunAllIsOverlay(cmds[..n], db);
    RunAllIsOverlay(cmds, db);
    RunAllIsOverlay(cmds, RunAll(cmds[..n], db));
    SameLookups(RunAll(cmds, RunAll(cmds[..n], db)), RunAll(cmds, db));
  }

  // ---------------------------------------------------------------- iteration

  /** The keys of a snapshot in iteration order. */
  function Listing(db: Db): (ks: seq<Key>)
    ensures Increasing(ks) && |ks| == |db.Keys|
    ensures forall k :: k in ks <==> k in db
  {
    Sorted(db.Keys)
  }

  /** Where `Iterator::Seek(from)` lands: the first position whose key is not below `from`. */
  function SeekPosition(ks: seq<Key>, from: Key): (i: nat)
    ensures i <= |ks|
    decreases |ks|
  {
    if ks == [] || !Less(ks[0], from) then 0 else 1 + SeekPosition(ks[1..], from)
  }

  /** In an increasing listing the keys before that position are below `from`, the others are not. */
  lemma {:induction false} SeekSeparates(ks: seq<Key>, from: Key, j: nat)
    requires Increasing(ks) && j < |ks|
    ensures if j < SeekPosition(ks, from) then Less(ks[j], from) else AtMost(from, ks[j])
    decreases |ks|
  {
    if Less(ks[0], from) {
      if j > 0 {
        assert ks[1..][j - 1] == ks[j];
        SeekSeparates(ks[1..], from, j - 1);
      }
    } else {
      LessTotal(from, ks[0]);
      if j > 0 && from != ks[0] {
        PositionOrder(ks, 0, j);
        LessTransitive(from, ks[0], ks[j]);
      } else if j > 0 {
        PositionOrder(ks, 0, j);
      }
    }
  }

  /** The entries of a snapshot under the given keys. */
  function EntriesAt(db: Db, ks: seq<Key>): (r: seq<Entry>)
    requires forall k :: k in ks ==> k in db
    ensures |r| == |ks|
    ensures forall i :: 0 <= i < |ks| ==> r[i] == (ks[i], db[ks[i]])
  {
    seq(|ks|, i requires 0 <= i < |ks| => (ks[i], db[ks[i]]))
  }
}
