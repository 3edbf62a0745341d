/**
 The least-recently-used cache, as a list of entries from least to most recently used,
 compared with its history.
 */
module LruCache {
  import opened Bytes
  import opened Sequences

  predicate Has<K(==), V>(es: seq<(K, V)>, k: K) {
    exists i :: 0 <= i < |es| && es[i].0 == k
  }

  ghost predicate Distinct<K, V>(es: seq<(K, V)>) {
    forall i, j :: 0 <= i < j < |es| ==> es[i].0 != es[j].0
  }

  function Without<K(==), V>(es: seq<(K, V)>, k: K): (r: seq<(K, V)>)
    ensures |r| <= |es|
    decreases |es|
  {
    if es == [] then [] else (if es[0].0 == k then [] else [es[0]]) + Without(es[1..], k)
  }

  function Find<K(==), V>(es: seq<(K, V)>, k: K): Option<V>
    decreases |es|
  {
    if es == [] then None else if es[0].0 == k then Some(es[0].1) else Find(es[1..], k)
  }

  /** A hit moves the entry to the recent end; a miss changes nothing. */
  function Touched<K(==), V>(es: seq<(K, V)>, k: K): seq<(K, V)> {
    match Find(es, k)
    case None => es
    case Some(v) => Without(es, k) + [(k, v)]
  }

  function Inserted<K(==), V>(es: seq<(K, V)>, k: K, v: V, capacity: nat): seq<(K, V)>
    requires capacity > 0
  {
    var r := Without(es, k);
    (if |r| == capacity then r[1..] else r) + [(k, v)]
  }

  // ---------------------------------------------------------------- the history

  /** Reading the history backwards: the keys met for the first time, with their values, oldest first. */
  function Newest<K(==), V>(log: seq<(K, V)>, seen: set<K>): seq<(K, V)>
    decreases |log|
  {
    if log == [] then []
    else
      var e, before := log[|log| - 1], log[..|log| - 1];
      if e.0 in seen then Newest(before, seen) else Newest(before, seen + {e.0}) + [e]
  }

  function LastN<T>(xs: seq<T>, n: nat): seq<T> {
    if |xs| <= n then xs else xs[|xs| - n..]
  }

  /** What the cache should hold: the last `capacity` distinct keys touched, in order, with their latest values. */
  function Expected<K(==), V>(log: seq<(K, V)>, capacity: nat): seq<(K, V)> {
    LastN(Newest(log, {}), capacity)
  }

  lemma {:induction false} WithoutConcat<K, V>(a: seq<(K, V)>, b: seq<(K, V)>, k: K)
    ensures Without(a + b, k) == Without(a, k) + Without(b, k)
    decreases |a|
  {
    if a == [] {
      assert a + b == b;
    } else {
      assert (a + b)[1..] == a[1..] + b;
      WithoutConcat(a[1..], b, k);
    }
  }

  lemma {:induction false} WithoutAbsent<K, V>(es: seq<(K, V)>, k: K)
    requires !Has(es, k)
    ensures Without(es, k) == es && Find(es, k) == None
    decreases |es|
  {
    if es != [] {
      assert es[0].0 != k;
      assert forall i | 0 <= i < |es| - 1 :: es[1..][i] == es[i + 1];
      WithoutAbsent(es[1..], k);
      assert es == [es[0]] + es[1..];
    }
  }

  lemma {:induction false} WithoutPresent<K, V>(es: seq<(K, V)>, k: K)
    requires Has(es, k) && Distinct(es)
    ensures |Without(es, k)| == |es| - 1 && Find(es, k).Some?
    decreases |es|
  {
    var i :| 0 <= i < |es| && es[i].0 == k;
    if i == 0 {
      assert !Has(es[1..], k);
      WithoutAbsent(es[1..], k);
    } else {
      assert es[1..][i - 1].0 == k;
      WithoutPresent(es[1..], k);
    }
  }

  lemma {:induction false} NewestSkips<K, V>(log: seq<(K, V)>, seen: set<K>, k: K)
    ensures Newest(log, seen + {k}) == Without(Newest(log, seen), k)
    decreases |log|
  {
    if log != [] {
      var e, before := log[|log| - 1], log[..|log| - 1];
      if e.0 in seen {
        NewestSkips(before, seen, k);
      } else {
        NewestSkips(before, seen + {e.0}, k);
        WithoutConcat(Newest(before, seen + {e.0}), [e], k);
        assert Without([e], k) == if e.0 == k then [] else [e];
        if e.0 == k {
          NewestAgain(before, seen + {k}, k);
          assert seen + {e.0} == seen + {k} == (seen + {k}) + {k};
          assert Newest(before, seen + {k}) + [] == Newest(before, seen + {k});
        } else {
          assert (seen + {k}) + {e.0} == (seen + {e.0}) + {k};
        }
      }
    }
  }

  lemma NewestAgain<K, V>(log: seq<(K, V)>, seen: set<K>, k: K)
    requires k in seen
    ensures Newest(log, seen + {k}) == Newest(log, seen)
  {
    assert seen + {k} == seen;
  }

  /** One more touch moves its key to the recent end of the history. */
  lemma NewestStep<K, V>(log: seq<(K, V)>, k: K, v: V)
    ensures Newest(log + [(k, v)], {}) == Without(Newest(log, {}), k) + [(k, v)]
  {
    assert (log + [(k, v)])[..|log|] == log;
    assert {} + {k} == {k};
    NewestSkips(log, {}, k);
  }

  lemma {:induction false} NewestDistinct<K, V>(log: seq<(K, V)>, seen: set<K>)
    ensures Distinct(Newest(log, seen))
    ensures forall i :: 0 <= i < |Newest(log, seen)| ==> Newest(log, seen)[i].0 !in seen
    decreases |log|
  {
    if log != [] {
      var e, before := log[|log| - 1], log[..|log| - 1];
      NewestDistinct(before, seen);
      NewestDistinct(before, seen + {e.0});
    }
  }

  lemma LastNOf<T>(a: seq<T>, b: seq<T>, n: nat)
    requires |b| == n || (|b| <= n && a == [])
    ensures LastN(a + b, n) == b
  {
  }

  lemma KeepHit<K, V>(older: seq<(K, V)>, cache: seq<(K, V)>, k: K, v: V, capacity: nat)
    requires capacity > 0 && Distinct(older + cache) && Distinct(cache) && Has(cache, k)
    requires |cache| == capacity || (|cache| < capacity && older == [])
    ensures Inserted(cache, k, v, capacity) == LastN(Without(older + cache, k) + [(k, v)], capacity)
  {
    var kept := Without(cache, k);
    WithoutConcat(older, cache, k);
    WithoutPresent(cache, k);
    NotBoth(older, cache, k);
    WithoutAbsent(older, k);
    LastNOf(older, kept + [(k, v)], capacity);
    Associative(older, kept, [(k, v)]);
  }

  lemma KeepMissFull<K, V>(gone: seq<(K, V)>, cache: seq<(K, V)>, e: (K, V))
    requires |cache| > 0
    ensures LastN(gone + cache + [e], |cache|) == cache[1..] + [e]
  {
    LastNOf(gone + [cache[0]], cache[1..] + [e], |cache|);
    assert cache == [cache[0]] + cache[1..];
    assert (gone + [cache[0]]) + (cache[1..] + [e]) == gone + cache + [e];
  }

  lemma KeepMiss<K, V>(older: seq<(K, V)>, cache: seq<(K, V)>, k: K, v: V, capacity: nat)
    requires capacity > 0 && !Has(cache, k)
    requires |cache| == capacity || (|cache| < capacity && older == [])
    ensures Inserted(cache, k, v, capacity) == LastN(Without(older + cache, k) + [(k, v)], capacity)
  {
    WithoutConcat(older, cache, k);
    WithoutAbsent(cache, k);
    if |cache| == capacity {
      KeepMissFull(Without(older, k), cache, (k, v));
    } else {
      assert older + cache == cache;
    }
  }

  /** Keeping only the recent end commutes with a touch. */
  lemma KeepRecent<K, V>(xs: seq<(K, V)>, k: K, v: V, capacity: nat)
    requires capacity > 0 && Distinct(xs)
    ensures Inserted(LastN(xs, capacity), k, v, capacity) == LastN(Without(xs, k) + [(k, v)], capacity)
  {
    var cache := LastN(xs, capacity);
    var older := xs[..|xs| - |cache|];
    assert xs == older + cache;
    if Has(cache, k) {
      KeepHit(older, cache, k, v, capacity);
    } else {
      KeepMiss(older, cache, k, v, capacity);
    }
  }

  lemma NotBoth<K, V>(a: seq<(K, V)>, b: seq<(K, V)>, k: K)
    requires Distinct(a + b) && Has(b, k)
    ensures !Has(a, k)
  {
    var j :| 0 <= j < |b| && b[j].0 == k;
    forall i | 0 <= i < |a| ensures a[i].0 != k {
      assert (a + b)[i].0 != (a + b)[|a| + j].0;
    }
  }

  lemma InsertExpected<K, V>(log: seq<(K, V)>, k: K, v: V, capacity: nat)
    requires capacity > 0
    ensures Inserted(Expected(log, capacity), k, v, capacity) == Expected(log + [(k, v)], capacity)
  {
    NewestDistinct(log, {});
    NewestStep(log, k, v);
    KeepRecent(Newest(log, {}), k, v, capacity);
  }

  lemma TouchIsInsert<K, V>(es: seq<(K, V)>, k: K, v: V, capacity: nat)
    requires capacity > 0 && |es| <= capacity && Distinct(es) && Find(es, k) == Some(v)
    ensures Touched(es, k) == Inserted(es, k, v, capacity)
  {
    if !Has(es, k) {
      WithoutAbsent(es, k);
    } else {
      WithoutPresent(es, k);
    }
  }

  // ---------------------------------------------------------------- traces

  datatype Call<K, V> = Get(key: K) | Insert(key: K, value: V)

  /** The touches a trace of calls makes: every insert, and every get that hits. */
  datatype Run<K, V> = Run(cache: seq<(K, V)>, log: seq<(K, V)>)

  function Step<K(==), V>(r: Run<K, V>, call: Call<K, V>, capacity: nat): Run<K, V>
    requires capacity > 0
  {
    match call
    case Insert(k, v) => Run(Inserted(r.cache, k, v, capacity), r.log + [(k, v)])
    case Get(k) =>
      match Find(r.cache, k)
      case None => r
      case Some(v) => Run(Touched(r.cache, k), r.log + [(k, v)])
  }

  function RunAll<K(==), V>(r: Run<K, V>, calls: seq<Call<K, V>>, capacity: nat): Run<K, V>
    requires capacity > 0
    decreases |calls|
  {
    if calls == [] then r else RunAll(Step(r, calls[0], capacity), calls[1..], capacity)
  }

  lemma {:induction false} TraceKeeps<K, V>(r: Run<K, V>, calls: seq<Call<K, V>>, capacity: nat)
    requires capacity > 0 && r.cache == Expected(r.log, capacity)
    ensures RunAll(r, calls, capacity).cache == Expected(RunAll(r, calls, capacity).log, capacity)
    decreases |calls|
  {
    if calls != [] {
      var k := calls[0].key;
      if calls[0].Insert? {
        InsertExpected(r.log, k, calls[0].value, capacity);
      } else if Find(r.cache, k).Some? {
        NewestDistinct(r.log, {});
        TouchIsInsert(r.cache, k, Find(r.cache, k).value, capacity);
        InsertExpected(r.log, k, Find(r.cache, k).value, capacity);
      }
      TraceKeeps(Step(r, calls[0], capacity), calls[1..], capacity);
    }
  }

  /**
   After any trace the cache holds exactly the last `capacity` distinct keys touched, in recency
   order, with their latest values.
   */
  lemma CacheAgreesWithHistory<K, V>(calls: seq<Call<K, V>>, capacity: nat)
    requires capacity > 0
    ensures var r := RunAll(Run([], []), calls, capacity);
            r.cache == Expected(r.log, capacity) && |r.cache| <= capacity
  {
    TraceKeeps(Run([], []), calls, capacity);
  }

  // ---------------------------------------------------------------- the cached function

  function History<K, V>(f: K -> V, ks: seq<K>): (r: seq<(K, V)>)
    ensures |r| == |ks|
  {
    seq(|ks|, i requires 0 <= i < |ks| => (ks[i], f(ks[i])))
  }

  ghost predicate Faithful<K, V>(es: seq<(K, V)>, f: K -> V) {
    forall i :: 0 <= i < |es| ==> es[i].1 == f(es[i].0)
  }

  lemma {:induction false} FaithfulFind<K, V>(es: seq<(K, V)>, f: K -> V, k: K)
    requires Faithful(es, f)
    ensures Find(es, k).Some? ==> Find(es, k).value == f(k)
    decreases |es|
  {
    if es != [] && es[0].0 != k {
      assert Faithful(es[1..], f);
      FaithfulFind(es[1..], f, k);
    }
  }

  lemma {:induction false} NewestFaithful<K, V>(log: seq<(K, V)>, f: K -> V, seen: set<K>)
    requires Faithful(log, f)
    ensures Faithful(Newest(log, seen), f)
    decreases |log|
  {
    if log != [] {
      var e, before := log[|log| - 1], log[..|log| - 1];
      NewestFaithful(before, f, seen);
      NewestFaithful(before, f, seen + {e.0});
    }
  }

  /** One call of the cached function: a hit is moved up, a miss is computed and inserted. */
  function Called<K(==), V>(es: seq<(K, V)>, f: K -> V, k: K, capacity: nat): seq<(K, V)>
    requires capacity > 0
  {
    match Find(es, k)
    case Some(_) => Touched(es, k)
    case None => Inserted(es, k, f(k), capacity)
  }

  function CalledAll<K(==), V>(f: K -> V, ks: seq<K>, capacity: nat): seq<(K, V)>
    requires capacity > 0
    decreases |ks|
  {
    if ks == [] then [] else Called(CalledAll(f, ks[..|ks| - 1], capacity), f, ks[|ks| - 1], capacity)
  }

  lemma CalledExpected<K, V>(f: K -> V, ks: seq<K>, k: K, capacity: nat)
    requires capacity > 0
    ensures Called(Expected(History(f, ks), capacity), f, k, capacity) == Expected(History(f, ks + [k]), capacity)
    ensures Find(Expected(History(f, ks), capacity), k).Some? ==>
              Find(Expected(History(f, ks), capacity), k).value == f(k)
    ensures Distinct(Expected(History(f, ks), capacity))
  {
    var log := History(f, ks);
    var es := Expected(log, capacity);
    NewestDistinct(log, {});
    NewestFaithful(log, f, {});
    FaithfulFind(es, f, k);
    InsertExpected(log, k, f(k), capacity);
    assert History(f, ks + [k]) == log + [(k, f(k))];
    if Find(es, k).Some? {
      TouchIsInsert(es, k, f(k), capacity);
    }
  }

  /** Hits and misses together leave what the history of all calls asks for. */
  lemma {:induction false} CallsFollowHistory<K, V>(f: K -> V, ks: seq<K>, capacity: nat)
    requires capacity > 0
    ensures CalledAll(f, ks, capacity) == Expected(History(f, ks), capacity)
    decreases |ks|
  {
    if ks != [] {
      var before, k := ks[..|ks| - 1], ks[|ks| - 1];
      CallsFollowHistory(f, before, capacity);
      CalledExpected(f, before, k, capacity);
      assert before + [k] == ks;
    }
  }

  /** On one trace of calls a smaller cache is always the most recent part of a larger one. */
  lemma SmallerIsRecentPart<K, V>(f: K -> V, ks: seq<K>, small: nat, large: nat)
    requires 0 < small <= large
    ensures CalledAll(f, ks, small) == LastN(CalledAll(f, ks, large), small)
  {
    CallsFollowHistory(f, ks, small);
    CallsFollowHistory(f, ks, large);
    LastOfLast(Newest(History(f, ks), {}), small, large);
  }

  lemma LastOfLast<T>(xs: seq<T>, small: nat, large: nat)
    requires small <= large
    ensures LastN(xs, small) == LastN(LastN(xs, large), small)
  {
  }

  class Cache<K(==), V> {
    const capacity: nat
    var entries: seq<(K, V)>

    constructor (capacity: nat)
      requires capacity > 0
      ensures this.capacity == capacity && entries == []
    {
      this.capacity := capacity;
      entries := [];
    }

    method IndexOf(k: K) returns (i: nat)
      ensures i <= |entries|
      ensures i < |entries| ==> entries[i].0 == k
      ensures forall j :: 0 <= j < i ==> entries[j].0 != k
    {
      i := 0;
      while i < |entries| && entries[i].0 != k
        invariant i <= |entries| && forall j :: 0 <= j < i ==> entries[j].0 != k
      {
        i := i + 1;
      }
    }

    method DoGet(k: K) returns (r: Option<V>)
      requires Distinct(entries)
      modifies this
      ensures r == Find(old(entries), k) && entries == Touched(old(entries), k)
    {
      var i := IndexOf(k);
      if i == |entries| {
        WithoutAbsent(entries, k);
        return None;
      }
      RemoveAt(entries, i);
      r := Some(entries[i].1);
      entries := entries[..i] + entries[i + 1..] + [entries[i]];
    }

    method DoInsert(k: K, v: V)
      requires capacity > 0 && Distinct(entries)
      modifies this
      ensures entries == Inserted(old(entries), k, v, capacity)
    {
      var i := IndexOf(k);
      if i < |entries| {
        RemoveAt(entries, i);
        entries := entries[..i] + entries[i + 1..];
      } else {
        WithoutAbsent(entries, k);
      }
      if |entries| == capacity {
        entries := entries[1..];
      }
      entries := entries + [(k, v)];
    }

    /** The cached function: always the function's own value, and the cache follows the calls. */
    method Call(f: K -> V, k: K, ghost calls: seq<K>) returns (v: V)
      requires capacity > 0 && entries == CalledAll(f, calls, capacity)
      modifies this
      ensures v == f(k)
      ensures entries == CalledAll(f, calls + [k], capacity)
    {
      CallsFollowHistory(f, calls, capacity);
      CalledExpected(f, calls, k, capacity);
      assert (calls + [k])[..|calls|] == calls;
      var r := DoGet(k);
      if r.None? {
        v := f(k);
        DoInsert(k, v);
      } else {
        v := r.value;
      }
    }
  }

  lemma {:induction false} RemoveAt<K, V>(es: seq<(K, V)>, i: nat)
    requires i < |es| && Distinct(es)
    ensures Without(es, es[i].0) == es[..i] + es[i + 1..] && Find(es, es[i].0) == Some(es[i].1)
    decreases |es|
  {
    var k := es[i].0;
    if i == 0 {
      assert !Has(es[1..], k);
      WithoutAbsent(es[1..], k);
    } else {
      assert es[0].0 != k;
      RemoveAt(es[1..], i - 1);
      assert es[1..][..i - 1] == es[1..i] && es[1..][i..] == es[i + 1..];
      assert [es[0]] + (es[1..i] + es[i + 1..]) == es[..i] + es[i + 1..];
    }
  }
}
