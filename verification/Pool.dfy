/**
 The connection pool: objects in use, objects waiting to be used again, and the queue of
 objects handed back, processed by several threads.
 */
module Pool {
  import opened Release

  type Item = nat

  // ---------------------------------------------------------------- connection facts the pool relies on

  /** An assignment inside of which nothing is assigned. */
  predicate SingleAssign(a: Act) {
    && a.DoAssign? && Quiet(a.first) && Quiet(a.second) && Quiet(a.ready)
    && NoAssigns(a.during) && NoAssigns(a.then_) && NoAssigns(a.onClose)
  }

  /** Putting a released object to use: exactly one new use, which may have ended and been handed back already. */
  lemma AssignOnce(c: Conn, a: Act)
    requires c.use.released && SingleAssign(a)
    ensures var c' := Perform(c, a);
            && c'.use.assigns == c.use.assigns + 1
            && c'.use.frees == c.use.frees + (if c'.use.released then 1 else 0)
  {
    var u := PutToUse(MarkClosed(c, false));
    PerformAllOneWay(u, a.during);
    var c2 := PerformAll(u, a.during);
    ReadyOneWay(c2, a.ready, true);
    PerformAllOneWay(Attend(c2, a.ready), a.then_);
    var c3 := PerformAll(Attend(c2, a.ready), a.then_);
    PerformAllOneWay(MarkClosed(c3, true), a.onClose);
  }

  /**
   Every use but the current one has ended in exactly one hand-back; the current one has
   ended if and only if the object is released.
   */
  ghost predicate Balanced(c: Conn) {
    c.use.frees + (if c.use.released then 0 else 1) == c.use.assigns
  }

  // ---------------------------------------------------------------- the pool

  /**
   `active`, `pooled` and `queue` are the pool's sets; `taken[t]` is the queue thread `t`
   has swapped out and not yet merged; `handed` is a history variable: objects given out
   by `create` and not yet put to use.
   */
  datatype World = World(active: set<Item>, pooled: set<Item>, queue: set<Item>, taken: map<nat, set<Item>>,
                         limit: nat, conns: map<Item, Conn>, handed: set<Item>)

  datatype Event =
    | Create(item: Item)                                        // the part of create under the mutex
    | Assign(item: Item, act: Act)                              // an object is put to use in turn
    | Use(item: Item, act: Act)                                 // anything else done to an object
    | Swap(thread: nat)                                         // first half of process_free
    | Merge(thread: nat)                                        // second half

  function Begin(limit: nat): World {
    World({}, {}, {}, map[], limit, map[], {})
  }

  ghost predicate InThreadsHands(w: World, item: Item) {
    exists t :: t in w.taken && item in w.taken[t]
  }

  /**
   The assignment comes in turn: the object has been given out and not yet used; or its new
   use ends inside the assignment, and the object is active and no thread is about to pool it.
   */
  ghost predicate InTurn(w: World, item: Item, a: Act)
    requires item in w.conns
  {
    || item in w.handed
    || (Perform(w.conns[item], a).use.released && item in w.active && !InThreadsHands(w, item))
  }

  ghost predicate Enabled(w: World, e: Event) {
    match e
    case Create(item) =>
      if w.pooled == {} then |w.active| < w.limit && item !in w.conns else item in w.pooled
    case Assign(item, act) => item in w.conns && SingleAssign(act) && InTurn(w, item, act)
    case Use(item, act) => item in w.conns && NoAssign(act)
    case Swap(t) => t !in w.taken && w.queue != {}
    case Merge(t) => t in w.taken
  }

  /** The object's state changes; if that handed it back, it goes into the queue. */
  function Touch(w: World, item: Item, c': Conn): World
    requires item in w.conns
  {
    var handedBack := c'.use.frees > w.conns[item].use.frees;
    w.(conns := w.conns[item := c'], queue := if handedBack then w.queue + {item} else w.queue)
  }

  /** `Merge` with an object that is not active is the "item not found" exception. */
  predicate Throws(w: World, e: Event) {
    e.Merge? && e.thread in w.taken && !(w.taken[e.thread] <= w.active)
  }

  function Step(w: World, e: Event): World
    requires Enabled(w, e)
  {
    match e
    case Create(item) =>
      var w1 := w.(active := w.active + {item}, handed := w.handed + {item});
      if w.pooled == {} then w1.(conns := w.conns[item := New(true)]) else w1.(pooled := w.pooled - {item})
    case Assign(item, act) => Touch(w, item, Perform(w.conns[item], act)).(handed := w.handed - {item})
    case Use(item, act) => Touch(w, item, Perform(w.conns[item], act))
    case Swap(t) => w.(taken := w.taken[t := w.queue], queue := {})
    case Merge(t) =>
      w.(active := w.active - w.taken[t], pooled := w.pooled + (w.taken[t] * w.active), taken := w.taken - {t})
  }

  // ---------------------------------------------------------------- the invariant

  /** Waiting to be merged: in the queue or in some thread's hands. */
  ghost predicate Waiting(w: World, i: Item) {
    i in w.queue || exists t :: t in w.taken && i in w.taken[t]
  }

  /** Active and pooled objects are all objects, share none, and are within the limit. */
  ghost predicate Partition(w: World) {
    && w.active !! w.pooled && w.active + w.pooled == w.conns.Keys && w.handed <= w.active
    && |w.active| + |w.pooled| <= w.limit
  }

  ghost predicate QueuesApart(w: World) {
    && (forall t :: t in w.taken ==> w.taken[t] !! w.queue)
    && (forall t, u :: t in w.taken && u in w.taken && t != u ==> w.taken[t] !! w.taken[u])
  }

  /** An object waits to be merged exactly when it is active, was put to use, and has been released since. */
  ghost predicate ItemSound(w: World, i: Item) {
    && (i in w.conns ==> Balanced(w.conns[i]))
    && (Waiting(w, i) ==> i in w.active && i in w.conns && i !in w.handed && w.conns[i].use.released)
    && (i in w.conns && !w.conns[i].use.released ==> i in w.active && i !in w.handed)
    && (i in w.active && i in w.conns && i !in w.handed && w.conns[i].use.released ==> Waiting(w, i))
  }

  ghost predicate Inv(w: World) {
    Partition(w) && QueuesApart(w) && forall i :: ItemSound(w, i)
  }

  lemma NewInv(w: World, item: Item)
    requires Inv(w) && Enabled(w, Create(item)) && w.pooled == {}
    ensures Inv(Step(w, Create(item)))
  {
    var w' := Step(w, Create(item));
    assert ItemSound(w, item);
    assert w'.active == w.active + {item} && item !in w.active;
    forall i ensures ItemSound(w', i) {
      assert ItemSound(w, i);
      assert Waiting(w', i) <==> Waiting(w, i);
    }
  }

  lemma ReuseInv(w: World, item: Item)
    requires Inv(w) && Enabled(w, Create(item)) && w.pooled != {}
    ensures Inv(Step(w, Create(item)))
  {
    var w' := Step(w, Create(item));
    MoveOne(w.active, w.pooled, item);
    assert ItemSound(w, item);
    forall i ensures ItemSound(w', i) {
      assert ItemSound(w, i);
      assert Waiting(w', i) <==> Waiting(w, i);
    }
  }

  lemma MoveOne(a: set<Item>, p: set<Item>, item: Item)
    requires a !! p && item in p
    ensures |a + {item}| + |p - {item}| == |a| + |p|
    ensures (a + {item}) + (p - {item}) == a + p
  {
  }

  lemma TouchInv(w: World, item: Item, c': Conn, handed': set<Item>)
    requires Inv(w) && item in w.conns && Balanced(c')
    requires handed' == w.handed - {item} && (item in w.handed || handed' == w.handed)
    requires item in w.handed ==> c'.use.assigns == w.conns[item].use.assigns + 1
    requires item !in w.handed ==>
               c'.use.assigns == w.conns[item].use.assigns && (w.conns[item].use.released ==> c'.use.released)
    ensures Inv(Touch(w, item, c').(handed := handed'))
  {
    var w' := Touch(w, item, c').(handed := handed');
    var c := w.conns[item];
    var back := c'.use.frees > c.use.frees;
    assert ItemSound(w, item);
    assert back ==> !Waiting(w, item) && item in w.active;
    assert back <==> c'.use.released && (item in w.handed || !c.use.released);
    forall i ensures ItemSound(w', i) {
      assert ItemSound(w, i);
      assert Waiting(w', i) <==> Waiting(w, i) || (back && i == item);
    }
  }

  lemma SwapInv(w: World, t: nat)
    requires Inv(w) && Enabled(w, Swap(t))
    ensures Inv(Step(w, Swap(t)))
  {
    var w' := Step(w, Swap(t));
    forall i ensures ItemSound(w', i) {
      assert ItemSound(w, i);
      SwapWaiting(w, t, i);
    }
  }

  lemma SwapWaiting(w: World, t: nat, i: Item)
    requires Enabled(w, Swap(t))
    ensures Waiting(Step(w, Swap(t)), i) <==> Waiting(w, i)
  {
    var w' := Step(w, Swap(t));
    if i in w.queue {
      assert i in w'.taken[t];
    }
    if u :| u in w.taken && i in w.taken[u] {
      assert u in w'.taken && i in w'.taken[u];
    }
  }

  lemma MergeSizes(active: set<Item>, pooled: set<Item>, q: set<Item>)
    requires q <= active && active !! pooled
    ensures |active - q| + |pooled + q| == |active| + |pooled|
  {
    assert active == (active - q) + q;
    assert |active| == |active - q| + |q|;
    assert |pooled + q| == |pooled| + |q|;
  }

  lemma MergeWaiting(w: World, t: nat, i: Item)
    requires QueuesApart(w) && Enabled(w, Merge(t))
    ensures Waiting(Step(w, Merge(t)), i) <==> Waiting(w, i) && i !in w.taken[t]
  {
    var w' := Step(w, Merge(t));
    if i !in w.taken[t] && Waiting(w, i) && i !in w.queue {
      var u :| u in w.taken && i in w.taken[u];
      assert u in w'.taken && i in w'.taken[u];
    }
    if u :| u in w'.taken && i in w'.taken[u] {
      assert u in w.taken && u != t;
    }
  }

  lemma MergePartition(w: World, t: nat)
    requires Inv(w) && Enabled(w, Merge(t))
    ensures !Throws(w, Merge(t)) && Partition(Step(w, Merge(t)))
  {
    var q := w.taken[t];
    forall i | i in q ensures i in w.active && i !in w.handed {
      assert ItemSound(w, i) && Waiting(w, i);
    }
    assert q * w.active == q;
    MergeSizes(w.active, w.pooled, q);
  }

  lemma MergeItem(w: World, t: nat, i: Item)
    requires Inv(w) && Enabled(w, Merge(t))
    ensures ItemSound(Step(w, Merge(t)), i)
  {
    assert ItemSound(w, i);
    assert i in w.taken[t] ==> Waiting(w, i);
    MergeWaiting(w, t, i);
  }

  lemma MergeInv(w: World, t: nat)
    requires Inv(w) && Enabled(w, Merge(t))
    ensures !Throws(w, Merge(t)) && Inv(Step(w, Merge(t)))
  {
    MergePartition(w, t);
    forall i ensures ItemSound(Step(w, Merge(t)), i) {
      MergeItem(w, t, i);
    }
  }

  /** Every step keeps the invariant, and none throws. */
  lemma StepInv(w: World, e: Event)
    requires Inv(w) && Enabled(w, e)
    ensures !Throws(w, e) && Inv(Step(w, e))
  {
    match e
    case Create(item) =>
      if w.pooled == {} { NewInv(w, item); } else { ReuseInv(w, item); }
    case Assign(item, act) =>
      if item in w.handed {
        assert ItemSound(w, item);
        AssignOnce(w.conns[item], act);
        TouchInv(w, item, Perform(w.conns[item], act), w.handed - {item});
      } else {
        EndsAtOnce(w, item, act);
      }
    case Use(item, act) => UseInv(w, item, act);
    case Swap(t) => SwapInv(w, t);
    case Merge(t) => MergeInv(w, t);
  }

  lemma UseInv(w: World, item: Item, act: Act)
    requires Inv(w) && Enabled(w, Use(item, act))
    ensures Inv(Step(w, Use(item, act)))
  {
    var c := w.conns[item];
    assert ItemSound(w, item);
    PerformOneWay(c, act);
    if item in w.handed {
      HandedStays(w, item, Perform(c, act));
    } else {
      TouchInv(w, item, Perform(c, act), w.handed - {item});
      assert w.handed - {item} == w.handed;
    }
  }

  /** An object that is not in use cannot be handed back by anything done to it. */
  lemma HandedStays(w: World, item: Item, c': Conn)
    requires Inv(w) && item in w.handed && Balanced(c') && OneWay(w.conns[item], c')
    ensures Inv(Touch(w, item, c'))
  {
    var w' := Touch(w, item, c');
    assert ItemSound(w, item);
    forall i ensures ItemSound(w', i) {
      assert ItemSound(w, i);
      assert Waiting(w', i) <==> Waiting(w, i);
    }
  }

  // ---------------------------------------------------------------- whole runs

  ghost predicate Possible(w: World, es: seq<Event>)
    decreases |es|
  {
    es == [] || (Enabled(w, es[0]) && Possible(Step(w, es[0]), es[1..]))
  }

  function After(w: World, es: seq<Event>): World
    requires Possible(w, es)
    decreases |es|
  {
    if es == [] then w else After(Step(w, es[0]), es[1..])
  }

  lemma {:induction false} RunInv(w: World, es: seq<Event>)
    requires Inv(w) && Possible(w, es)
    ensures Inv(After(w, es)) && After(w, es).limit == w.limit
    decreases |es|
  {
    if es != [] {
      StepInv(w, es[0]);
      RunInv(Step(w, es[0]), es[1..]);
    }
  }

  lemma BeginInv(limit: nat)
    ensures Inv(Begin(limit))
  {
  }

  /**
   Over every run, whatever the interleaving of uses, hand-backs, swaps and merges: "item
   not found" is never thrown, active and pooled objects are together all objects ever
   created and share none, there are never more than the limit, and a pooled object is
   never one that is in use.
   */
  lemma PoolIsSound(limit: nat, es: seq<Event>, e: Event)
    requires Possible(Begin(limit), es)
    ensures var w := After(Begin(limit), es);
            && w.active !! w.pooled && w.active + w.pooled == w.conns.Keys
            && |w.active| + |w.pooled| <= limit
            && (forall i :: i in w.pooled ==> w.conns[i].use.released)
            && (Enabled(w, e) ==> !Throws(w, e))
  {
    BeginInv(limit);
    RunInv(Begin(limit), es);
    var w := After(Begin(limit), es);
    forall i | i in w.pooled ensures w.conns[i].use.released {
      assert ItemSound(w, i);
    }
    if Enabled(w, e) {
      StepInv(w, e);
    }
  }

  /** An object can be had exactly when one is pooled or fewer than the limit are active. */
  lemma CreateIff(w: World)
    requires Inv(w)
    ensures (exists item :: Enabled(w, Create(item))) <==> w.pooled != {} || |w.active| < w.limit
  {
    if w.pooled != {} {
      var item :| item in w.pooled;
      assert Enabled(w, Create(item));
    } else if |w.active| < w.limit {
      var item := Above(w.conns.Keys);
      assert Enabled(w, Create(item));
    }
  }

  /** What is had: a pooled object if there is one, otherwise a new one; it becomes active and waits to be used. */
  lemma CreateGives(w: World, item: Item)
    requires Inv(w) && Enabled(w, Create(item))
    ensures var w' := Step(w, Create(item));
            && w'.active == w.active + {item} && w'.pooled == w.pooled - {item} && w'.handed == w.handed + {item}
            && (w.pooled == {} ==> item !in w.conns && w'.conns == w.conns[item := New(true)])
            && (w.pooled != {} ==> item in w.pooled && w'.conns == w.conns)
  {
  }

  /** Swapping the queue out and merging it moves exactly what was queued from active to pooled. */
  lemma SwapThenMerge(w: World, t: nat)
    requires Inv(w) && Enabled(w, Swap(t))
    ensures var w' := Step(Step(w, Swap(t)), Merge(t));
            && w'.active == w.active - w.queue && w'.pooled == w.pooled + w.queue && w'.queue == {}
            && w'.taken == w.taken
  {
    forall i | i in w.queue ensures i in w.active {
      assert ItemSound(w, i) && Waiting(w, i);
    }
    assert w.queue * w.active == w.queue;
  }

  // ---------------------------------------------------------------- putting to use out of turn

  /**
   An assignment hands back the use it finds going on, and its own use if that has ended
   inside it.
   */
  lemma AssignHandsBack(c: Conn, a: Act)
    requires SingleAssign(a)
    ensures var c' := Perform(c, a);
            && c'.use.assigns == c.use.assigns + 1
            && c'.use.frees == c.use.frees + (if c.use.released then 0 else 1) + (if c'.use.released then 1 else 0)
  {
    var c0 := MarkClosed(c, false);
    RecycleReleases(c0, a.first, a.second);
    var u := PutToUse(ReleaseUnlessReleased(ReleaseUnlessReleased(c0, a.first), a.second));
    PerformAllOneWay(u, a.during);
    var c2 := PerformAll(u, a.during);
    ReadyOneWay(c2, a.ready, true);
    PerformAllOneWay(Attend(c2, a.ready), a.then_);
    var c3 := PerformAll(Attend(c2, a.ready), a.then_);
    PerformAllOneWay(MarkClosed(c3, true), a.onClose);
  }

  /** The world after an assignment of any object, given out or not. */
  function Reassign(w: World, item: Item, a: Act): World
    requires item in w.conns
  {
    Touch(w, item, Perform(w.conns[item], a)).(handed := w.handed - {item})
  }

  /** Something is wrong for everyone to see: a pooled object is in use, or a merge would not find its object. */
  ghost predicate Wrong(w: World) {
    || (exists i :: i in w.pooled && i in w.conns && !w.conns[i].use.released)
    || exists t :: t in w.taken && Throws(w, Merge(t))
  }

  predicate IsClearing(e: Event) {
    e.Swap? || e.Merge?
  }

  /** Clearing the queue, in some order, brings something wrong to light. */
  ghost predicate GoesWrong(w: World) {
    exists es :: Possible(w, es) && (forall i :: 0 <= i < |es| ==> IsClearing(es[i])) && Wrong(After(w, es))
  }

  lemma SoundIsNotWrong(w: World)
    requires Inv(w)
    ensures !Wrong(w)
  {
    forall i | i in w.pooled && i in w.conns ensures w.conns[i].use.released {
      assert ItemSound(w, i);
    }
    forall t | t in w.taken ensures !Throws(w, Merge(t)) {
      MergePartition(w, t);
    }
  }

  lemma SoundNeverGoesWrong(w: World)
    requires Inv(w)
    ensures !GoesWrong(w)
  {
    forall es | Possible(w, es) ensures !Wrong(After(w, es)) {
      RunInv(w, es);
      SoundIsNotWrong(After(w, es));
    }
  }

  lemma EndsAtOnce(w: World, item: Item, a: Act)
    requires Inv(w) && item in w.conns && SingleAssign(a) && item !in w.handed && InTurn(w, item, a)
    ensures Inv(Reassign(w, item, a))
  {
    var w' := Reassign(w, item, a);
    assert ItemSound(w, item);
    AssignHandsBack(w.conns[item], a);
    assert w'.handed == w.handed && w'.queue == w.queue + {item};
    forall i ensures ItemSound(w', i) {
      assert ItemSound(w, i);
      assert Waiting(w', i) <==> Waiting(w, i) || i == item;
    }
  }

  lemma {:induction false} Above(s: set<nat>) returns (t: nat)
    ensures forall x :: x in s ==> x < t
    decreases |s|
  {
    if s == {} {
      t := 0;
    } else {
      var x :| x in s;
      var u := Above(s - {x});
      assert forall y | y in s :: y == x || y in s - {x};
      t := if x < u then u else x + 1;
    }
  }

  /** An active object in the queue and in use: swapped out and merged, it is pooled in use. */
  lemma PooledThroughQueue(w: World, item: Item)
    requires item in w.queue && item in w.active && item in w.conns && !w.conns[item].use.released
    ensures GoesWrong(w)
  {
    var t := Above(w.taken.Keys);
    var es := [Swap(t), Merge(t)];
    var w1 := Step(w, Swap(t));
    var w2 := Step(w1, Merge(t));
    assert es[1..] == [Merge(t)] && es[1..][1..] == [];
    assert Possible(w2, []) && Possible(w1, es[1..]) && Possible(w, es);
    assert After(w, es) == After(w1, es[1..]) == After(w2, []) == w2;
    assert item in w2.pooled && item in w2.conns && !w2.conns[item].use.released;
  }

  /** An object in use that a thread is about to pool. */
  lemma PooledByThread(w: World, item: Item, t: nat)
    requires t in w.taken && item in w.taken[t] && item in w.active && item in w.conns && !w.conns[item].use.released
    ensures GoesWrong(w)
  {
    var es := [Merge(t)];
    var w1 := Step(w, Merge(t));
    assert es[1..] == [];
    assert Possible(w1, []) && Possible(w, es);
    assert After(w, es) == After(w1, []) == w1;
    assert item in w1.pooled && item in w1.conns && !w1.conns[item].use.released;
  }

  /** A queued object that is not active will not be found. */
  lemma NotFoundInQueue(w: World, item: Item)
    requires item in w.queue && item !in w.active
    ensures GoesWrong(w)
  {
    var t := Above(w.taken.Keys);
    var es := [Swap(t)];
    var w1 := Step(w, Swap(t));
    assert es[1..] == [];
    assert Possible(w1, []) && Possible(w, es);
    assert After(w, es) == After(w1, []) == w1;
    assert t in w1.taken && Throws(w1, Merge(t));
  }

  /** Nor one that is queued twice, once the first is merged. */
  lemma NotFoundTwice(w: World, item: Item, t: nat)
    requires item in w.queue && t in w.taken && item in w.taken[t]
    ensures GoesWrong(w)
  {
    var w1 := Step(w, Merge(t));
    NotFoundInQueue(w1, item);
    var rest :| Possible(w1, rest) && (forall i :: 0 <= i < |rest| ==> IsClearing(rest[i])) && Wrong(After(w1, rest));
    var es := [Merge(t)] + rest;
    assert es[1..] == rest;
    assert Possible(w, es) && After(w, es) == After(w1, rest);
  }

  lemma OutOfTurn(w: World, item: Item, a: Act)
    requires Inv(w) && item in w.conns && SingleAssign(a) && !InTurn(w, item, a)
    ensures GoesWrong(Reassign(w, item, a))
  {
    var w' := Reassign(w, item, a);
    assert ItemSound(w, item);
    AssignHandsBack(w.conns[item], a);
    if item !in w.active {
      if w'.conns[item].use.released {
        NotFoundInQueue(w', item);
      } else {
        assert Possible(w', []) && After(w', []) == w' && item in w'.pooled;
        assert Wrong(w');
      }
    } else if InThreadsHands(w, item) {
      var t :| t in w.taken && item in w.taken[t];
      assert Waiting(w, item);
      if w'.conns[item].use.released {
        NotFoundTwice(w', item, t);
      } else {
        PooledByThread(w', item, t);
      }
    } else {
      assert w.conns[item].use.released ==> Waiting(w, item);
      PooledThroughQueue(w', item);
    }
  }

  /**
   When an object may be put to use, for every reachable pool, every object and every
   assignment whose callbacks assign nothing: clearing the queue never brings anything wrong
   to light if and only if the assignment comes in turn.
   */
  lemma AssignInTurnIff(w: World, item: Item, a: Act)
    requires Inv(w) && item in w.conns && SingleAssign(a)
    ensures !GoesWrong(Reassign(w, item, a)) <==> InTurn(w, item, a)
    ensures Inv(Reassign(w, item, a)) <==> InTurn(w, item, a)
  {
    if !InTurn(w, item, a) {
      OutOfTurn(w, item, a);
      if Inv(Reassign(w, item, a)) {
        SoundNeverGoesWrong(Reassign(w, item, a));
      }
    } else {
      assert Reassign(w, item, a) == Step(w, Assign(item, a));
      StepInv(w, Assign(item, a));
      SoundNeverGoesWrong(Reassign(w, item, a));
    }
  }

  // ---------------------------------------------------------------- the object

  class ConnectionPool {
    var active: set<Item>
    var pooled: set<Item>
    var queue: set<Item>
    var limit: nat

    constructor (limit: nat)
      ensures active == {} && pooled == {} && queue == {} && this.limit == limit
    {
      active, pooled, queue := {}, {}, {};
      this.limit := limit;
    }

    method Free(item: Item)
      modifies this`queue
      ensures queue == old(queue) + {item}
    {
      queue := queue + {item};
    }

    /** Moves everything handed back from active to pooled; throws on an object that is not active. */
    method ProcessFree() returns (thrown: bool)
      modifies this
      ensures queue == {} && limit == old(limit)
      ensures thrown <==> !(old(queue) <= old(active))
      ensures !thrown ==> active == old(active) - old(queue) && pooled == old(pooled) + old(queue)
    {
      var q := queue;
      queue := {};
      thrown := MergeAll(q);
    }

    method MergeAll(items: set<Item>) returns (thrown: bool)
      modifies this`active, this`pooled
      ensures thrown <==> !(items <= old(active))
      ensures !thrown ==> active == old(active) - items && pooled == old(pooled) + items
    {
      var q := items;
      while q != {}
        invariant q <= items && items - q <= old(active)
        invariant active == old(active) - (items - q) && pooled == old(pooled) + (items - q)
        decreases |q|
      {
        var item :| item in q;
        if item !in active {
          return true;
        }
        pooled, active := pooled + {item}, active - {item};
        q := q - {item};
      }
      return false;
    }

    /** Reuses a pooled object, or makes a new one while fewer than the limit are active. */
    method Pick(newItem: Item) returns (item: Item, found: bool)
      requires newItem !in active && newItem !in pooled
      modifies this`active, this`pooled
      ensures old(pooled) != {} ==>
                found && item in old(pooled) && active == old(active) + {item} && pooled == old(pooled) - {item}
      ensures old(pooled) == {} ==> pooled == {} && (found <==> |old(active)| < limit)
      ensures old(pooled) == {} ==> active == if found then old(active) + {item} else old(active)
      ensures old(pooled) == {} ==> item == newItem
    {
      item, found := newItem, false;
      if pooled == {} {
        if |active| < limit {
          active, found := active + {newItem}, true;
        }
      } else {
        item :| item in pooled;
        active, pooled, found := active + {item}, pooled - {item}, true;
      }
    }

    method Create(newItem: Item) returns (thrown: bool, item: Item, found: bool)
      requires newItem !in active && newItem !in pooled && newItem !in queue
      modifies this
      ensures thrown <==> !(old(queue) <= old(active))
      ensures !thrown && found ==> active == old(active) - old(queue) + {item}
      ensures !thrown && found && item != newItem ==>
                item in old(pooled) + old(queue) && pooled == old(pooled) + old(queue) - {item}
      ensures !thrown && (!found || item == newItem) ==> old(pooled) + old(queue) == {} && pooled == {}
      ensures !thrown ==> (found <==> old(pooled) + old(queue) != {} || |old(active) - old(queue)| < limit)
    {
      thrown := ProcessFree();
      if thrown {
        return true, newItem, false;
      }
      item, found := Pick(newItem);
    }
  }
}
