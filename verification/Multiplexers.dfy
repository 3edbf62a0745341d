/**
 Two multiplexers with one meaning: the epoll-based one against a model of the kernel's
 interest list, and the select-based one with its descriptor bound.
 */
module Multiplexers {
  import opened Bytes

  datatype Ev = In | Out | Pri

  type Fd = nat

  type Observer = nat

  /** A call on either multiplexer, with the observer to notify. */
  datatype Call = Set(d: Fd, ev: Ev, who: Observer) | Reset(d: Fd, ev: Ev)

  // ---------------------------------------------------------------- epoll

  datatype Ctl = Add | Mod | Del

  /** One entry of the handler vector; a new entry is not ready and watches nothing. */
  datatype Slot = Slot(mask: set<Ev>, who: Option<Observer>, ready: bool)

  const EMPTY := Slot({}, None, false)

  datatype Epoll = Epoll(slots: seq<Slot>, kernel: map<Fd, set<Ev>>)

  /** The kernel refuses to add what it has and to change or delete what it has not. */
  function EpollCtl(kernel: map<Fd, set<Ev>>, op: Ctl, d: Fd, mask: set<Ev>): Option<map<Fd, set<Ev>>> {
    match op
    case Add => if d in kernel then None else Some(kernel[d := mask])
    case Mod => if d in kernel then Some(kernel[d := mask]) else None
    case Del => if d in kernel then Some(kernel - {d}) else None
  }

  function Grown<T>(xs: seq<T>, n: nat, x: T): (r: seq<T>)
    ensures |r| >= n && |r| >= |xs|
    ensures forall i :: 0 <= i < |r| ==> r[i] == if i < |xs| then xs[i] else x
  {
    if |xs| < n then xs + seq(n - |xs|, _ => x) else xs
  }

  /** None stands for a throw. */
  function EpollStep(e: Epoll, call: Call): Option<Epoll> {
    match call
    case Set(d, ev, who) =>
      var slots := Grown(e.slots, d + 1, EMPTY);
      var s := slots[d];
      var s1 := if s.ready then Slot(s.mask + {ev}, Some(who), true) else Slot({ev}, Some(who), true);
      var op := if s.ready && s.mask != {} then Mod else Add;
      (match EpollCtl(e.kernel, op, d, s1.mask)
       case None => None
       case Some(k) => Some(Epoll(slots[d := s1], k)))
    case Reset(d, ev) =>
      if d >= |e.slots| || !e.slots[d].ready then None
      else if e.slots[d].mask == {} then Some(e)
      else
        var mask := e.slots[d].mask - {ev};
        var op := if mask == {} then Del else Mod;
        match EpollCtl(e.kernel, op, d, mask)
        case None => None
        case Some(k) => Some(Epoll(e.slots[d := Slot(mask, e.slots[d].who, mask != {})], k))
  }

  /** Ready, watching something and registered are the same thing, and the kernel knows the mask. */
  ghost predicate EpollInv(e: Epoll) {
    forall d: Fd ::
      if d < |e.slots| then
        && (e.slots[d].ready <==> e.slots[d].mask != {}) && (e.slots[d].ready <==> d in e.kernel)
        && (d in e.kernel ==> e.kernel[d] == e.slots[d].mask)
      else d !in e.kernel
  }

  ghost predicate EpollWatches(e: Epoll, d: Fd, ev: Ev) {
    d < |e.slots| && ev in e.slots[d].mask
  }

  // ---------------------------------------------------------------- select

  /** One of each for reading, writing and urgent data. */
  datatype Three<T> = Three(r: T, w: T, u: T) {
    function At(ev: Ev): T {
      match ev
      case In => r
      case Out => w
      case Pri => u
    }

    function Put(ev: Ev, x: T): (t: Three<T>)
      ensures forall e: Ev :: t.At(e) == if e == ev then x else At(e)
    {
      match ev
      case In => this.(r := x)
      case Out => this.(w := x)
      case Pri => this.(u := x)
    }
  }

  /** One handler vector and one descriptor set for each kind of event, and the descriptor bound. */
  datatype Selector = Selector(handlers: Three<seq<Option<Observer>>>, sets: Three<set<Fd>>, fdSize: nat)

  predicate AnySet(sets: Three<set<Fd>>, d: Fd) {
    d in sets.r || d in sets.w || d in sets.u
  }

  lemma AnySetMeans(sets: Three<set<Fd>>, d: Fd)
    ensures AnySet(sets, d) <==> exists ev: Ev :: d in sets.At(ev)
  {
    assert sets.At(In) == sets.r && sets.At(Out) == sets.w && sets.At(Pri) == sets.u;
  }

  /** The shrinking loop: down to the highest descriptor still watched. */
  function Shrunk(sets: Three<set<Fd>>, n: nat): (r: nat)
    ensures r <= n && (r > 0 ==> AnySet(sets, r - 1))
    ensures forall d :: r <= d < n ==> !AnySet(sets, d)
    decreases n
  {
    if n == 0 || AnySet(sets, n - 1) then n else Shrunk(sets, n - 1)
  }

  function FdSize(sets: Three<set<Fd>>, old0: nat, d: Fd, on: bool): nat {
    if on then (if d + 1 > old0 then d + 1 else old0)
    else if d + 1 == old0 then Shrunk(sets, old0)
    else old0
  }

  function SelectStep(s: Selector, call: Call): Selector
  {
    var mh := if call.Set? then Some(call.who) else None;
    var hs := Grown(s.handlers.At(call.ev), call.d + 1, None)[call.d := mh];
    var fds := if call.Set? then s.sets.At(call.ev) + {call.d} else s.sets.At(call.ev) - {call.d};
    var sets := s.sets.Put(call.ev, fds);
    Selector(s.handlers.Put(call.ev, hs), sets, FdSize(sets, s.fdSize, call.d, call.Set?))
  }

  /** A descriptor is in a set exactly when it has a handler, and the bound is one more than the highest watched. */
  ghost predicate SelectInv(s: Selector) {
    && (forall ev: Ev, d: Fd :: d in s.sets.At(ev) <==> d < |s.handlers.At(ev)| && s.handlers.At(ev)[d].Some?)
    && (forall d: Fd :: AnySet(s.sets, d) ==> d < s.fdSize)
    && (s.fdSize > 0 ==> AnySet(s.sets, s.fdSize - 1))
  }

  ghost predicate SelectWatches(s: Selector, d: Fd, ev: Ev) {
    d in s.sets.At(ev)
  }

  // ---------------------------------------------------------------- one meaning

  /**
   The epoll multiplexer throws exactly on a reset of a descriptor nobody watches; every other
   kernel call is accepted.
   */
  lemma EpollKeeps(e: Epoll, call: Call)
    requires EpollInv(e)
    ensures EpollStep(e, call).None? <==> call.Reset? && (forall ev :: !EpollWatches(e, call.d, ev))
    ensures EpollStep(e, call).Some? ==> EpollInv(EpollStep(e, call).value)
    ensures EpollStep(e, call).Some? ==> forall d, ev ::
              EpollWatches(EpollStep(e, call).value, d, ev) <==>
              if d == call.d && ev == call.ev then call.Set? else EpollWatches(e, d, ev)
  {
    match call
    case Set(d, ev, who) => EpollSetKeeps(e, d, ev, who);
    case Reset(d, ev) => EpollResetKeeps(e, d, ev);
  }

  lemma EpollSetKeeps(e: Epoll, d: Fd, ev: Ev, who: Observer)
    requires EpollInv(e)
    ensures EpollStep(e, Set(d, ev, who)).Some? && EpollInv(EpollStep(e, Set(d, ev, who)).value)
    ensures forall x, v :: EpollWatches(EpollStep(e, Set(d, ev, who)).value, x, v) <==>
              (x == d && v == ev) || EpollWatches(e, x, v)
  {
    var slots := Grown(e.slots, d + 1, EMPTY);
    assert slots[d].ready <==> d in e.kernel;
  }

  lemma EpollResetKeeps(e: Epoll, d: Fd, ev: Ev)
    requires EpollInv(e)
    ensures EpollStep(e, Reset(d, ev)).None? <==> forall v :: !EpollWatches(e, d, v)
    ensures EpollStep(e, Reset(d, ev)).Some? ==> EpollInv(EpollStep(e, Reset(d, ev)).value)
    ensures EpollStep(e, Reset(d, ev)).Some? ==> forall x, v ::
              EpollWatches(EpollStep(e, Reset(d, ev)).value, x, v) <==> !(x == d && v == ev) && EpollWatches(e, x, v)
  {
    if d < |e.slots| && e.slots[d].ready {
      var v :| v in e.slots[d].mask;
      assert EpollWatches(e, d, v);
    } else if d < |e.slots| {
      assert e.slots[d].mask == {};
    }
  }

  lemma SelectKeeps(s: Selector, call: Call)
    requires SelectInv(s)
    ensures SelectInv(SelectStep(s, call))
    ensures forall d, ev :: SelectWatches(SelectStep(s, call), d, ev) <==>
              if d == call.d && ev == call.ev then call.Set? else SelectWatches(s, d, ev)
  {
    var s' := SelectStep(s, call);
    forall d: Fd ensures AnySet(s'.sets, d) <==> exists ev: Ev :: d in s'.sets.At(ev) {
      AnySetMeans(s'.sets, d);
    }
    forall d: Fd | d != call.d ensures AnySet(s'.sets, d) <==> AnySet(s.sets, d) {
      AnySetMeans(s.sets, d);
      assert forall ev: Ev :: d in s'.sets.At(ev) <==> d in s.sets.At(ev);
    }
    assert call.Set? ==> call.d in s'.sets.At(call.ev);
    AnySetMeans(s.sets, call.d);
  }

  /** The kernel refuses exactly to add a descriptor it has and to change or delete one it has not. */
  lemma KernelRefusesIff(kernel: map<Fd, set<Ev>>, op: Ctl, d: Fd, mask: set<Ev>)
    ensures EpollCtl(kernel, op, d, mask).None? <==> (op == Add <==> d in kernel)
    ensures EpollCtl(kernel, op, d, mask).Some? ==>
              EpollCtl(kernel, op, d, mask).value == if op == Del then kernel - {d} else kernel[d := mask]
  {
  }

  /** The observer given last is the one to notify, and nobody else's changes. */
  lemma LastObserver(e: Epoll, s: Selector, d: Fd, ev: Ev, who: Observer)
    requires EpollInv(e) && SelectInv(s)
    ensures var e' := EpollStep(e, Set(d, ev, who));
            && e'.Some? && d < |e'.value.slots| && e'.value.slots[d].who == Some(who)
            && forall x :: 0 <= x < |e.slots| && x != d ==> x < |e'.value.slots| && e'.value.slots[x] == e.slots[x]
    ensures var s' := SelectStep(s, Set(d, ev, who));
            && d < |s'.handlers.At(ev)| && s'.handlers.At(ev)[d] == Some(who)
            && (forall x :: 0 <= x < |s.handlers.At(ev)| && x != d ==>
                  x < |s'.handlers.At(ev)| && s'.handlers.At(ev)[x] == s.handlers.At(ev)[x])
            && forall v: Ev :: v != ev ==> s'.handlers.At(v) == s.handlers.At(v)
  {
    EpollSetKeeps(e, d, ev, who);
  }

  // ---------------------------------------------------------------- call sequences

  function EpollAll(e: Epoll, calls: seq<Call>): Option<Epoll>
    decreases |calls|
  {
    if calls == [] then Some(e)
    else match EpollStep(e, calls[0]) case None => None case Some(e1) => EpollAll(e1, calls[1..])
  }

  function SelectAll(s: Selector, calls: seq<Call>): (r: Selector)
    decreases |calls|
  {
    if calls == [] then s else SelectAll(SelectStep(s, calls[0]), calls[1..])
  }

  ghost predicate Agree(e: Epoll, s: Selector) {
    && EpollInv(e) && SelectInv(s)
    && forall d, ev :: EpollWatches(e, d, ev) <==> SelectWatches(s, d, ev)
  }

  lemma {:induction false} KeepAgreeing(e: Epoll, s: Selector, calls: seq<Call>)
    requires Agree(e, s)
    ensures EpollAll(e, calls).Some? ==> Agree(EpollAll(e, calls).value, SelectAll(s, calls))
    decreases |calls|
  {
    if calls != [] {
      EpollKeeps(e, calls[0]);
      SelectKeeps(s, calls[0]);
      if EpollStep(e, calls[0]).Some? {
        KeepAgreeing(EpollStep(e, calls[0]).value, SelectStep(s, calls[0]), calls[1..]);
      }
    }
  }

  const FRESH_EPOLL := Epoll([], map[])
  const FRESH_SELECT := Selector(Three([], [], []), Three({}, {}, {}), 0)

  /** Each reset finds its descriptor watched for something. */
  ghost predicate ResetsWatched(s: Selector, calls: seq<Call>)
    decreases |calls|
  {
    calls == [] || (
      && (calls[0].Reset? ==> AnySet(s.sets, calls[0].d))
      && ResetsWatched(SelectStep(s, calls[0]), calls[1..]))
  }

  lemma {:induction false} ThrowsIff(e: Epoll, s: Selector, calls: seq<Call>)
    requires Agree(e, s)
    ensures EpollAll(e, calls).Some? <==> ResetsWatched(s, calls)
    decreases |calls|
  {
    if calls != [] {
      EpollKeeps(e, calls[0]);
      SelectKeeps(s, calls[0]);
      var d := calls[0].d;
      AnySetMeans(s.sets, d);
      assert forall ev :: SelectWatches(s, d, ev) <==> d in s.sets.At(ev);
      assert (exists ev :: SelectWatches(s, d, ev)) <==> (exists ev :: EpollWatches(e, d, ev)) by {
        if ev :| SelectWatches(s, d, ev) { assert EpollWatches(e, d, ev); }
        if ev :| EpollWatches(e, d, ev) { assert SelectWatches(s, d, ev); }
      }
      if EpollStep(e, calls[0]).Some? {
        ThrowsIff(EpollStep(e, calls[0]).value, SelectStep(s, calls[0]), calls[1..]);
      }
    }
  }

  /**
   Over any sequence of calls the epoll multiplexer throws if and only if some reset finds
   its descriptor unwatched; as long as it does not, both watch the same (descriptor,
   event) pairs, the kernel knows exactly the ready descriptors, and the select bound is
   one more than the highest watched descriptor.
   */
  lemma MultiplexersAgree(calls: seq<Call>)
    ensures EpollAll(FRESH_EPOLL, calls).Some? <==> ResetsWatched(FRESH_SELECT, calls)
    ensures EpollAll(FRESH_EPOLL, calls).Some? ==>
              Agree(EpollAll(FRESH_EPOLL, calls).value, SelectAll(FRESH_SELECT, calls))
  {
    KeepAgreeing(FRESH_EPOLL, FRESH_SELECT, calls);
    ThrowsIff(FRESH_EPOLL, FRESH_SELECT, calls);
  }

  // ---------------------------------------------------------------- the objects

  class EpollMux {
    var slots: seq<Slot>
    var kernel: map<Fd, set<Ev>>

    constructor ()
      ensures Epoll(slots, kernel) == FRESH_EPOLL
    {
      slots, kernel := [], map[];
    }

    method Control(op: Ctl, d: Fd, mask: set<Ev>) returns (ok: bool)
      modifies this`kernel
      ensures ok <==> EpollCtl(old(kernel), op, d, mask).Some?
      ensures kernel == if ok then EpollCtl(old(kernel), op, d, mask).value else old(kernel)
    {
      match op
      case Add =>
        ok := d !in kernel;
        if ok { kernel := kernel[d := mask]; }
      case Mod =>
        ok := d in kernel;
        if ok { kernel := kernel[d := mask]; }
      case Del =>
        ok := d in kernel;
        if ok { kernel := kernel - {d}; }
    }

    method SetHandler(d: Fd, who: Observer, ev: Ev) returns (thrown: bool)
      modifies this
      ensures thrown <==> EpollStep(old(Epoll(slots, kernel)), Set(d, ev, who)).None?
      ensures !thrown ==> Some(Epoll(slots, kernel)) == EpollStep(old(Epoll(slots, kernel)), Set(d, ev, who))
    {
      slots := Grown(slots, d + 1, EMPTY);
      var ok;
      if !slots[d].ready {
        slots := slots[d := Slot({ev}, Some(who), true)];
        ok := Control(Add, d, slots[d].mask);
      } else {
        var mode := if slots[d].mask != {} then Mod else Add;
        slots := slots[d := Slot(slots[d].mask + {ev}, Some(who), true)];
        ok := Control(mode, d, slots[d].mask);
      }
      thrown := !ok;
    }

    method ResetHandler(d: Fd, ev: Ev) returns (thrown: bool)
      modifies this
      ensures thrown <==> EpollStep(old(Epoll(slots, kernel)), Reset(d, ev)).None?
      ensures !thrown ==> Some(Epoll(slots, kernel)) == EpollStep(old(Epoll(slots, kernel)), Reset(d, ev))
    {
      if d >= |slots| || !slots[d].ready {
        return true;
      }
      var ok := true;
      if slots[d].mask != {} {
        var mask := slots[d].mask - {ev};
        if mask == {} {
          ok := Control(Del, d, mask);
          slots := slots[d := Slot(mask, slots[d].who, false)];
        } else {
          slots := slots[d := Slot(mask, slots[d].who, true)];
          ok := Control(Mod, d, mask);
        }
      }
      thrown := !ok;
    }
  }

  class SelectMux {
    var handlers: Three<seq<Option<Observer>>>
    var sets: Three<set<Fd>>
    var fdSize: nat

    constructor ()
      ensures Selector(handlers, sets, fdSize) == FRESH_SELECT
    {
      handlers, sets, fdSize := Three([], [], []), Three({}, {}, {}), 0;
    }

    method SetFdSize(d: Fd, on: bool)
      modifies this`fdSize
      ensures fdSize == FdSize(sets, old(fdSize), d, on)
    {
      if on {
        if d + 1 > fdSize {
          fdSize := d + 1;
        }
      } else if d + 1 == fdSize {
        while fdSize != 0 && !AnySet(sets, fdSize - 1)
          invariant Shrunk(sets, fdSize) == Shrunk(sets, old(fdSize))
        {
          fdSize := fdSize - 1;
        }
      }
    }

    /** Sets or, with no observer, clears a handler. */
    method SetHandler(d: Fd, who: Option<Observer>, ev: Ev)
      modifies this
      ensures var call := if who.Some? then Set(d, ev, who.value) else Reset(d, ev);
              Selector(handlers, sets, fdSize) == SelectStep(old(Selector(handlers, sets, fdSize)), call)
    {
      handlers := handlers.Put(ev, Grown(handlers.At(ev), d + 1, None)[d := who]);
      sets := sets.Put(ev, if who.Some? then sets.At(ev) + {d} else sets.At(ev) - {d});
      SetFdSize(d, who.Some?);
    }
  }
}
