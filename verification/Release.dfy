/**
 The life of a multiplexed connection between two assignments: soft and hard release.

 `Conn` holds the flags of one connection object.  User callbacks run inside reads, writes,
 assignments, releases and closes, and may themselves act on the connection; a script of
 actions stands for what each does.

 `frees`, `assigns`, `lost` and `early` are history variables: how often the object was
 handed back to its pool, how often it was put to use, how many uses were given up without
 being handed back, and how many hand-backs found the object in use.
 */
module Release {

  /** Where the object stands between being put to use and being handed back. */
  datatype Usage = Usage(released: bool, releasing: bool, frees: nat, assigns: nat, lost: nat, early: nat)

  /** What the multiplexer has been asked to watch; `handlers` counts the requests for write readiness. */
  datatype Hooks = Hooks(read: bool, write: bool, urgent: bool, handlers: int)

  /** The two directions, output waiting in the buffer, and the socket itself. */
  datatype Io = Io(canRead: bool, canWrite: bool, pending: bool, closed: bool)

  datatype Conn = Conn(mux: bool, use: Usage, hooks: Hooks, io: Io)

  /** What the callbacks of one release do. */
  datatype Calls = Calls(onRelease: seq<Act>, onClose: seq<Act>)

  /** An action, with what its callbacks do and how the outside world answers. */
  datatype Act =
    | DoRelease(calls: Calls)
    | DoClose(onClose: seq<Act>)
    | DoSetWriteHandler
    | DoRead(during: seq<Act>, eof: bool, calls: Calls)
    | DoWrite(during: seq<Act>, pending: bool, broken: bool, ready: Calls, calls: Calls)
    | DoFlush(during: seq<Act>, pending: bool, broken: bool, ready: Calls, calls: Calls)
    | DoAssign(first: Calls, second: Calls, during: seq<Act>, ready: Calls, then_: seq<Act>, onClose: seq<Act>)

  const SILENT := Calls([], [])

  /** A connection object as constructed. */
  function New(mux: bool): Conn {
    Conn(mux, Usage(true, false, 0, 0, 0, 0), Hooks(false, false, false, 0), Io(false, false, false, true))
  }

  // ---------------------------------------------------------------- steps without callbacks

  function SetWrite(c: Conn): Conn {
    if !c.mux || !c.io.canWrite then c else c.(hooks := c.hooks.(write := true, handlers := c.hooks.handlers + 1))
  }

  function ResetHooks(h: Hooks, all: bool): Hooks {
    if h.handlers <= 0 then h
    else if h.handlers == 1 || all then h.(write := false, handlers := 0)
    else h.(handlers := h.handlers - 1)
  }

  function ResetWrite(c: Conn, all: bool): Conn {
    if !c.mux then c else c.(hooks := ResetHooks(c.hooks, all))
  }

  /** Output is waiting and the multiplexer will call when it can be written. */
  predicate Lingers(c: Conn) {
    c.hooks.write && c.mux && !c.use.releasing && c.io.pending
  }

  /** The first steps of a release: stop listening. */
  function Deafened(c: Conn): Conn {
    c.(hooks := if c.mux then c.hooks.(read := false, urgent := false) else c.hooks, io := c.io.(canRead := false))
  }

  /** A soft release: the output is still to be written. */
  function Softened(c: Conn): Conn {
    Deafened(c).(use := c.use.(releasing := true))
  }

  /** A hard release up to its callback: out of use, nothing buffered. */
  function Hardened(c: Conn): Conn {
    var d := Deafened(c);
    if c.hooks.write && c.mux then
      ResetWrite(d, true).(use := c.use.(released := true, releasing := false),
      io := d.io.(canWrite := false, pending := false))
    else d.(use := c.use.(released := true), io := d.io.(pending := false))
  }

  function Wrote(c: Conn, pending: bool, broken: bool): Conn {
    c.(io := c.io.(pending := pending, canWrite := c.io.canWrite && !broken))
  }

  function Received(c: Conn, eof: bool): Conn {
    c.(io := c.io.(canRead := c.io.canRead && !eof))
  }

  /** In use from here on, with both directions open; a use that was going on is given up. */
  function PutToUse(c: Conn): Conn {
    var lost := c.use.lost + (if c.use.released then 0 else 1);
    c.(use := c.use.(released := false, releasing := false, assigns := c.use.assigns + 1, lost := lost),
    io := Io(true, true, false, c.io.closed))
  }

  function Listening(c: Conn): Conn {
    c.(hooks := c.hooks.(read := true))
  }

  function HandedBack(c: Conn): Conn {
    var early := c.use.early + (if c.use.released then 0 else 1);
    c.(use := c.use.(frees := c.use.frees + 1, early := early))
  }

  /** A release whose callback left the object in use: the use released is never handed back. */
  function Forgotten(c: Conn): Conn {
    c.(use := c.use.(lost := c.use.lost + 1))
  }

  function MarkClosed(c: Conn, closed: bool): Conn {
    c.(io := c.io.(closed := closed))
  }

  // ---------------------------------------------------------------- release

  /** `mux_filter_base::_release`: soft on the first call if output is waiting, hard otherwise. */
  function MuxRelease(c: Conn, onRelease: seq<Act>): (Conn, bool)
    decreases onRelease, 1
  {
    if c.use.released then (c, false)
    else if Lingers(c) then (Softened(c), false)
    else
      var d := PerformAll(Hardened(c), onRelease);
      if d.use.released then (d, true) else (Forgotten(d), false)
  }

  function CloseConn(c: Conn, onClose: seq<Act>): Conn
    decreases onClose, 1
  {
    if c.io.closed then c else PerformAll(c.(io := Io(false, false, c.io.pending, true)), onClose)
  }

  /** `release` as seen from outside: when the filter is released the socket is closed and the object freed. */
  function ItemRelease(c: Conn, calls: Calls): (Conn, bool)
    decreases calls, 2
  {
    var (c1, done) := MuxRelease(c, calls.onRelease);
    if done then (HandedBack(CloseConn(c1, calls.onClose)), true) else (c1, false)
  }

  function SetIfReady(c: Conn, calls: Calls): Conn
    decreases calls, 3
  {
    if c.use.released then c
    else if !c.io.canWrite then ItemRelease(c, calls).0
    else if c.io.pending then SetWrite(c)
    else
      var c1 := ResetWrite(c, false);
      if c1.use.releasing then ItemRelease(c1, calls).0 else c1
  }

  /** Release unless already on the way out, as every read and write does when its side has closed. */
  function ReleaseIf(c: Conn, sideOpen: bool, calls: Calls): Conn
    decreases calls, 3
  {
    if !sideOpen && !c.use.releasing && !c.use.released then ItemRelease(c, calls).0 else c
  }

  function ReleaseUnlessReleased(c: Conn, calls: Calls): Conn
    decreases calls, 3
  {
    if c.use.released then c else ItemRelease(c, calls).0
  }

  // ---------------------------------------------------------------- actions

  /** The end of an assignment: a connection that did not stay open both ways counts as closed. */
  function CheckOpen(c: Conn, onClose: seq<Act>): Conn
    decreases onClose, 1
  {
    if c.io.canRead && c.io.canWrite then MarkClosed(c, false) else PerformAll(MarkClosed(c, true), onClose)
  }

  /** The multiplexer is asked to watch for input. */
  function Attend(c: Conn, ready: Calls): Conn
    decreases ready, 4
  {
    if c.mux && c.io.canRead then Listening(SetIfReady(c, ready)) else c
  }

  function Perform(c: Conn, a: Act): Conn
    decreases a, 5
  {
    match a
    case DoRelease(calls) => ItemRelease(c, calls).0
    case DoClose(onClose) => CloseConn(c, onClose)
    case DoSetWriteHandler => SetWrite(c)
    case DoRead(during, eof, calls) =>
      var c1 := Received(PerformAll(c, during), eof);
      ReleaseIf(c1, c1.io.canRead, calls)
    case DoWrite(during, pending, broken, ready, calls) =>
      if c.use.releasing then c
      else if !c.io.canWrite then ResetWrite(c, true)
      else
        var c1 := SetIfReady(Wrote(PerformAll(c, during), pending, broken), ready);
        ReleaseIf(c1, c1.io.canWrite, calls)
    case DoFlush(during, pending, broken, ready, calls) =>
      if !c.io.canWrite then ResetWrite(c, true)
      else
        var c0 := if c.io.pending then Wrote(PerformAll(c, during), pending, broken) else c;
        var c1 := SetIfReady(c0, ready);
        ReleaseIf(c1, c1.io.canWrite, calls)
    case DoAssign(first, second, during, ready, then_, onClose) =>
      var c1 := ReleaseUnlessReleased(MarkClosed(c, false), first);
      var c2 := PerformAll(PutToUse(ReleaseUnlessReleased(c1, second)), during);
      CheckOpen(PerformAll(Attend(c2, ready), then_), onClose)
  }

  function PerformAll(c: Conn, acts: seq<Act>): Conn
    decreases acts, 0
  {
    if acts == [] then c else PerformAll(Perform(c, acts[0]), acts[1..])
  }

  // ---------------------------------------------------------------- every use is accounted for

  /** Uses handed back, going on and lost, less the times the object was put to use. */
  function Balance(c: Conn): int {
    c.use.frees + (if c.use.released then 0 else 1) + c.use.lost - c.use.assigns
  }

  /** The write hook is set exactly as long as requests for it are counted. */
  predicate HooksAgree(h: Hooks) {
    h.handlers >= 0 && (h.write <==> h.handlers > 0)
  }

  /**
   The balance is as it was; what has been lost, or handed back in use, stays so; and the
   write hook keeps agreeing with its count.
   */
  predicate Steady(c: Conn, c': Conn) {
    && Balance(c') == Balance(c) && (HooksAgree(c.hooks) ==> HooksAgree(c'.hooks))
    && c.use.frees <= c'.use.frees && c.use.lost <= c'.use.lost && c.use.early <= c'.use.early
  }

  /** A release under way owes one hand-back. */
  lemma {:induction false} MuxReleaseSteady(c: Conn, onRelease: seq<Act>)
    ensures var (c1, done) := MuxRelease(c, onRelease);
            && Balance(c1) == Balance(c) - (if done then 1 else 0)
            && (HooksAgree(c.hooks) ==> HooksAgree(c1.hooks))
            && c.use.frees <= c1.use.frees && c.use.lost <= c1.use.lost && c.use.early <= c1.use.early
    decreases onRelease, 1
  {
    if !c.use.released && !Lingers(c) {
      PerformAllSteady(Hardened(c), onRelease);
    }
  }

  lemma {:induction false} CloseSteady(c: Conn, onClose: seq<Act>)
    ensures Steady(c, CloseConn(c, onClose))
    decreases onClose, 1
  {
    if !c.io.closed {
      PerformAllSteady(c.(io := Io(false, false, c.io.pending, true)), onClose);
    }
  }

  lemma {:induction false} ReleaseSteady(c: Conn, calls: Calls)
    ensures Steady(c, ItemRelease(c, calls).0)
    decreases calls, 2
  {
    MuxReleaseSteady(c, calls.onRelease);
    var (c1, done) := MuxRelease(c, calls.onRelease);
    if done {
      CloseSteady(c1, calls.onClose);
    }
  }

  lemma {:induction false} ReadySteady(c: Conn, calls: Calls, sideOpen: bool)
    ensures Steady(c, SetIfReady(c, calls)) && Steady(c, Attend(c, calls))
    ensures Steady(c, ReleaseIf(c, sideOpen, calls)) && Steady(c, ReleaseUnlessReleased(c, calls))
    decreases calls, 4
  {
    ReleaseSteady(c, calls);
    ReleaseSteady(ResetWrite(c, false), calls);
  }

  lemma {:induction false} OutputSteady(c: Conn, a: Act)
    requires a.DoWrite? || a.DoFlush?
    ensures var c1 := SetIfReady(c, a.ready); Steady(c, ReleaseIf(c1, c1.io.canWrite, a.calls))
    decreases a, 5
  {
    ReadySteady(c, a.ready, true);
    var c1 := SetIfReady(c, a.ready);
    ReadySteady(c1, a.calls, c1.io.canWrite);
  }

  lemma {:induction false} PerformSteady(c: Conn, a: Act)
    ensures Steady(c, Perform(c, a))
    decreases a, 6
  {
    match a
    case DoRelease(calls) => ReleaseSteady(c, calls);
    case DoClose(onClose) => CloseSteady(c, onClose);
    case DoSetWriteHandler =>
    case DoRead(during, eof, calls) =>
      PerformAllSteady(c, during);
      var c1 := Received(PerformAll(c, during), eof);
      ReadySteady(c1, calls, c1.io.canRead);
    case DoWrite(during, pending, broken, ready, calls) =>
      PerformAllSteady(c, during);
      OutputSteady(Wrote(PerformAll(c, during), pending, broken), a);
    case DoFlush(during, pending, broken, ready, calls) =>
      PerformAllSteady(c, during);
      OutputSteady(Wrote(PerformAll(c, during), pending, broken), a);
      OutputSteady(c, a);
    case DoAssign(_, _, _, _, _, _) => AssignSteady(c, a);
  }

  lemma {:induction false} AssignSteady(c: Conn, a: Act)
    requires a.DoAssign?
    ensures Steady(c, Perform(c, a))
    decreases a, 5
  {
    var c0 := MarkClosed(c, false);
    ReadySteady(c0, a.first, true);
    var c1 := ReleaseUnlessReleased(c0, a.first);
    ReadySteady(c1, a.second, true);
    var u := PutToUse(ReleaseUnlessReleased(c1, a.second));
    PerformAllSteady(u, a.during);
    var c2 := PerformAll(u, a.during);
    ReadySteady(c2, a.ready, true);
    PerformAllSteady(Attend(c2, a.ready), a.then_);
    var c3 := PerformAll(Attend(c2, a.ready), a.then_);
    PerformAllSteady(MarkClosed(c3, true), a.onClose);
  }

  lemma {:induction false} PerformAllSteady(c: Conn, acts: seq<Act>)
    ensures Steady(c, PerformAll(c, acts))
    decreases acts, 0
  {
    if acts != [] {
      PerformSteady(c, acts[0]);
      PerformAllSteady(Perform(c, acts[0]), acts[1..]);
    }
  }

  /**
   Whatever is done to a connection object, in whatever order and from within whatever
   callbacks: each time it was put to use has been handed back, is going on, or was lost.
   */
  lemma EveryUseIsAccountedFor(mux: bool, acts: seq<Act>)
    ensures var u := PerformAll(New(mux), acts).use;
            u.frees + (if u.released then 0 else 1) + u.lost == u.assigns
    ensures HooksAgree(PerformAll(New(mux), acts).hooks)
  {
    PerformAllSteady(New(mux), acts);
  }

  /** So it is handed back at most once for each time it was put to use, and a use that goes on has not been. */
  lemma FreedAtMostOncePerAssign(mux: bool, acts: seq<Act>)
    ensures var u := PerformAll(New(mux), acts).use; u.frees + (if u.released then 0 else 1) <= u.assigns
  {
    EveryUseIsAccountedFor(mux, acts);
  }

  /** And every finished use has been handed back exactly once if and only if none was lost. */
  lemma FreedOncePerFinishedUseIff(mux: bool, acts: seq<Act>)
    ensures var u := PerformAll(New(mux), acts).use;
            u.frees == u.assigns - (if u.released then 0 else 1) <==> u.lost == 0
  {
    EveryUseIsAccountedFor(mux, acts);
  }

  /** A use that was lost is never handed back, whatever is done later. */
  lemma LostForGood(mux: bool, acts: seq<Act>, more: seq<Act>)
    ensures var lost := PerformAll(New(mux), acts).use.lost;
            var u := PerformAll(PerformAll(New(mux), acts), more).use;
            u.frees + (if u.released then 0 else 1) + lost <= u.assigns
  {
    PerformAllSteady(New(mux), acts);
    PerformAllSteady(PerformAll(New(mux), acts), more);
  }

  // ---------------------------------------------------------------- actions that assign nothing

  /** No action inside, callbacks included, puts the object to use. */
  predicate NoAssign(a: Act)
    decreases a, 2
  {
    match a
    case DoRelease(calls) => Quiet(calls)
    case DoClose(onClose) => NoAssigns(onClose)
    case DoSetWriteHandler => true
    case DoRead(during, _, calls) => NoAssigns(during) && Quiet(calls)
    case DoWrite(during, _, _, ready, calls) => NoAssigns(during) && Quiet(ready) && Quiet(calls)
    case DoFlush(during, _, _, ready, calls) => NoAssigns(during) && Quiet(ready) && Quiet(calls)
    case DoAssign(_, _, _, _, _, _) => false
  }

  predicate NoAssigns(acts: seq<Act>)
    decreases acts, 0
  {
    acts == [] || (NoAssign(acts[0]) && NoAssigns(acts[1..]))
  }

  predicate Quiet(calls: Calls)
    decreases calls, 1
  {
    NoAssigns(calls.onRelease) && NoAssigns(calls.onClose)
  }

  /** Such actions take an object out of use at most once, and hand it back exactly then. */
  predicate OneWay(c: Conn, c': Conn) {
    && c'.use.assigns == c.use.assigns && (c.use.released ==> c'.use.released)
    && c'.use.frees == c.use.frees + (if !c.use.released && c'.use.released then 1 else 0)
    && c'.use.lost == c.use.lost && c'.use.early == c.use.early
    && (c.use.releasing ==> c'.use.releasing || c'.use.released)
  }

  lemma {:induction false} MuxReleaseOneWay(c: Conn, onRelease: seq<Act>)
    requires NoAssigns(onRelease)
    ensures var (c1, done) := MuxRelease(c, onRelease);
            && (done <==> !c.use.released && !Lingers(c)) && (done ==> c1.use.released)
            && (!done ==> c1.use.released == c.use.released)
            && c1.use.frees == c.use.frees && c1.use.assigns == c.use.assigns
            && c1.use.lost == c.use.lost && c1.use.early == c.use.early
            && (!done && !c.use.released ==> c1.use.releasing)
            && (c.use.releasing ==> c1.use.releasing || c1.use.released)
    decreases onRelease, 1
  {
    if !c.use.released && !Lingers(c) {
      PerformAllOneWay(Hardened(c), onRelease);
    }
  }

  lemma {:induction false} CloseOneWay(c: Conn, onClose: seq<Act>)
    requires NoAssigns(onClose)
    ensures OneWay(c, CloseConn(c, onClose))
    decreases onClose, 1
  {
    if !c.io.closed {
      PerformAllOneWay(c.(io := Io(false, false, c.io.pending, true)), onClose);
    }
  }

  /**
   A release reports success exactly when it takes the object out of use, which it does at
   the first call unless output lingers; it hands the object back then and only then.
   */
  lemma {:induction false} ReleaseOnce(c: Conn, calls: Calls)
    requires Quiet(calls)
    ensures var (c1, done) := ItemRelease(c, calls);
            && OneWay(c, c1) && (done <==> !c.use.released && c1.use.released)
            && (done <==> !c.use.released && !Lingers(c))
            && (!done && !c.use.released ==> c1.use.releasing)
    decreases calls, 2
  {
    MuxReleaseOneWay(c, calls.onRelease);
    var (c1, done) := MuxRelease(c, calls.onRelease);
    if done {
      CloseOneWay(c1, calls.onClose);
    }
  }

  lemma {:induction false} ReadyOneWay(c: Conn, calls: Calls, sideOpen: bool)
    requires Quiet(calls)
    ensures OneWay(c, SetIfReady(c, calls)) && OneWay(c, Attend(c, calls))
    ensures OneWay(c, ReleaseIf(c, sideOpen, calls)) && OneWay(c, ReleaseUnlessReleased(c, calls))
    decreases calls, 4
  {
    ReleaseOnce(c, calls);
    ReleaseOnce(ResetWrite(c, false), calls);
  }

  lemma {:induction false} OutputOneWay(c: Conn, a: Act)
    requires (a.DoWrite? || a.DoFlush?) && Quiet(a.ready) && Quiet(a.calls)
    ensures var c1 := SetIfReady(c, a.ready); OneWay(c, ReleaseIf(c1, c1.io.canWrite, a.calls))
    decreases a, 5
  {
    ReadyOneWay(c, a.ready, true);
    var c1 := SetIfReady(c, a.ready);
    ReadyOneWay(c1, a.calls, c1.io.canWrite);
  }

  lemma {:induction false} PerformOneWay(c: Conn, a: Act)
    requires NoAssign(a)
    ensures OneWay(c, Perform(c, a))
    decreases a, 6
  {
    match a
    case DoRelease(calls) => ReleaseOnce(c, calls);
    case DoClose(onClose) => CloseOneWay(c, onClose);
    case DoSetWriteHandler =>
    case DoRead(during, eof, calls) =>
      PerformAllOneWay(c, during);
      var c1 := Received(PerformAll(c, during), eof);
      ReadyOneWay(c1, calls, c1.io.canRead);
    case DoWrite(during, pending, broken, ready, calls) =>
      PerformAllOneWay(c, during);
      OutputOneWay(Wrote(PerformAll(c, during), pending, broken), a);
    case DoFlush(during, pending, broken, ready, calls) =>
      PerformAllOneWay(c, during);
      OutputOneWay(Wrote(PerformAll(c, during), pending, broken), a);
      OutputOneWay(c, a);
  }

  lemma {:induction false} PerformAllOneWay(c: Conn, acts: seq<Act>)
    requires NoAssigns(acts)
    ensures OneWay(c, PerformAll(c, acts))
    decreases acts, 0
  {
    if acts != [] {
      PerformOneWay(c, acts[0]);
      PerformAllOneWay(Perform(c, acts[0]), acts[1..]);
    }
  }

  // ---------------------------------------------------------------- what loses nothing

  /** The callbacks of a release put nothing to use before it is reported. */
  predicate CalmCalls(calls: Calls)
    decreases calls, 1
  {
    NoAssigns(calls.onRelease) && AllCalm(calls.onClose)
  }

  /**
   No release callback assigns, nor any callback of the releases an assignment begins with;
   all other callbacks, those of closes included, may do anything of the kind.
   */
  predicate Calm(a: Act)
    decreases a, 2
  {
    match a
    case DoRelease(calls) => CalmCalls(calls)
    case DoClose(onClose) => AllCalm(onClose)
    case DoSetWriteHandler => true
    case DoRead(during, _, calls) => AllCalm(during) && CalmCalls(calls)
    case DoWrite(during, _, _, ready, calls) => AllCalm(during) && CalmCalls(ready) && CalmCalls(calls)
    case DoFlush(during, _, _, ready, calls) => AllCalm(during) && CalmCalls(ready) && CalmCalls(calls)
    case DoAssign(first, second, during, ready, then_, onClose) =>
      Quiet(first) && Quiet(second) && AllCalm(during) && CalmCalls(ready) && AllCalm(then_) && AllCalm(onClose)
  }

  predicate AllCalm(acts: seq<Act>)
    decreases acts, 0
  {
    acts == [] || (Calm(acts[0]) && AllCalm(acts[1..]))
  }

  /** A second release is hard. */
  lemma SecondIsHard(c: Conn, first: Calls, second: Calls)
    requires Quiet(first) && Quiet(second) && !c.use.released
    ensures var (c1, done) := ItemRelease(c, first);
            !done ==> !c1.use.released && c1.use.releasing && ItemRelease(c1, second).1
  {
    ReleaseOnce(c, first);
    ReleaseOnce(ItemRelease(c, first).0, second);
  }

  /** Whatever was there is released before the object is put to use again. */
  lemma RecycleReleases(c: Conn, first: Calls, second: Calls)
    requires Quiet(first) && Quiet(second)
    ensures var c2 := ReleaseUnlessReleased(ReleaseUnlessReleased(c, first), second);
            c2.use.released && OneWay(c, c2)
  {
    ReadyOneWay(c, first, true);
    var c1 := ReleaseUnlessReleased(c, first);
    ReadyOneWay(c1, second, true);
    if !c.use.released {
      SecondIsHard(c, first, second);
      ReleaseOnce(c, first);
      ReleaseOnce(c1, second);
    }
  }

  predicate Lossless(c: Conn, c': Conn) {
    c'.use.lost == c.use.lost
  }

  lemma {:induction false} CloseLossless(c: Conn, onClose: seq<Act>)
    requires AllCalm(onClose)
    ensures Lossless(c, CloseConn(c, onClose))
    decreases onClose, 1
  {
    if !c.io.closed {
      PerformAllLossless(c.(io := Io(false, false, c.io.pending, true)), onClose);
    }
  }

  lemma {:induction false} ReleaseLossless(c: Conn, calls: Calls)
    requires CalmCalls(calls)
    ensures Lossless(c, ItemRelease(c, calls).0)
    decreases calls, 2
  {
    MuxReleaseOneWay(c, calls.onRelease);
    var (c1, done) := MuxRelease(c, calls.onRelease);
    if done {
      CloseLossless(c1, calls.onClose);
    }
  }

  lemma {:induction false} ReadyLossless(c: Conn, calls: Calls, sideOpen: bool)
    requires CalmCalls(calls)
    ensures Lossless(c, SetIfReady(c, calls)) && Lossless(c, Attend(c, calls))
    ensures Lossless(c, ReleaseIf(c, sideOpen, calls))
    decreases calls, 4
  {
    ReleaseLossless(c, calls);
    ReleaseLossless(ResetWrite(c, false), calls);
  }

  lemma {:induction false} OutputLossless(c: Conn, a: Act)
    requires (a.DoWrite? || a.DoFlush?) && CalmCalls(a.ready) && CalmCalls(a.calls)
    ensures var c1 := SetIfReady(c, a.ready); Lossless(c, ReleaseIf(c1, c1.io.canWrite, a.calls))
    decreases a, 5
  {
    ReadyLossless(c, a.ready, true);
    var c1 := SetIfReady(c, a.ready);
    ReadyLossless(c1, a.calls, c1.io.canWrite);
  }

  lemma {:induction false} PerformLossless(c: Conn, a: Act)
    requires Calm(a)
    ensures Lossless(c, Perform(c, a))
    decreases a, 6
  {
    match a
    case DoRelease(calls) => ReleaseLossless(c, calls);
    case DoClose(onClose) => CloseLossless(c, onClose);
    case DoSetWriteHandler =>
    case DoRead(during, eof, calls) =>
      PerformAllLossless(c, during);
      var c1 := Received(PerformAll(c, during), eof);
      ReadyLossless(c1, calls, c1.io.canRead);
    case DoWrite(during, pending, broken, ready, calls) =>
      PerformAllLossless(c, during);
      OutputLossless(Wrote(PerformAll(c, during), pending, broken), a);
    case DoFlush(during, pending, broken, ready, calls) =>
      PerformAllLossless(c, during);
      OutputLossless(Wrote(PerformAll(c, during), pending, broken), a);
      OutputLossless(c, a);
    case DoAssign(_, _, _, _, _, _) => AssignLossless(c, a);
  }

  lemma {:induction false} AssignLossless(c: Conn, a: Act)
    requires a.DoAssign? && Calm(a)
    ensures Lossless(c, Perform(c, a))
    decreases a, 5
  {
    var c0 := MarkClosed(c, false);
    RecycleReleases(c0, a.first, a.second);
    var u := PutToUse(ReleaseUnlessReleased(ReleaseUnlessReleased(c0, a.first), a.second));
    PerformAllLossless(u, a.during);
    var c2 := PerformAll(u, a.during);
    ReadyLossless(c2, a.ready, true);
    PerformAllLossless(Attend(c2, a.ready), a.then_);
    var c3 := PerformAll(Attend(c2, a.ready), a.then_);
    PerformAllLossless(MarkClosed(c3, true), a.onClose);
  }

  lemma {:induction false} PerformAllLossless(c: Conn, acts: seq<Act>)
    requires AllCalm(acts)
    ensures Lossless(c, PerformAll(c, acts))
    decreases acts, 0
  {
    if acts != [] {
      PerformLossless(c, acts[0]);
      PerformAllLossless(Perform(c, acts[0]), acts[1..]);
    }
  }

  /** In calm runs every finished use has been handed back exactly once. */
  lemma CalmLosesNothing(mux: bool, acts: seq<Act>)
    requires AllCalm(acts)
    ensures var u := PerformAll(New(mux), acts).use;
            u.lost == 0 && u.frees == u.assigns - (if u.released then 0 else 1)
  {
    PerformAllLossless(New(mux), acts);
    EveryUseIsAccountedFor(mux, acts);
  }

  const ASSIGN := DoAssign(SILENT, SILENT, [], SILENT, [], [])

  /**
   Otherwise something can be lost: an assignment made by the release callback makes the
   release report failure, and the use released is not handed back by anything done later.
   */
  lemma AssignInReleaseIsForgotten(c: Conn, more: seq<Act>)
    requires !c.use.released && !Lingers(c)
    ensures var (c1, done) := ItemRelease(c, Calls([ASSIGN], []));
            && !done && c1.use.lost == c.use.lost + 1 && c1.use.frees == c.use.frees && !c1.use.released
            && PerformAll(c1, more).use.lost > c.use.lost
  {
    var h := Hardened(c);
    assert [ASSIGN][1..] == [];
    assert PerformAll(h, [ASSIGN]) == PerformAll(Perform(h, ASSIGN), []) == Perform(h, ASSIGN);
    SilentAssign(h);
    PerformAllSteady(ItemRelease(c, Calls([ASSIGN], [])).0, more);
  }

  /**
   A hard release reports failure, and its use is lost, exactly when its callback put the
   object to use once more often than uses ended in it.
   */
  lemma ReleaseFailsIff(c: Conn, onRelease: seq<Act>)
    requires !c.use.released && !Lingers(c)
    ensures var h := Hardened(c);
            var d := PerformAll(h, onRelease);
            var (c1, done) := MuxRelease(c, onRelease);
            && (!done <==>
                d.use.assigns - h.use.assigns == (d.use.frees - h.use.frees) + (d.use.lost - h.use.lost) + 1)
            && c1.use.lost == d.use.lost + (if done then 0 else 1)
  {
    PerformAllSteady(Hardened(c), onRelease);
  }

  // ---------------------------------------------------------------- hand-backs of objects in use

  /**
   A release that succeeds finds the object in use again exactly when its close callback put
   it to use once more often than uses ended in it, by hand-back or lost.
   */
  lemma HandBackInUseIff(c: Conn, calls: Calls)
    requires MuxRelease(c, calls.onRelease).1
    ensures var h := MuxRelease(c, calls.onRelease).0;
            var e := CloseConn(h, calls.onClose);
            var c1 := ItemRelease(c, calls).0;
            && ItemRelease(c, calls).1
            && (!c1.use.released <==>
                e.use.assigns - h.use.assigns == (e.use.frees - h.use.frees) + (e.use.lost - h.use.lost) + 1)
            && c1.use.early == e.use.early + (if c1.use.released then 0 else 1)
  {
    CloseSteady(MuxRelease(c, calls.onRelease).0, calls.onClose);
  }

  /** For instance: an assignment made by the close callback loses nothing, but the object goes to the pool in use. */
  lemma AssignInCloseHandsBackInUse(c: Conn)
    requires !c.use.released && !Lingers(c) && !c.io.closed
    ensures var (c1, done) := ItemRelease(c, Calls([], [ASSIGN]));
            && done && !c1.use.released && c1.use.frees == c.use.frees + 1
            && c1.use.early == c.use.early + 1 && c1.use.lost == c.use.lost
  {
    var h := Hardened(c);
    assert PerformAll(h, []) == h;
    var k := h.(io := Io(false, false, h.io.pending, true));
    assert [ASSIGN][1..] == [];
    assert PerformAll(k, [ASSIGN]) == PerformAll(Perform(k, ASSIGN), []) == Perform(k, ASSIGN);
    SilentAssign(k);
  }

  /** No callback of a release or a close assigns. */
  predicate Strict(a: Act)
    decreases a, 2
  {
    match a
    case DoRelease(calls) => Quiet(calls)
    case DoClose(onClose) => NoAssigns(onClose)
    case DoSetWriteHandler => true
    case DoRead(during, _, calls) => AllStrict(during) && Quiet(calls)
    case DoWrite(during, _, _, ready, calls) => AllStrict(during) && Quiet(ready) && Quiet(calls)
    case DoFlush(during, _, _, ready, calls) => AllStrict(during) && Quiet(ready) && Quiet(calls)
    case DoAssign(first, second, during, ready, then_, onClose) =>
      Quiet(first) && Quiet(second) && AllStrict(during) && Quiet(ready) && AllStrict(then_) && NoAssigns(onClose)
  }

  predicate AllStrict(acts: seq<Act>)
    decreases acts, 0
  {
    acts == [] || (Strict(acts[0]) && AllStrict(acts[1..]))
  }

  /** Nothing lost, and no hand-back of an object in use. */
  predicate Clean(c: Conn, c': Conn) {
    c'.use.lost == c.use.lost && c'.use.early == c.use.early
  }

  lemma {:induction false} PerformClean(c: Conn, a: Act)
    requires Strict(a)
    ensures Clean(c, Perform(c, a))
    decreases a, 1
  {
    match a
    case DoRelease(_) => PerformOneWay(c, a);
    case DoClose(_) => PerformOneWay(c, a);
    case DoSetWriteHandler =>
    case DoRead(during, eof, calls) =>
      PerformAllClean(c, during);
      var c1 := Received(PerformAll(c, during), eof);
      ReadyOneWay(c1, calls, c1.io.canRead);
    case DoWrite(during, pending, broken, _, _) =>
      PerformAllClean(c, during);
      OutputOneWay(Wrote(PerformAll(c, during), pending, broken), a);
    case DoFlush(during, pending, broken, _, _) =>
      PerformAllClean(c, during);
      OutputOneWay(Wrote(PerformAll(c, during), pending, broken), a);
      OutputOneWay(c, a);
    case DoAssign(_, _, _, _, _, _) => AssignClean(c, a);
  }

  lemma {:induction false} AssignClean(c: Conn, a: Act)
    requires a.DoAssign? && Strict(a)
    ensures Clean(c, Perform(c, a))
    decreases a, 0
  {
    var c0 := MarkClosed(c, false);
    RecycleReleases(c0, a.first, a.second);
    var u := PutToUse(ReleaseUnlessReleased(ReleaseUnlessReleased(c0, a.first), a.second));
    PerformAllClean(u, a.during);
    var c2 := PerformAll(u, a.during);
    ReadyOneWay(c2, a.ready, true);
    PerformAllClean(Attend(c2, a.ready), a.then_);
    var c3 := PerformAll(Attend(c2, a.ready), a.then_);
    PerformAllOneWay(MarkClosed(c3, true), a.onClose);
  }

  lemma {:induction false} PerformAllClean(c: Conn, acts: seq<Act>)
    requires AllStrict(acts)
    ensures Clean(c, PerformAll(c, acts))
    decreases acts, 0
  {
    if acts != [] {
      PerformClean(c, acts[0]);
      PerformAllClean(Perform(c, acts[0]), acts[1..]);
    }
  }

  /** In strict runs no object is ever handed back while in use. */
  lemma StrictHandsBackReleased(mux: bool, acts: seq<Act>)
    requires AllStrict(acts)
    ensures var u := PerformAll(New(mux), acts).use; u.early == 0 && u.lost == 0
  {
    PerformAllClean(New(mux), acts);
  }

  lemma SilentAssign(c: Conn)
    requires c.use.released
    ensures var c' := Perform(c, ASSIGN);
            && !c'.use.released && c'.use.frees == c.use.frees && c'.use.assigns == c.use.assigns + 1
            && c'.use.lost == c.use.lost && c'.use.early == c.use.early
  {
    var u := PutToUse(MarkClosed(c, false));
    assert PerformAll(u, []) == u;
    assert PerformAll(Attend(u, SILENT), []) == Attend(u, SILENT);
  }

  // ---------------------------------------------------------------- the documented patterns

  /** The answers of repeated calls, each with callbacks of its own. */
  function Answers(c: Conn, calls: seq<Calls>): seq<bool>
    decreases |calls|
  {
    if calls == [] then [] else [ItemRelease(c, calls[0]).1] + Answers(ItemRelease(c, calls[0]).0, calls[1..])
  }

  function Nos(n: nat): (r: seq<bool>)
    ensures |r| == n && forall i :: 0 <= i < n ==> !r[i]
  {
    seq(n, _ => false)
  }

  lemma {:induction false} OnlyFalse(c: Conn, calls: seq<Calls>)
    requires c.use.released
    ensures Answers(c, calls) == Nos(|calls|)
    decreases |calls|
  {
    if calls != [] {
      OnlyFalse(c, calls[1..]);
      assert ItemRelease(c, calls[0]) == (c, false);
      assert [false] + Nos(|calls| - 1) == Nos(|calls|);
    }
  }

  /**
   Calling release over and over: false for ever if not in use; otherwise true once, first or, with
   output waiting, second.
   */
  lemma ReleasePattern(c: Conn, calls: seq<Calls>)
    requires |calls| >= 2 && forall i :: 0 <= i < |calls| ==> Quiet(calls[i])
    ensures c.use.released ==> Answers(c, calls) == Nos(|calls|)
    ensures !c.use.released && !(c.hooks.write && c.mux && !c.use.releasing && c.io.pending) ==>
              Answers(c, calls) == [true] + Nos(|calls| - 1)
    ensures !c.use.released && c.hooks.write && c.mux && !c.use.releasing && c.io.pending ==>
              Answers(c, calls) == [false, true] + Nos(|calls| - 2)
  {
    var (c1, first) := ItemRelease(c, calls[0]);
    if c.use.released {
      OnlyFalse(c, calls);
    } else {
      ReleaseOnce(c, calls[0]);
      if first {
        OnlyFalse(c1, calls[1..]);
      } else {
        SecondAnswer(c1, calls[1..]);
        assert [false] + ([true] + Nos(|calls| - 2)) == [false, true] + Nos(|calls| - 2);
      }
    }
  }

  lemma SecondAnswer(c: Conn, calls: seq<Calls>)
    requires calls != [] && Quiet(calls[0]) && !c.use.released && c.use.releasing
    ensures Answers(c, calls) == [true] + Nos(|calls| - 1)
  {
    ReleaseOnce(c, calls[0]);
    OnlyFalse(ItemRelease(c, calls[0]).0, calls[1..]);
  }

  // ---------------------------------------------------------------- the object

  /** The same in place; a method that runs callbacks is given what they do. */
  class MuxConnection {
    const mux: bool
    var released: bool
    var releasing: bool
    var muxRead: bool
    var muxWrite: bool
    var muxUrgent: bool
    var handlers: int
    var canRead: bool
    var canWrite: bool
    var pending: bool
    var closed: bool
    var frees: nat
    var assigns: nat
    var lost: nat
    var early: nat

    function State(): Conn
      reads this
    {
      Conn(mux, Usage(released, releasing, frees, assigns, lost, early), Hooks(muxRead, muxWrite, muxUrgent, handlers),
           Io(canRead, canWrite, pending, closed))
    }

    constructor (mux: bool)
      ensures State() == New(mux)
    {
      this.mux := mux;
      released, releasing, muxRead, muxWrite, muxUrgent, handlers := true, false, false, false, false, 0;
      canRead, canWrite, pending, closed := false, false, false, true;
      frees, assigns, lost, early := 0, 0, 0, 0;
    }

    method ResetWriteHandler(all: bool)
      modifies this`muxWrite, this`handlers
      ensures State() == ResetWrite(old(State()), all)
    {
      if mux && handlers > 0 {
        if handlers == 1 || all {
          muxWrite, handlers := false, 0;
        } else {
          handlers := handlers - 1;
        }
      }
    }

    method SetWriteHandler()
      modifies this`muxWrite, this`handlers
      ensures State() == SetWrite(old(State()))
    {
      if mux && canWrite {
        muxWrite, handlers := true, handlers + 1;
      }
    }

    /** The flags a release sets before its callback; tells whether it was a hard one. */
    method LeaveUse() returns (hard: bool)
      requires !released
      modifies this
      ensures hard <==> !Lingers(old(State()))
      ensures State() == if hard then Hardened(old(State())) else Softened(old(State()))
    {
      released := true;
      if mux {
        muxRead, muxUrgent := false, false;
      }
      canRead := false;
      if muxWrite && mux {
        if !releasing && pending {
          released, releasing := false, true;
        } else {
          ResetWriteHandler(true);
          canWrite, releasing := false, false;
        }
      }
      if released {
        pending := false;
      }
      return released;
    }

    method FilterRelease(onRelease: seq<Act>) returns (done: bool)
      modifies this
      ensures (State(), done) == MuxRelease(old(State()), onRelease)
      decreases onRelease, 1
    {
      if released {
        return false;
      }
      var hard := LeaveUse();
      if hard {
        DoAll(onRelease);
        if !released {
          lost := lost + 1;
        }
      }
      return released;
    }

    method Close(onClose: seq<Act>)
      modifies this
      ensures State() == CloseConn(old(State()), onClose)
      decreases onClose, 1
    {
      if !closed {
        canRead, canWrite, closed := false, false, true;
        DoAll(onClose);
      }
    }

    method Release(calls: Calls) returns (done: bool)
      modifies this
      ensures (State(), done) == ItemRelease(old(State()), calls)
      decreases calls, 2
    {
      done := FilterRelease(calls.onRelease);
      if done {
        Close(calls.onClose);
        frees := frees + 1;
        if !released {
          early := early + 1;
        }
      }
    }

    method SetWriteHandlerIfReady(calls: Calls)
      modifies this
      ensures State() == SetIfReady(old(State()), calls)
      decreases calls, 3
    {
      if released {
        return;
      }
      if canWrite {
        if pending {
          SetWriteHandler();
        } else {
          ResetWriteHandler(false);
          if releasing {
            var _ := Release(calls);
          }
        }
      } else {
        var _ := Release(calls);
      }
    }

    method ReleaseWhen(cond: bool, calls: Calls)
      modifies this
      ensures State() == if cond then ItemRelease(old(State()), calls).0 else old(State())
      decreases calls, 3
    {
      if cond {
        var _ := Release(calls);
      }
    }

    method Read(during: seq<Act>, eof: bool, calls: Calls, ghost a: Act)
      requires a == DoRead(during, eof, calls)
      modifies this
      ensures State() == Perform(old(State()), a)
      decreases a, 4
    {
      DoAll(during);
      canRead := canRead && !eof;
      ReleaseWhen(!canRead && !releasing && !released, calls);
    }

    method AfterOutput(ready: Calls, calls: Calls, ghost a: Act)
      requires (a.DoWrite? || a.DoFlush?) && a.ready == ready && a.calls == calls
      modifies this
      ensures var c1 := SetIfReady(old(State()), ready); State() == ReleaseIf(c1, c1.io.canWrite, calls)
      decreases a, 3
    {
      SetWriteHandlerIfReady(ready);
      ReleaseWhen(!canWrite && !releasing && !released, calls);
    }

    method Write(during: seq<Act>, left: bool, broken: bool, ready: Calls, calls: Calls, ghost a: Act)
      requires a == DoWrite(during, left, broken, ready, calls)
      modifies this
      ensures State() == Perform(old(State()), a)
      decreases a, 4
    {
      if releasing {
        return;
      }
      if !canWrite {
        ResetWriteHandler(true);
        return;
      }
      DoAll(during);
      pending, canWrite := left, canWrite && !broken;
      AfterOutput(ready, calls, a);
    }

    method Flush(during: seq<Act>, left: bool, broken: bool, ready: Calls, calls: Calls, ghost a: Act)
      requires a == DoFlush(during, left, broken, ready, calls)
      modifies this
      ensures State() == Perform(old(State()), a)
      decreases a, 4
    {
      if !canWrite {
        ResetWriteHandler(true);
        return;
      }
      if pending {
        DoAll(during);
        pending, canWrite := left, canWrite && !broken;
      }
      AfterOutput(ready, calls, a);
    }

    method WatchInput(ready: Calls)
      modifies this
      ensures State() == Attend(old(State()), ready)
      decreases ready, 4
    {
      if mux && canRead {
        SetWriteHandlerIfReady(ready);
        muxRead := true;
      }
    }

    /** Whatever was there is released, twice if need be, and the object is put to use. */
    method Renew(first: Calls, second: Calls, ghost a: Act)
      requires a.DoAssign? && a.first == first && a.second == second
      modifies this
      ensures var c1 := ReleaseUnlessReleased(MarkClosed(old(State()), false), first);
              State() == PutToUse(ReleaseUnlessReleased(c1, second))
      decreases a, 3
    {
      closed := false;
      ReleaseInUse(first);
      ReleaseInUse(second);
      StartUse();
    }

    method ReleaseInUse(calls: Calls)
      modifies this
      ensures State() == ReleaseUnlessReleased(old(State()), calls)
      decreases calls, 3
    {
      if !released {
        var _ := Release(calls);
      }
    }

    method StartUse()
      modifies this
      ensures State() == PutToUse(old(State()))
    {
      if !released {
        lost := lost + 1;
      }
      releasing, released, assigns := false, false, assigns + 1;
      canRead, canWrite, pending := true, true, false;
    }

    method FinishAssign(onClose: seq<Act>)
      modifies this
      ensures State() == CheckOpen(old(State()), onClose)
      decreases onClose, 1
    {
      closed := !(canRead && canWrite);
      if closed {
        DoAll(onClose);
      }
    }

    method Assign(a: Act)
      requires a.DoAssign?
      modifies this
      ensures State() == Perform(old(State()), a)
      decreases a, 4
    {
      Renew(a.first, a.second, a);
      DoAll(a.during);
      WatchInput(a.ready);
      DoAll(a.then_);
      FinishAssign(a.onClose);
    }

    method Do(a: Act)
      modifies this
      ensures State() == Perform(old(State()), a)
      decreases a, 5
    {
      match a
      case DoRelease(calls) => var _ := Release(calls);
      case DoClose(onClose) => Close(onClose);
      case DoSetWriteHandler => SetWriteHandler();
      case DoRead(during, eof, calls) => Read(during, eof, calls, a);
      case DoWrite(during, left, broken, ready, calls) => Write(during, left, broken, ready, calls, a);
      case DoFlush(during, left, broken, ready, calls) => Flush(during, left, broken, ready, calls, a);
      case DoAssign(_, _, _, _, _, _) => Assign(a);
    }

    method DoAll(acts: seq<Act>)
      modifies this
      ensures State() == PerformAll(old(State()), acts)
      decreases acts, 0
    {
      if acts != [] {
        Do(acts[0]);
        DoAll(acts[1..]);
      }
    }
  }
}
