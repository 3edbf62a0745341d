/**
 What releases, reads, writes and assignments do to a connection, as seen from outside:
 when it is let go, when it is watched and when it is closed.
 */
module ReleaseEffects {
  import opened Release

  /** In use and not on the way out. */
  predicate Serving(c: Conn) {
    !c.use.released && !c.use.releasing
  }

  /** Softly released: still in use until its output is gone. */
  predicate Leaving(c: Conn) {
    !c.use.released && c.use.releasing
  }

  // ---------------------------------------------------------------- a soft release completes

  /** Once output is gone, or cannot be written any more, a connection on the way out is let go. */
  lemma ReadyCompletes(c: Conn, ready: Calls)
    requires Leaving(c) && Quiet(ready) && (!c.io.canWrite || !c.io.pending)
    ensures SetIfReady(c, ready).use.released && SetIfReady(c, ready).use.frees == c.use.frees + 1
  {
    ReleaseOnce(c, ready);
    ReleaseOnce(ResetWrite(c, false), ready);
  }

  lemma AfterReady(c: Conn, a: Act)
    requires (a.DoWrite? || a.DoFlush?) && Quiet(a.calls) && SetIfReady(c, a.ready).use.released
    ensures var c1 := SetIfReady(c, a.ready); ReleaseIf(c1, c1.io.canWrite, a.calls) == c1
  {
  }

  /**
   A flush that leaves nothing buffered completes a soft release: the object is out of use
   and has been handed back exactly once, whatever quiet callbacks do.
   */
  lemma FlushCompletesRelease(c: Conn, a: Act)
    requires Leaving(c) && c.io.canWrite && a.DoFlush? && NoAssign(a) && !a.pending
    ensures var c' := Perform(c, a);
            c'.use.released && c'.use.frees == c.use.frees + 1 && c'.use.assigns == c.use.assigns
  {
    PerformOneWay(c, a);
    PerformAllOneWay(c, a.during);
    var c0 := if c.io.pending then Wrote(PerformAll(c, a.during), a.pending, a.broken) else c;
    if c0.use.released {
      AfterReady(c0, a);
    } else {
      ReadyCompletes(c0, a.ready);
      AfterReady(c0, a);
    }
  }

  /** A write to a connection on the way out does nothing. */
  lemma WriteWhileLeaving(c: Conn, a: Act)
    requires Leaving(c) && a.DoWrite?
    ensures Perform(c, a) == c
  {
  }

  // ---------------------------------------------------------------- output

  /** After output that leaves something buffered the connection waits for write readiness, one request more counted. */
  lemma OutputWaits(c: Conn, a: Act)
    requires !c.use.released && c.io.canWrite && c.mux
    requires (a.DoWrite? && !c.use.releasing) || (a.DoFlush? && c.io.pending)
    requires a.during == [] && a.pending && !a.broken
    ensures var c' := Perform(c, a);
            && c'.use == c.use && c'.io == c.io.(pending := true)
            && c'.hooks == c.hooks.(write := true, handlers := c.hooks.handlers + 1)
  {
    assert PerformAll(c, []) == c;
  }

  /** After output that leaves nothing one request less is counted, and with the last the hook is gone. */
  lemma OutputDone(c: Conn, a: Act)
    requires Serving(c) && c.io.canWrite && c.mux && HooksAgree(c.hooks)
    requires (a.DoWrite? || a.DoFlush?) && a.during == [] && !a.pending && !a.broken
    ensures var c' := Perform(c, a);
            && c'.use == c.use && c'.io == c.io.(pending := false)
            && c'.hooks.handlers == (if c.hooks.handlers > 0 then c.hooks.handlers - 1 else 0)
            && c'.hooks.write == (c.hooks.handlers > 1)
            && c'.hooks.read == c.hooks.read
  {
    assert PerformAll(c, []) == c;
  }

  /** Output that finds the receiver gone lets the object go, at once or, if output lingers, softly. */
  lemma OutputBroken(c: Conn, a: Act)
    requires Serving(c) && c.io.canWrite && a.DoWrite? && NoAssign(a) && a.during == [] && a.broken
    ensures var c' := Perform(c, a);
            if Lingers(c.(io := c.io.(pending := a.pending))) then Leaving(c')
            else c'.use.released && c'.use.frees == c.use.frees + 1
  {
    assert PerformAll(c, []) == c;
    var c0 := Wrote(c, a.pending, true);
    ReleaseOnce(c0, a.ready);
    var c1 := SetIfReady(c0, a.ready);
    assert ReleaseIf(c1, c1.io.canWrite, a.calls) == c1;
  }

  /** With the write side closed nothing is written and nobody waits to write. */
  lemma ClosedSideForgetsHandlers(c: Conn, a: Act)
    requires !c.io.canWrite && ((a.DoWrite? && !c.use.releasing) || a.DoFlush?)
    ensures Perform(c, a).use == c.use && Perform(c, a).io == c.io
    ensures c.mux && HooksAgree(c.hooks) ==> Perform(c, a).hooks == c.hooks.(write := false, handlers := 0)
  {
  }

  // ---------------------------------------------------------------- input

  /** A read that finds the end lets the object go, at once or, if output lingers, softly; any other changes nothing. */
  lemma ReadAtEnd(c: Conn, a: Act)
    requires Serving(c) && a.DoRead? && NoAssign(a) && a.during == []
    ensures a.eof ==>
              if Lingers(c) then Leaving(Perform(c, a))
              else Perform(c, a).use.released && Perform(c, a).use.frees == c.use.frees + 1
    ensures !a.eof && c.io.canRead ==> Perform(c, a) == c
  {
    assert PerformAll(c, []) == c;
    ReleaseOnce(Received(c, a.eof), a.calls);
  }

  // ---------------------------------------------------------------- what a release leaves

  /** A successful release leaves a closed socket, nothing buffered and nothing watched. */
  lemma ReleasedState(c: Conn)
    requires ItemRelease(c, SILENT).1 && HooksAgree(c.hooks)
    ensures var c' := ItemRelease(c, SILENT).0;
            && c'.use.released && c'.use.frees == c.use.frees + 1
            && !c'.io.pending && (!c.io.closed ==> c'.io == Io(false, false, false, true))
            && (c.mux ==> c'.hooks == Hooks(false, false, false, 0))
  {
    assert PerformAll(Hardened(c), []) == Hardened(c);
    var d := Hardened(c);
    var e := d.(io := Io(false, false, d.io.pending, true));
    assert PerformAll(e, []) == e;
  }

  /**
   While output waits and the multiplexer watches for it, a first release is soft: it stops
   the reading only, output keeps waiting and the socket stays open.
   */
  lemma SoftenedState(c: Conn, calls: Calls)
    requires Serving(c) && c.mux && c.hooks.write && c.io.pending
    ensures var (c', done) := ItemRelease(c, calls);
            && !done && Leaving(c') && c'.use.frees == c.use.frees
            && c'.io == c.io.(canRead := false)
            && c'.hooks == c.hooks.(read := false, urgent := false)
  {
  }

  /** Closing closes both sides, once. */
  lemma ClosedState(c: Conn)
    ensures !c.io.closed ==> CloseConn(c, []).io == Io(false, false, c.io.pending, true)
    ensures c.io.closed ==> CloseConn(c, []) == c
    ensures CloseConn(CloseConn(c, []), []) == CloseConn(c, [])
  {
    var d := c.(io := Io(false, false, c.io.pending, true));
    assert PerformAll(d, []) == d;
  }

  /** In every other case a release of an object in use is hard. */
  lemma HardUnlessOutputWaits(c: Conn, calls: Calls)
    requires !c.use.released && Quiet(calls) && !(Serving(c) && c.mux && c.hooks.write && c.io.pending)
    ensures ItemRelease(c, calls).1 && ItemRelease(c, calls).0.use.released
  {
    ReleaseOnce(c, calls);
  }

  // ---------------------------------------------------------------- handlers

  /** One request for write readiness and one withdrawal cancel out. */
  lemma SetAndResetCancel(c: Conn)
    requires HooksAgree(c.hooks) && c.mux && c.io.canWrite
    ensures SetWrite(c).hooks.write && SetWrite(c).hooks.handlers == c.hooks.handlers + 1
    ensures ResetWrite(SetWrite(c), false) == c
    ensures ResetWrite(c, true).hooks == c.hooks.(write := false, handlers := 0)
  {
  }

  // ---------------------------------------------------------------- assignments

  /** A fresh use: open both ways, nothing buffered, watched for input. */
  lemma AssignedState(c: Conn)
    ensures var c' := Perform(c, ASSIGN);
            && Serving(c') && c'.use.assigns == c.use.assigns + 1
            && c'.io == Io(true, true, false, false) && (c.mux ==> c'.hooks.read)
  {
    var c0 := MarkClosed(c, false);
    var u := PutToUse(ReleaseUnlessReleased(ReleaseUnlessReleased(c0, SILENT), SILENT));
    RecycleReleases(c0, SILENT, SILENT);
    SameKind(c0, SILENT);
    SameKind(ReleaseUnlessReleased(c0, SILENT), SILENT);
    assert PerformAll(u, []) == u;
    assert PerformAll(Attend(u, SILENT), []) == Attend(u, SILENT);
  }

  lemma SameKind(c: Conn, calls: Calls)
    requires calls == SILENT
    ensures ReleaseUnlessReleased(c, calls).mux == c.mux
  {
    assert PerformAll(Hardened(c), []) == Hardened(c);
    var d := Hardened(c);
    var e := d.(io := Io(false, false, d.io.pending, true));
    assert PerformAll(e, []) == e;
  }

  /**
   Closing a connection put to use afresh in the course of the assignment leaves it closed in
   the end, still in use, and the close callback of the assignment runs.
   */
  lemma ClosedDuringAssign(c: Conn, onClose: seq<Act>)
    requires c.use.released
    ensures var a := DoAssign(SILENT, SILENT, [DoClose([])], SILENT, [], onClose);
            var e := PutToUse(MarkClosed(c, false)).(io := Io(false, false, false, true));
            Perform(c, a) == PerformAll(e, onClose)
  {
    var u := PutToUse(MarkClosed(c, false));
    var e := u.(io := Io(false, false, false, true));
    assert [DoClose([])][1..] == [];
    assert PerformAll(e, []) == e;
    assert PerformAll(u, [DoClose([])]) == PerformAll(Perform(u, DoClose([])), []);
    assert Perform(u, DoClose([])) == e;
    assert PerformAll(Attend(e, SILENT), []) == e;
    assert MarkClosed(e, true) == e;
  }
}
