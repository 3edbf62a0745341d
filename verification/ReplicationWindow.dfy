/**
 How full the window of sent updates is, at every moment of every run.
 */
module ReplicationWindow {
  import opened Bytes
  import opened Store
  import opened ReplicationClient
  import opened ReplicationSystem

  /** How many entries have been queued since the window was last filled. */
  function Late(n: nat, s: System, e: Event): nat {
    match e
    case Write(cmd) =>
      var grown := |Forward(s.client, cmd).queue| - |s.client.queue|;
      if grown > 0 then n + grown else n
    case Confirm => 0
    case Poll => 0
    case Continue => 0
    case StalePoll(reused) => if reused && s.up then 0 else n
    case _ => n
  }

  function LateAfter(n: nat, s: System, es: seq<Event>): nat
    decreases |es|
  {
    if es == [] || !Enabled(s, es[0]) then n
    else match Step(s, es[0]) case None => n case Some(s1) => LateAfter(Late(n, s, es[0]), s1, es[1..])
  }

  /** All queued before those are sent, up to the window of 100. */
  ghost predicate Filled(s: System, late: nat) {
    s.up && s.client.phase == Running ==>
      && late <= |s.client.queue|
      && s.client.pipelined == if |s.client.queue| - late < 100 then |s.client.queue| - late else 100
  }

  lemma PushFilled(s: System)
    requires s.up && s.client.phase == Running
    requires 0 <= s.client.pipelined <= 100 && s.client.pipelined <= |s.client.queue|
    ensures Carry(s, PushQueue(s.client)).Some? && Filled(Carry(s, PushQueue(s.client)).value, 0)
  {
    PushFillsWindow(s.client);
  }

  lemma ConfirmFilled(s: System)
    requires Book(s) && Enabled(s, Confirm)
    ensures Step(s, Confirm).Some? && Filled(Step(s, Confirm).value, 0)
  {
    StepBook(s, Confirm);
    match s.client.phase
    case Syncing =>
    case SyncFinishing =>
      PushFillsWindow(s.client.(currentKeys := s.client.currentKeys[1..], phase := Running, pipelined := 0));
    case Running =>
      ConfirmRunningStep(s);
      PushFilled(Popped(s));
  }

  lemma PollFilled(s: System, e: Event, late: nat)
    requires Book(s) && Filled(s, late) && Enabled(s, e) && (e.Poll? || e.StalePoll?)
    ensures Step(s, e).Some? && Filled(Step(s, e).value, Late(late, s, e))
  {
    StepBook(s, e);
    if e.Poll? {
      PushFilled(s.(polls := s.polls - 1));
    } else if e.reused && s.up {
      PushFilled(s.(stale := s.stale - 1));
    }
  }

  lemma WriteFilled(s: System, cmd: Command, late: nat)
    requires Book(s) && Filled(s, late)
    ensures Filled(Step(s, Write(cmd)).value, Late(late, s, Write(cmd)))
  {
  }

  lemma ContinueFilled(s: System)
    requires Book(s) && Enabled(s, Continue)
    ensures Step(s, Continue).Some? && Filled(Step(s, Continue).value, 0)
  {
    PushFilled(s.(up := true, client := s.client.(phase := Running, pipelined := 0)));
  }

  lemma StepFilled(s: System, e: Event, late: nat)
    requires Book(s) && Filled(s, late) && Enabled(s, e)
    ensures Step(s, e).Some? && Filled(Step(s, e).value, Late(late, s, e))
  {
    match e
    case Write(cmd) => WriteFilled(s, cmd, late);
    case Apply =>
    case Confirm => ConfirmFilled(s);
    case Poll => PollFilled(s, e, late);
    case StalePoll(_) => PollFilled(s, e, late);
    case Drop =>
    case Continue => ContinueFilled(s);
  }

  lemma {:induction false} RunFilled(s: System, es: seq<Event>, late: nat)
    requires Book(s) && Filled(s, late) && Possible(s, es)
    ensures After(s, es).Some? && Filled(After(s, es).value, LateAfter(late, s, es))
    decreases |es|
  {
    if es != [] {
      StepBook(s, es[0]);
      StepFilled(s, es[0], late);
      RunFilled(Step(s, es[0]).value, es[1..], Late(late, s, es[0]));
    }
  }

  /**
   The window is always as full as it can be: over every possible run from the start, while
   connected and running, every entry queued before the last push is sent, up to 100.
   */
  lemma WindowIsFull(master: Db, slave: Db, es: seq<Event>, s: System)
    requires Possible(Start(master, slave), es) && After(Start(master, slave), es) == Some(s)
    requires s.up && s.client.phase == Running
    ensures var sendable := |s.client.queue| - LateAfter(0, Start(master, slave), es);
            0 <= sendable && s.client.pipelined == if sendable < 100 then sendable else 100
  {
    StartBook(master, slave);
    RunFilled(Start(master, slave), es, 0);
  }
}
