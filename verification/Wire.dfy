/**
 Replication commands as text on the wire: their bodies survive printing, framing, any
 fragmentation and reading.
 */
module Wire {
  import opened Bytes
  import opened Store
  import opened JsonNumber
  import opened JsonString
  import opened JsonContainer
  import opened JsonContainerExact
  import Framing

  /** The text a command is sent as. */
  function Body(cmd: Command): seq<byte> {
    match cmd
    case Set(entries) => PrintPairs(entries)
    case Del(keys) => PrintKeys(keys)
  }

  /** What the slave's handler of the same method reads from that text. */
  function ReadBodyOf(cmd: Command, text: seq<byte>): Parse<Command> {
    match cmd
    case Set(_) => (match ParsePairs(text) case Ok(es, rest) => Ok(Set(es), rest) case Fail => Fail)
    case Del(_) => (match ParseKeys(text) case Ok(ks, rest) => Ok(Del(ks), rest) case Fail => Fail)
  }

  predicate FramedCommand(cmd: Command) {
    match cmd
    case Set(entries) => forall i :: 0 <= i < |entries| ==> FramedEntry(entries[i])
    case Del(keys) => forall i :: 0 <= i < |keys| ==> Framed(keys[i], true)
  }

  /** The text of a command reads as that command, up to whatever follows, if and only if its strings are framed. */
  lemma CommandRoundTrip(cmd: Command, rest: seq<byte>)
    ensures ReadBodyOf(cmd, Body(cmd) + rest) == Ok(cmd, rest) <==> FramedCommand(cmd)
  {
    match cmd
    case Set(entries) => PairsRoundTripIff(entries, rest);
    case Del(keys) => KeysRoundTripIff(keys, rest);
  }

  // ---------------------------------------------------------------- no line breaks

  predicate Breakless(s: seq<byte>) {
    Framing.CR !in s && Framing.LF !in s
  }

  lemma StringBreakless(s: seq<byte>, controls: bool)
    ensures Breakless(PrintString(s, controls))
  {
    EscapeHasNoBreaks(s, controls);
  }

  lemma {:induction false} ItemsBreakless<T>(print1: T -> seq<byte>, xs: seq<T>)
    requires forall i :: 0 <= i < |xs| ==> Breakless(print1(xs[i]))
    ensures Breakless(PrintItems(print1, xs))
    decreases |xs|
  {
    if |xs| > 1 {
      ItemsBreakless(print1, xs[1..]);
    }
  }

  /** Whatever the keys and values, a printed command contains neither CR nor LF. */
  lemma BodyBreakless(cmd: Command)
    ensures Breakless(Body(cmd))
  {
    match cmd
    case Set(entries) =>
      forall i | 0 <= i < |entries| ensures Breakless(PrintPair(entries[i])) {
        StringBreakless(entries[i].0, true);
        StringBreakless(entries[i].1, false);
      }
      ItemsBreakless(PrintPair, entries);
    case Del(keys) =>
      forall i | 0 <= i < |keys| ensures Breakless(PrintKey(keys[i])) {
        StringBreakless(keys[i], true);
      }
      ItemsBreakless(PrintKey, keys);
  }

  lemma BreaklessNoBreak(s: seq<byte>)
    requires Breakless(s)
    ensures Framing.NoBreak(s)
  {
  }

  /** A request: whatever the envelope puts before and behind the parameter text. */
  datatype Request = Request(before: seq<byte>, cmd: Command, behind: seq<byte>)

  function Text(q: Request): seq<byte> {
    q.before + Body(q.cmd) + q.behind
  }

  function Texts(qs: seq<Request>): (r: seq<seq<byte>>)
    ensures |r| == |qs| && forall i :: 0 <= i < |qs| ==> r[i] == Text(qs[i])
  {
    seq(|qs|, i requires 0 <= i < |qs| => Text(qs[i]))
  }

  predicate Sound(q: Request) {
    Breakless(q.before) && Breakless(q.behind) && FramedCommand(q.cmd)
  }

  lemma TextHasNoBreak(q: Request)
    requires Sound(q)
    ensures Framing.NoBreak(Text(q))
  {
    BodyBreakless(q.cmd);
    BreaklessNoBreak(Text(q));
  }

  /** Read from where its parameters begin, a frame gives back the command. */
  lemma ReadRequest(q: Request)
    requires Sound(q)
    ensures var frame := Text(q) + Framing.CRLF;
            |q.before| <= |frame| && ReadBodyOf(q.cmd, frame[|q.before|..]) == Ok(q.cmd, q.behind + Framing.CRLF)
  {
    var frame := Text(q) + Framing.CRLF;
    assert frame[|q.before|..] == Body(q.cmd) + (q.behind + Framing.CRLF);
    CommandRoundTrip(q.cmd, q.behind + Framing.CRLF);
  }

  /**
   Any sequence of commands with framed keys and values, each in an envelope free of line
   breaks, sent as terminated messages and cut out of the stream again: one frame for each,
   in order, whose parameters read as the same command and end where the envelope goes on.
   */
  lemma CommandsSurviveFraming(qs: seq<Request>)
    requires forall i :: 0 <= i < |qs| ==> Sound(qs[i])
    ensures var cut := Framing.Split(Framing.Join(Framing.Terminated(Texts(qs))));
            && cut.tail == [] && |cut.frames| == |qs|
            && forall i :: 0 <= i < |qs| ==>
                 && |qs[i].before| <= |cut.frames[i]|
                 && ReadBodyOf(qs[i].cmd, cut.frames[i][|qs[i].before|..]) == Ok(qs[i].cmd, qs[i].behind + Framing.CRLF)
  {
    var ms := Texts(qs);
    forall i | 0 <= i < |ms| ensures Framing.NoBreak(ms[i]) {
      TextHasNoBreak(qs[i]);
    }
    Framing.SplitTerminated(ms);
    forall i | 0 <= i < |qs|
      ensures |qs[i].before| <= |Framing.Terminated(ms)[i]|
      ensures ReadBodyOf(qs[i].cmd, Framing.Terminated(ms)[i][|qs[i].before|..])
           == Ok(qs[i].cmd, qs[i].behind + Framing.CRLF)
    {
      ReadRequest(qs[i]);
    }
  }
}
