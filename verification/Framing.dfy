/**
 Messages over a byte stream: each is sent with CR LF behind it through a writer that
 buffers what the socket does not take, and cut out again by a splitter that sees the
 stream in blocks of any size.
 */
module Framing {
  import opened Bytes
  import opened Sequences

  const CR: byte := 13
  const LF: byte := 10
  const CRLF: seq<byte> := [CR, LF]

  // ---------------------------------------------------------------- cutting a stream

  predicate BreakAt(s: seq<byte>, i: int) {
    0 <= i && i + 1 < |s| && s[i] == CR && s[i + 1] == LF
  }

  ghost predicate NoBreak(s: seq<byte>) {
    forall i :: !BreakAt(s, i)
  }

  /** The first separator at or after `i`, or the length if there is none. */
  function FindBreak(s: seq<byte>, i: nat): (r: nat)
    requires i <= |s|
    ensures i <= r <= |s| && (r < |s| ==> r + 2 <= |s|)
    decreases |s| - i
  {
    if i + 1 >= |s| then |s|
    else if BreakAt(s, i) then i
    else FindBreak(s, i + 1)
  }

  lemma {:induction false} FoundBreak(s: seq<byte>, i: nat)
    requires i <= |s|
    ensures FindBreak(s, i) < |s| ==> BreakAt(s, FindBreak(s, i))
    ensures forall j :: i <= j < FindBreak(s, i) ==> !BreakAt(s, j)
    decreases |s| - i
  {
    if i + 1 < |s| && !BreakAt(s, i) {
      FoundBreak(s, i + 1);
    }
  }

  datatype Cut = Cut(frames: seq<seq<byte>>, tail: seq<byte>)

  /** The frames of a stream, each up to and including its separator, and the unterminated tail. */
  function Split(s: seq<byte>): Cut
    decreases |s|
  {
    var i := FindBreak(s, 0);
    if i == |s| then Cut([], s)
    else
      var rest := Split(s[i + 2..]);
      Cut([s[..i + 2]] + rest.frames, rest.tail)
  }

  lemma FirstBreak(s: seq<byte>, i: nat)
    requires BreakAt(s, i) && forall j :: 0 <= j < i ==> !BreakAt(s, j)
    ensures Split(s) == Cut([s[..i + 2]] + Split(s[i + 2..]).frames, Split(s[i + 2..]).tail)
  {
    FoundBreak(s, 0);
  }

  lemma SplitNone(s: seq<byte>)
    requires NoBreak(s)
    ensures Split(s) == Cut([], s)
  {
    FoundBreak(s, 0);
  }

  lemma {:induction false} TailHasNoBreak(s: seq<byte>)
    ensures NoBreak(Split(s).tail)
    decreases |s|
  {
    FoundBreak(s, 0);
    var i := FindBreak(s, 0);
    if i < |s| {
      TailHasNoBreak(s[i + 2..]);
    }
  }

  lemma BreakKept(a: seq<byte>, b: seq<byte>, i: nat)
    requires i < |a| && i == FindBreak(a, 0)
    ensures BreakAt(a + b, i) && forall j :: 0 <= j < i ==> !BreakAt(a + b, j)
  {
    FoundBreak(a, 0);
    forall j | 0 <= j < i ensures !BreakAt(a + b, j) {
      assert !BreakAt(a, j);
    }
  }

  /** A separator found stays the first one found. */
  lemma SplitFirst(a: seq<byte>, b: seq<byte>, i: nat)
    requires i < |a| && i == FindBreak(a, 0)
    ensures i + 2 <= |a|
    ensures Split(a) == Cut([a[..i + 2]] + Split(a[i + 2..]).frames, Split(a[i + 2..]).tail)
    ensures Split(a + b) == Cut([a[..i + 2]] + Split(a[i + 2..] + b).frames, Split(a[i + 2..] + b).tail)
  {
    BreakKept(a, b, i);
    FirstBreak(a + b, i);
    CutConcat(a, b, i + 2);
  }

  function Follow(c: Cut, b: seq<byte>): Cut {
    Cut(c.frames + Split(c.tail + b).frames, Split(c.tail + b).tail)
  }

  lemma FollowFrame(frame: seq<byte>, c: Cut, b: seq<byte>)
    ensures Follow(Cut([frame] + c.frames, c.tail), b) == Cut([frame] + Follow(c, b).frames, Follow(c, b).tail)
  {
    Associative([frame], c.frames, Split(c.tail + b).frames);
  }

  /** More bytes only ever extend the tail: frames once cut stay cut. */
  lemma {:induction false} SplitConcat(a: seq<byte>, b: seq<byte>)
    ensures Split(a + b) == Follow(Split(a), b)
    decreases |a|
  {
    var i := FindBreak(a, 0);
    if i == |a| {
      assert [] + Split(a + b).frames == Split(a + b).frames;
    } else {
      SplitFirst(a, b, i);
      SplitConcat(a[i + 2..], b);
      FollowFrame(a[..i + 2], Split(a[i + 2..]), b);
    }
  }

  function Join(blocks: seq<seq<byte>>): seq<byte>
    decreases |blocks|
  {
    if blocks == [] then [] else blocks[0] + Join(blocks[1..])
  }

  lemma {:induction false} JoinConcat(a: seq<seq<byte>>, b: seq<seq<byte>>)
    ensures Join(a + b) == Join(a) + Join(b)
    decreases |a|
  {
    if a == [] {
      assert a + b == b;
    } else {
      assert (a + b)[1..] == a[1..] + b;
      JoinConcat(a[1..], b);
    }
  }

  function Terminated(ms: seq<seq<byte>>): (r: seq<seq<byte>>)
    ensures |r| == |ms| && forall i :: 0 <= i < |ms| ==> r[i] == ms[i] + [13, 10]
  {
    seq(|ms|, i requires 0 <= i < |ms| => ms[i] + CRLF)
  }

  /** A terminated message free of CR LF is the first frame of whatever it starts. */
  lemma MessageFirst(m: seq<byte>, rest: seq<byte>)
    requires NoBreak(m)
    ensures Split((m + CRLF) + rest) == Before(m + CRLF, Split(rest))
  {
    var s := (m + CRLF) + rest;
    assert BreakAt(s, |m|);
    forall j | 0 <= j < |m| ensures !BreakAt(s, j) {
      assert BreakAt(s, j) ==> j + 1 == |m| || BreakAt(m, j);
    }
    FirstBreak(s, |m|);
    CutConcat(m + CRLF, rest, |m| + 2);
    assert (m + CRLF)[..|m| + 2] == m + CRLF && (m + CRLF)[|m| + 2..] + rest == rest;
  }

  lemma TerminatedFirst(ms: seq<seq<byte>>)
    requires ms != []
    ensures Terminated(ms) == [ms[0] + CRLF] + Terminated(ms[1..])
    ensures Join(Terminated(ms)) == (ms[0] + CRLF) + Join(Terminated(ms[1..]))
  {
    assert Terminated(ms)[1..] == Terminated(ms[1..]);
  }

  /** Terminated messages free of CR LF are cut exactly where they were joined. */
  lemma {:induction false} SplitTerminated(ms: seq<seq<byte>>)
    requires forall i :: 0 <= i < |ms| ==> NoBreak(ms[i])
    ensures Split(Join(Terminated(ms))) == Cut(Terminated(ms), [])
    decreases |ms|
  {
    if ms == [] {
      SplitNone([]);
    } else {
      TerminatedFirst(ms);
      MessageFirst(ms[0], Join(Terminated(ms[1..])));
      SplitTerminated(ms[1..]);
    }
  }

  // ---------------------------------------------------------------- the splitter

  /** None of the frames with these numbers makes its receiver clear the splitter. */
  ghost predicate Silent(clears: nat -> bool, lo: nat, hi: nat) {
    forall i: nat :: lo <= i < hi ==> !clears(i)
  }

  /**
   Which frame, if any, makes its receiver clear the splitter.  Frames are numbered from the
   first ever handed on, and `clears` says at which ones the receiver does so.
   */
  function FirstClear(lo: nat, hi: nat, clears: nat -> bool): (k: nat)
    requires lo <= hi
    ensures lo <= k <= hi && (k < hi ==> clears(k)) && Silent(clears, lo, k)
    decreases hi - lo
  {
    if lo == hi || clears(lo) then lo else FirstClear(lo + 1, hi, clears)
  }

  /** What a block leaves: all frames and the tail, or the frames up to the clearing one and nothing. */
  function Heard(c: Cut, n: nat, clears: nat -> bool): Cut {
    var k := FirstClear(n, n + |c.frames|, clears);
    if k < n + |c.frames| then Cut(c.frames[..k - n + 1], []) else c
  }

  lemma NeverCleared(c: Cut, n: nat, clears: nat -> bool)
    requires Silent(clears, n, n + |c.frames|)
    ensures FirstClear(n, n + |c.frames|, clears) == n + |c.frames| && Heard(c, n, clears) == c
  {
  }

  lemma ClearedAt(c: Cut, n: nat, clears: nat -> bool, k: nat)
    requires n <= k < n + |c.frames| && clears(k) && Silent(clears, n, k)
    ensures FirstClear(n, n + |c.frames|, clears) == k && Heard(c, n, clears) == Cut(c.frames[..k - n + 1], [])
  {
  }

  class Splitter {
    var data: seq<byte>
    var frames: seq<seq<byte>>
    var cleared: bool

    ghost predicate Valid()
      reads this
    {
      NoBreak(data)
    }

    constructor ()
      ensures Valid() && data == [] && frames == []
    {
      data, frames, cleared := [], [], false;
    }

    method Clear()
      modifies this`data, this`cleared
      ensures data == [] && cleared
    {
      data, cleared := [], true;
    }

    /** Hands a frame on behind those of this scan; its receiver may clear the splitter. */
    method SendOn(frame: seq<byte>, clears: nat -> bool, ghost was: seq<seq<byte>>, ghost sent: seq<seq<byte>>)
      requires !cleared && frames == was + sent && Silent(clears, |was|, |was| + |sent|)
      modifies this
      ensures frames == was + (sent + [frame])
      ensures cleared ==> data == [] && clears(|was| + |sent|)
      ensures !cleared ==> data == old(data) && Silent(clears, |was|, |was| + |sent| + 1)
    {
      Associative(was, sent, [frame]);
      frames := frames + [frame];
      if clears(|frames| - 1) {
        Clear();
      }
    }

    /**
     Scans `buffer` from `start`, handing on a frame at each separator.  Returns where the
     last frame ended, -1 if there was none, and 0 if the splitter was cleared.
     */
    method Parse(buffer: seq<byte>, start: nat, clears: nat -> bool) returns (offset: int)
      requires !cleared && forall j :: 0 <= j < start ==> !BreakAt(buffer, j)
      modifies this
      ensures frames == old(frames) + Heard(Split(buffer), |old(frames)|, clears).frames
      ensures cleared ==> offset == 0 && data == [] && Heard(Split(buffer), |old(frames)|, clears).tail == []
      ensures cleared ==> Split(buffer).frames != []
      ensures !cleared ==> Heard(Split(buffer), |old(frames)|, clears) == Split(buffer)
      ensures !cleared ==> data == old(data)
      ensures !cleared && offset == -1 ==> Split(buffer) == Cut([], buffer)
      ensures !cleared && offset != -1 ==> 0 < offset <= |buffer| && Split(buffer).tail == buffer[offset..]
    {
      if |buffer| < 2 {
        SplitNone(buffer);
        assert frames + [] == frames;
        return -1;
      }
      var from, sent := ScanBreaks(buffer, start, clears);
      if cleared {
        ClearedAt(Split(buffer), |old(frames)|, clears, |frames| - 1);
        return 0;
      }
      NeverCleared(Split(buffer), |old(frames)|, clears);
      return if from > 0 then from else -1;
    }

    /** The frame that ends with the separator at `i`. */
    method SendFrame(buffer: seq<byte>, from: nat, i: nat, clears: nat -> bool,
                     ghost was: seq<seq<byte>>, ghost sent: seq<seq<byte>>) returns (ghost more: seq<seq<byte>>)
      requires !cleared && frames == was + sent && Scanning(buffer, |was|, from, i, sent, clears)
      requires BreakAt(buffer, i)
      modifies this
      ensures frames == was + more
      ensures cleared ==> ClearedScan(buffer, |was|, more, clears) && data == []
      ensures !cleared ==> data == old(data) && Scanning(buffer, |was|, i + 2, i + 1, more, clears)
    {
      ScanStep(buffer, from, i, sent);
      more := sent + [buffer[from..i + 2]];
      SendOn(buffer[from..i + 2], clears, was, sent);
      if cleared {
        ScanCleared(buffer, |was|, i + 2, i + 1, more, clears);
      }
    }

    method ScanBreaks(buffer: seq<byte>, start: nat, clears: nat -> bool)
      returns (from: nat, ghost sent: seq<seq<byte>>)
      requires !cleared && |buffer| >= 2 && forall j :: 0 <= j < start ==> !BreakAt(buffer, j)
      modifies this
      ensures frames == old(frames) + sent
      ensures cleared ==> ClearedScan(buffer, |old(frames)|, sent, clears) && data == []
      ensures !cleared ==> data == old(data) && FullScan(buffer, |old(frames)|, from, sent, clears)
    {
      var i := start;
      from, sent := 0, [];
      CutNothing(buffer);
      while i < |buffer| - 1
        invariant !cleared && data == old(data) && frames == old(frames) + sent
        invariant Scanning(buffer, |old(frames)|, from, i, sent, clears)
      {
        if buffer[i] == CR && buffer[i + 1] == LF {
          sent := SendFrame(buffer, from, i, clears, old(frames), sent);
          if cleared {
            return;
          }
          from := i + 2;
        } else {
          ScanStep(buffer, from, i, sent);
        }
        i := i + 1;
      }
      ScanDone(buffer, from, i, sent);
    }

    /**
     One block of the stream: whatever was left over, together with the block, is cut into
     frames, and the unterminated rest is kept; if a receiver clears the splitter, that is
     the last frame of the block and nothing is kept.
     */
    method Receive(block: seq<byte>, clears: nat -> bool) returns (offset: int)
      requires Valid()
      modifies this
      ensures Valid()
      ensures var heard := Heard(Split(old(data) + block), |old(frames)|, clears);
              frames == old(frames) + heard.frames && data == heard.tail
      ensures forall j: nat :: |old(frames)| <= j < |frames| && clears(j) ==> j == |frames| - 1 && data == []
      ensures Silent(clears, |old(frames)|, |frames|) ==>
                frames == old(frames) + Split(old(data) + block).frames && data == Split(old(data) + block).tail
      ensures offset == -1 <==> Split(old(data) + block).frames == []
    {
      TailHasNoBreak(data + block);
      FramesOrNot(data + block);
      cleared := false;
      if data == [] {
        assert data + block == block;
        offset := Parse(block, 0, clears);
        if !cleared {
          if offset == -1 {
            data := block;
          } else if offset != |block| {
            data := block[offset..];
          }
        }
      } else {
        var size := |data|;
        SeenBefore(data, block);
        data := data + block;
        offset := Parse(data, if size > 2 then size - 2 else 0, clears);
        if !cleared {
          if offset == |data| {
            data := [];
          } else if offset != -1 {
            data := data[offset..];
          }
        }
      }
    }
  }

  /** What was left over need not be scanned again but for its last two bytes. */
  lemma SeenBefore(data: seq<byte>, block: seq<byte>)
    requires NoBreak(data)
    ensures forall j :: 0 <= j < (if |data| > 2 then |data| - 2 else 0) ==> !BreakAt(data + block, j)
  {
    forall j | 0 <= j < (if |data| > 2 then |data| - 2 else 0) ensures !BreakAt(data + block, j) {
      assert !BreakAt(data, j);
    }
  }

  /** A scan under way, with no clearing so far. */
  ghost predicate Scanning(buffer: seq<byte>, n: nat, from: nat, i: nat, sent: seq<seq<byte>>, clears: nat -> bool) {
    Scanned(buffer, from, i, sent) && Silent(clears, n, n + |sent|)
  }

  /** A scan that was cleared: it has handed on the first frames, the last of which was the clearing one. */
  ghost predicate ClearedScan(buffer: seq<byte>, n: nat, sent: seq<seq<byte>>, clears: nat -> bool) {
    && 0 < |sent| <= |Split(buffer).frames| && sent == Split(buffer).frames[..|sent|]
    && clears(n + |sent| - 1) && Silent(clears, n, n + |sent| - 1)
  }

  /** A scan to the end: it has handed on all frames, and the last ended at `from`. */
  ghost predicate FullScan(buffer: seq<byte>, n: nat, from: nat, sent: seq<seq<byte>>, clears: nat -> bool) {
    && from <= |buffer| && (from == 0 ==> sent == []) && Split(buffer) == Cut(sent, buffer[from..])
    && Silent(clears, n, n + |sent|)
  }

  lemma ScanCleared(buffer: seq<byte>, n: nat, from: nat, i: nat, sent: seq<seq<byte>>, clears: nat -> bool)
    requires Scanned(buffer, from, i, sent) && sent != []
    requires clears(n + |sent| - 1) && Silent(clears, n, n + |sent| - 1)
    ensures ClearedScan(buffer, n, sent, clears)
  {
  }

  lemma FramesOrNot(s: seq<byte>)
    ensures Split(s).frames == [] <==> Split(s) == Cut([], s)
    ensures Split(s).frames != [] ==> |Split(s).tail| < |s|
  {
    TailShorter(s);
  }

  lemma {:induction false} TailShorter(s: seq<byte>)
    ensures |Split(s).tail| <= |s| && (Split(s).frames != [] ==> |Split(s).tail| < |s|)
    decreases |s|
  {
    var i := FindBreak(s, 0);
    if i < |s| {
      TailShorter(s[i + 2..]);
    }
  }

  /** Cutting `buffer` gives the frames `sent` and then whatever cutting from `from` on gives. */
  ghost predicate CutUpTo(buffer: seq<byte>, from: nat, sent: seq<seq<byte>>)
    requires from <= |buffer|
  {
    Split(buffer) == Cut(sent + Split(buffer[from..]).frames, Split(buffer[from..]).tail)
  }

  lemma CutNothing(buffer: seq<byte>)
    ensures CutUpTo(buffer, 0, [])
  {
    assert buffer[0..] == buffer;
    assert [] + Split(buffer).frames == Split(buffer).frames;
  }

  lemma BreakInSlice(buffer: seq<byte>, from: nat, i: nat)
    requires from <= i && BreakAt(buffer, i) && forall j :: from <= j < i ==> !BreakAt(buffer, j)
    ensures BreakAt(buffer[from..], i - from) && forall j :: 0 <= j < i - from ==> !BreakAt(buffer[from..], j)
  {
    forall j | 0 <= j < i - from ensures !BreakAt(buffer[from..], j) {
      assert !BreakAt(buffer, from + j);
    }
  }

  /** The first separator of what is left ends the next frame. */
  lemma FirstBreakFrom(buffer: seq<byte>, from: nat, i: nat)
    requires from <= i && BreakAt(buffer, i) && forall j :: from <= j < i ==> !BreakAt(buffer, j)
    ensures Split(buffer[from..]) == Before(buffer[from..i + 2], Split(buffer[i + 2..]))
  {
    BreakInSlice(buffer, from, i);
    SliceOfSlice(buffer, from, i + 2);
    FirstBreak(buffer[from..], i - from);
  }

  function Before(frame: seq<byte>, c: Cut): Cut {
    Cut([frame] + c.frames, c.tail)
  }

  lemma Regrouped(sent: seq<seq<byte>>, frame: seq<byte>, c: Cut)
    ensures Cut(sent + Before(frame, c).frames, Before(frame, c).tail) == Cut(sent + [frame] + c.frames, c.tail)
  {
    Associative(sent, [frame], c.frames);
  }

  lemma CutHere(buffer: seq<byte>, from: nat, i: nat, sent: seq<seq<byte>>)
    requires from <= i && BreakAt(buffer, i) && forall j :: from <= j < i ==> !BreakAt(buffer, j)
    requires CutUpTo(buffer, from, sent)
    ensures CutUpTo(buffer, i + 2, sent + [buffer[from..i + 2]])
  {
    FirstBreakFrom(buffer, from, i);
    Regrouped(sent, buffer[from..i + 2], Split(buffer[i + 2..]));
  }

  /** The scan has passed `i` positions, handed on the frames `sent` and last ended one at `from`. */
  ghost predicate Scanned(buffer: seq<byte>, from: nat, i: nat, sent: seq<seq<byte>>) {
    && from <= |buffer| && (from == 0 ==> sent == [])
    && (from <= i || (from == i + 1 && from >= 2 && buffer[i] == LF))
    && (forall j :: from <= j < i ==> !BreakAt(buffer, j))
    && CutUpTo(buffer, from, sent)
  }

  lemma ScanStep(buffer: seq<byte>, from: nat, i: nat, sent: seq<seq<byte>>)
    requires i < |buffer| - 1 && Scanned(buffer, from, i, sent)
    ensures BreakAt(buffer, i) ==>
              from <= i && Scanned(buffer, i + 2, i + 1, sent + [buffer[from..i + 2]])
    ensures !BreakAt(buffer, i) ==> Scanned(buffer, from, i + 1, sent)
  {
    if BreakAt(buffer, i) {
      CutHere(buffer, from, i, sent);
    }
  }

  lemma ScanDone(buffer: seq<byte>, from: nat, i: nat, sent: seq<seq<byte>>)
    requires i >= |buffer| - 1 && Scanned(buffer, from, i, sent)
    ensures from <= |buffer| && Split(buffer) == Cut(sent, buffer[from..])
  {
    NothingLeft(buffer, from);
    assert sent + [] == sent;
  }

  lemma NothingLeft(buffer: seq<byte>, from: nat)
    requires from <= |buffer| && forall j :: from <= j < |buffer| - 1 ==> !BreakAt(buffer, j)
    ensures Split(buffer[from..]) == Cut([], buffer[from..])
  {
    forall j ensures !BreakAt(buffer[from..], j) {
      assert BreakAt(buffer[from..], j) ==> BreakAt(buffer, from + j);
    }
    SplitNone(buffer[from..]);
  }

  // ---------------------------------------------------------------- the writer

  /** What the socket says to a write of `n` bytes: refused (-1), closed (0), or so many taken. */
  predicate Answer(rt: int, n: nat) {
    -1 <= rt <= n
  }

  datatype Written = Written(buffer: seq<byte>, taken: seq<byte>)

  /** Writing `d` behind what is buffered. */
  function WriteOut(buffer: seq<byte>, d: seq<byte>, rt: int): Written
    requires Answer(rt, |buffer + d|)
  {
    var all := buffer + d;
    if rt == 0 then Written([], [])
    else if rt < 0 then Written(all, [])
    else Written(all[rt..], all[..rt])
  }

  /** Writing what is buffered; a closed socket leaves the buffer alone here. */
  function FlushOut(buffer: seq<byte>, rt: int): Written
    requires Answer(rt, |buffer|)
  {
    if rt <= 0 then Written(buffer, []) else Written(buffer[rt..], buffer[..rt])
  }

  /** What the socket says it has taken. */
  function Accepted(rt: int): nat {
    if rt > 0 then rt else 0
  }

  /** A write and a flush hand over exactly as many bytes as the socket says. */
  lemma TakenAsAnswered(buffer: seq<byte>, d: seq<byte>, rt: int)
    ensures Answer(rt, |buffer + d|) ==> |WriteOut(buffer, d, rt).taken| == Accepted(rt)
    ensures Answer(rt, |buffer|) ==> |FlushOut(buffer, rt).taken| == Accepted(rt)
  {
  }

  /** Bytes are conserved, in order, by a write exactly when it is not answered by close (or there was nothing). */
  lemma WriteConservesIff(buffer: seq<byte>, d: seq<byte>, rt: int)
    requires Answer(rt, |buffer + d|)
    ensures var w := WriteOut(buffer, d, rt);
            w.taken + w.buffer == buffer + d <==> rt != 0 || buffer + d == []
  {
  }

  lemma FlushConserves(buffer: seq<byte>, rt: int)
    requires Answer(rt, |buffer|)
    ensures FlushOut(buffer, rt).taken + FlushOut(buffer, rt).buffer == buffer
  {
  }

  class Writer {
    var buffer: seq<byte>
    var taken: seq<byte>

    constructor ()
      ensures buffer == [] && taken == []
    {
      buffer, taken := [], [];
    }

    method Write(d: seq<byte>, rt: int)
      requires Answer(rt, |buffer + d|)
      modifies this
      ensures var w := WriteOut(old(buffer), d, rt); buffer == w.buffer && taken == old(taken) + w.taken
    {
      if buffer != [] || |d| <= 0 {
        buffer := buffer + d;
      }
      if buffer == [] {
        assert old(buffer) + d == d;
        Took(d, rt);
        if rt > 0 && rt < |d| {
          buffer := d[rt..];
        } else if rt < 0 {
          buffer := d;
        }
      } else {
        assert old(buffer) + d == buffer;
        Took(buffer, rt);
        if rt == |buffer| {
          buffer := [];
        } else if rt > 0 {
          buffer := buffer[rt..];
        } else if rt == 0 {
          buffer := [];
        }
      }
    }

    method Flush(rt: int) returns (r: int)
      requires Answer(rt, |buffer|)
      modifies this
      ensures var w := FlushOut(old(buffer), if old(buffer) == [] then -1 else rt);
              buffer == w.buffer && taken == old(taken) + w.taken
      ensures r == if old(buffer) == [] then -1 else rt
    {
      if buffer == [] {
        return -1;
      }
      Took(buffer, rt);
      if rt == |buffer| {
        buffer := [];
      } else if rt > 0 {
        buffer := buffer[rt..];
      }
      return rt;
    }

    /** The socket takes the first `rt` bytes if `rt` is positive. */
    method Took(d: seq<byte>, rt: int)
      requires Answer(rt, |d|)
      modifies this`taken
      ensures taken == old(taken) + (if rt > 0 then d[..rt] else [])
    {
      if rt > 0 {
        taken := taken + d[..rt];
      }
    }

    /** Puts CR LF behind a message and writes both as one. */
    method Send(m: seq<byte>, rt: int)
      requires Answer(rt, |buffer + (m + CRLF)|)
      modifies this
      ensures var w := WriteOut(old(buffer), m + CRLF, rt); buffer == w.buffer && taken == old(taken) + w.taken
    {
      Write(m + CRLF, rt);
    }
  }

  // ---------------------------------------------------------------- end to end

  /** `sent` and `seen` are history variables: messages sent and bytes delivered. */
  datatype Link = Link(buffer: seq<byte>, net: seq<byte>, data: seq<byte>, frames: seq<seq<byte>>,
                       sent: seq<seq<byte>>, seen: seq<byte>)

  const START := Link([], [], [], [], [], [])

  datatype Event = Send(m: seq<byte>, rt: int) | Flush(rt: int) | Deliver(n: nat)

  /** Anything the socket may answer short of closing, any message free of CR LF, any block size. */
  ghost predicate Enabled(l: Link, e: Event) {
    match e
    case Send(m, rt) => NoBreak(m) && Answer(rt, |l.buffer + (m + CRLF)|) && rt != 0
    case Flush(rt) => Answer(rt, |l.buffer|)
    case Deliver(n) => n <= |l.net|
  }

  function Step(l: Link, e: Event): Link
    requires Enabled(l, e)
  {
    match e
    case Send(m, rt) =>
      var all := l.buffer + (m + CRLF);
      l.(buffer := WriteOut(l.buffer, m + CRLF, rt).buffer, net := l.net + all[..Accepted(rt)], sent := l.sent + [m])
    case Flush(rt) => l.(buffer := FlushOut(l.buffer, rt).buffer, net := l.net + l.buffer[..Accepted(rt)])
    case Deliver(n) =>
      var c := Split(l.data + l.net[..n]);
      l.(net := l.net[n..], data := c.tail, frames := l.frames + c.frames, seen := l.seen + l.net[..n])
  }

  /** The sent stream is what was delivered, what is on its way and what is buffered; the delivered part is cut. */
  ghost predicate Inv(l: Link) {
    && (forall i :: 0 <= i < |l.sent| ==> NoBreak(l.sent[i]))
    && Join(Terminated(l.sent)) == l.seen + l.net + l.buffer
    && Split(l.seen) == Cut(l.frames, l.data)
  }

  lemma SendInv(l: Link, m: seq<byte>, rt: int)
    requires Inv(l) && Enabled(l, Send(m, rt))
    ensures Inv(Step(l, Send(m, rt)))
  {
    var w := WriteOut(l.buffer, m + CRLF, rt);
    WriteConservesIff(l.buffer, m + CRLF, rt);
    TakenAsAnswered(l.buffer, m + CRLF, rt);
    Behind(w.taken, w.buffer, l.buffer + (m + CRLF));
    assert (l.buffer + (m + CRLF))[..Accepted(rt)] == w.taken;
    assert Terminated(l.sent + [m]) == Terminated(l.sent) + [m + CRLF];
    JoinConcat(Terminated(l.sent), [m + CRLF]);
    assert Join([m + CRLF]) == m + CRLF by { assert [m + CRLF][1..] == []; }
    Passed(l.seen, l.net, l.buffer, m + CRLF, w.taken, w.buffer);
  }

  lemma Passed<T>(seen: seq<T>, net: seq<T>, buffer: seq<T>, more: seq<T>, taken: seq<T>, left: seq<T>)
    requires taken + left == buffer + more
    ensures seen + net + buffer + more == seen + (net + taken) + left
  {
    assert seen + net + buffer + more == seen + net + (buffer + more);
  }

  lemma FlushInv(l: Link, rt: int)
    requires Inv(l) && Enabled(l, Flush(rt))
    ensures Inv(Step(l, Flush(rt)))
  {
    var w := FlushOut(l.buffer, rt);
    FlushConserves(l.buffer, rt);
    TakenAsAnswered(l.buffer, [], rt);
    assert l.buffer[..Accepted(rt)] == w.taken;
    assert l.seen + l.net + (w.taken + w.buffer) == l.seen + (l.net + w.taken) + w.buffer;
  }

  lemma DeliverInv(l: Link, n: nat)
    requires Inv(l) && Enabled(l, Deliver(n))
    ensures Inv(Step(l, Deliver(n)))
  {
    SplitConcat(l.seen, l.net[..n]);
    Shift(l.seen, l.net, n, l.buffer);
  }

  lemma Shift(a: seq<byte>, b: seq<byte>, n: nat, c: seq<byte>)
    requires n <= |b|
    ensures a + b + c == (a + b[..n]) + b[n..] + c
  {
    assert b == b[..n] + b[n..];
  }

  lemma StepInv(l: Link, e: Event)
    requires Inv(l) && Enabled(l, e)
    ensures Inv(Step(l, e))
  {
    match e
    case Send(m, rt) => SendInv(l, m, rt);
    case Flush(rt) => FlushInv(l, rt);
    case Deliver(n) => DeliverInv(l, n);
  }

  ghost predicate Possible(l: Link, es: seq<Event>)
    decreases |es|
  {
    es == [] || (Enabled(l, es[0]) && Possible(Step(l, es[0]), es[1..]))
  }

  function After(l: Link, es: seq<Event>): Link
    requires Possible(l, es)
    decreases |es|
  {
    if es == [] then l else After(Step(l, es[0]), es[1..])
  }

  lemma {:induction false} RunInv(l: Link, es: seq<Event>)
    requires Inv(l) && Possible(l, es)
    ensures Inv(After(l, es))
    decreases |es|
  {
    if es != [] {
      StepInv(l, es[0]);
      RunInv(Step(l, es[0]), es[1..]);
    }
  }

  lemma FramesArePrefix(l: Link)
    requires Inv(l)
    ensures l.frames <= Terminated(l.sent)
    ensures NoBreak(l.data)
  {
    var tail := l.net + l.buffer;
    SplitTerminated(l.sent);
    SplitConcat(l.seen, tail);
    Associative(l.seen, l.net, l.buffer);
    TailHasNoBreak(l.seen);
  }

  lemma AllArrived(l: Link)
    requires Inv(l) && l.net == [] && l.buffer == []
    ensures l.frames == Terminated(l.sent) && l.data == []
  {
    SplitTerminated(l.sent);
    assert l.seen + [] + [] == l.seen;
  }

  /**
   End to end: over every run of sends, partial or refused writes, flushes and deliveries
   in any fragmentation, the splitter has handed on an initial part of the messages sent,
   in order and each once, its buffer holds no complete message, and when nothing is
   buffered or on its way it has handed on all of them.
   */
  lemma MessagesSurvive(es: seq<Event>, l: Link)
    requires Possible(START, es) && After(START, es) == l
    ensures l.frames <= Terminated(l.sent)
    ensures NoBreak(l.data)
    ensures l.net == [] && l.buffer == [] ==> l.frames == Terminated(l.sent) && l.data == []
  {
    SplitNone([]);
    RunInv(START, es);
    FramesArePrefix(l);
    if l.net == [] && l.buffer == [] {
      AllArrived(l);
    }
  }

  /** A write answered by close loses what it was given. */
  lemma CloseLoses(buffer: seq<byte>, m: seq<byte>)
    ensures WriteOut(buffer, m + CRLF, 0).taken + WriteOut(buffer, m + CRLF, 0).buffer != buffer + (m + CRLF)
  {
    WriteConservesIff(buffer, m + CRLF, 0);
  }
}
