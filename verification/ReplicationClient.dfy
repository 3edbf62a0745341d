/**
 What a master remembers about one slave, and what each operation of that record does.

 Every operation is given twice: as a function on the value `ClientState`, and as a
 method of the class `Client` that updates its fields in place and is proved to do
 exactly what the function says.  A `Connection` records the requests handed to it and
 the queue polls scheduled on it.
 */
module ReplicationClient {
  import opened Bytes
  import opened Store

  const PIPELINE_SIZE := 100
  const PORTION_SIZE := 1000

  datatype Phase = NotReady | Syncing | SyncFinishing | Running

  datatype ClientState = ClientState(phase: Phase, currentKeys: seq<Key>, queue: seq<Command>, pipelined: int)

  /** A value-initialised record. */
  const FRESH := ClientState(NotReady, [], [], 0)

  /** An operation ends normally, having sent requests and scheduled polls, or throws. */
  datatype Outcome = Done(client: ClientState, sent: seq<Command>, polls: nat) | Thrown

  // ---------------------------------------------------------------- bulk copy

  function Current(c: ClientState): Key {
    if c.currentKeys == [] then [] else c.currentKeys[|c.currentKeys| - 1]
  }

  /** Position of the first key of the portion that follows `from`: `Seek(from); Next()`, or the very first. */
  function PortionStart(ks: seq<Key>, from: Key): (i: nat)
    ensures i <= |ks|
  {
    if from == [] then 0
    else
      var i := SeekPosition(ks, from);
      if i < |ks| then i + 1 else i
  }

  function PortionLength(ks: seq<Key>, from: Key): (n: nat)
    ensures PortionStart(ks, from) + n <= |ks| && n <= PORTION_SIZE
  {
    var rest := |ks| - PortionStart(ks, from);
    if rest < PORTION_SIZE then rest else PORTION_SIZE
  }

  function PortionKeys(db: Db, from: Key): (r: seq<Key>)
    ensures forall k :: k in r ==> k in db
  {
    var ks := Listing(db);
    var i := PortionStart(ks, from);
    ks[i..i + PortionLength(ks, from)]
  }

  function Portion(db: Db, from: Key): seq<Entry> {
    EntriesAt(db, PortionKeys(db, from))
  }

  /** The key the next portion continues from. */
  function PortionEnd(db: Db, from: Key): Key {
    var ks := PortionKeys(db, from);
    if ks == [] then from else ks[|ks| - 1]
  }

  function PushPortion(c: ClientState, db: Db, from: Key): ClientState {
    c.(phase := if Portion(db, from) == [] then SyncFinishing else c.phase,
    currentKeys := c.currentKeys + [PortionEnd(db, from)])
  }

  function PushPortions(c: ClientState, db: Db, from: Key, n: nat): (ClientState, seq<Command>)
    decreases n, db
  {
    if n == 0 then (c, [])
    else
      var (c1, sent) := PushPortions(PushPortion(c, db, from), db, PortionEnd(db, from), n - 1);
      (c1, [Set(Portion(db, from))] + sent)
  }

  function SyncInitial(c: ClientState, db: Db): Outcome {
    var (c1, sent) := PushPortions(c, db, [], PIPELINE_SIZE);
    Done(c1.(phase := Syncing), sent, 0)
  }

  // ---------------------------------------------------------------- update queue

  function Clamp(n: int): nat {
    if n < 0 then 0 else n
  }

  function SendCount(c: ClientState): (n: nat)
    requires Clamp(c.pipelined) <= |c.queue| && c.pipelined <= PIPELINE_SIZE
    ensures Clamp(c.pipelined) + n <= |c.queue|
  {
    var rest := |c.queue| - Clamp(c.pipelined);
    if rest < PIPELINE_SIZE - c.pipelined then rest else PIPELINE_SIZE - c.pipelined
  }

  /** Fills the window: sends queue entries beyond those already sent, up to the window size. */
  function PushQueue(c: ClientState): Outcome {
    if c.queue == [] then
      if c.pipelined != 0 then Thrown else Done(c, [], 1)
    else if |c.queue| <= c.pipelined || c.pipelined >= PIPELINE_SIZE then
      Done(c, [], 0)
    else
      var from := Clamp(c.pipelined);
      var n := SendCount(c);
      Done(c.(pipelined := c.pipelined + n), c.queue[from..from + n], 0)
  }

  /**
   A push fills the window: afterwards as many entries are sent as the queue and the window
   of 100 allow, those newly sent being the next ones of the queue; with nothing queued it
   schedules the next look instead.
   */
  lemma PushFillsWindow(c: ClientState)
    requires 0 <= c.pipelined <= 100 && c.pipelined <= |c.queue|
    ensures var full := if |c.queue| < 100 then |c.queue| else 100;
            PushQueue(c) == Done(c.(pipelined := full), c.queue[c.pipelined..full], if c.queue == [] then 1 else 0)
  {
  }

  function SyncQueue(c: ClientState): Outcome {
    PushQueue(c.(phase := Running, pipelined := 0))
  }

  // ---------------------------------------------------------------- confirmations

  function OnConfirm(c: ClientState, db: Db): Outcome {
    match c.phase
    case Syncing =>
      if c.currentKeys == [] then Thrown
      else
        var last := Current(c);
        Done(PushPortion(c.(currentKeys := c.currentKeys[1..]), db, last), [Set(Portion(db, last))], 0)
    case SyncFinishing =>
      if c.currentKeys == [] then Thrown
      else
        var c1 := c.(currentKeys := c.currentKeys[1..]);
        if c1.currentKeys == [] then SyncQueue(c1) else Done(c1, [], 0)
    case Running =>
      if c.queue == [] then Thrown
      else PushQueue(c.(pipelined := c.pipelined - 1, queue := c.queue[1..]))
    case NotReady => Done(c, [], 0)
  }

  // ---------------------------------------------------------------- forwarding writes

  function EntriesBelow(entries: seq<Entry>, key: Key): (r: seq<Entry>)
    decreases |entries|
  {
    if entries == [] then []
    else (if Less(entries[0].0, key) then [entries[0]] else []) + EntriesBelow(entries[1..], key)
  }

  function KeysBelow(keys: seq<Key>, key: Key): seq<Key>
    decreases |keys|
  {
    if keys == [] then []
    else (if Less(keys[0], key) then [keys[0]] else []) + KeysBelow(keys[1..], key)
  }

  /** The part of a command that touches only keys strictly below `key`. */
  function Below(cmd: Command, key: Key): Command {
    match cmd
    case Set(entries) => Set(EntriesBelow(entries, key))
    case Del(keys) => Del(KeysBelow(keys, key))
  }

  predicate IsEmpty(cmd: Command) {
    match cmd
    case Set(entries) => entries == []
    case Del(keys) => keys == []
  }

  /** What a write on the master adds to the slave's queue. */
  function Forward(c: ClientState, cmd: Command): ClientState {
    if IsEmpty(cmd) then c
    else if c.phase == Running then c.(queue := c.queue + [cmd])
    else if c.phase == Syncing && !IsEmpty(Below(cmd, Current(c))) then
      c.(queue := c.queue + [Below(cmd, Current(c))])
    else c
  }

  /** A write queues at most one command, and never one that touches nothing. */
  lemma ForwardQueuesOne(c: ClientState, cmd: Command)
    ensures var c' := Forward(c, cmd);
            && c' == c.(queue := c'.queue)
            && (c'.queue == c.queue
                || (c'.queue != [] && c'.queue == c.queue + [c'.queue[|c'.queue| - 1]]
                    && !IsEmpty(c'.queue[|c'.queue| - 1])))
  {
  }

  // ---------------------------------------------------------------- the objects

  class Connection {
    var sent: seq<Command>
    var polls: nat

    method Request(cmd: Command)
      modifies this
      ensures sent == old(sent) + [cmd] && polls == old(polls)
    {
      sent := sent + [cmd];
    }

    method ScheduleQueue()
      modifies this
      ensures sent == old(sent) && polls == old(polls) + 1
    {
      polls := polls + 1;
    }
  }

  class Client {
    var phase: Phase
    var currentKeys: seq<Key>
    var queue: seq<Command>
    var pipelined: int

    function State(): ClientState
      reads this
    {
      ClientState(phase, currentKeys, queue, pipelined)
    }

    constructor ()
      ensures State() == FRESH
    {
      phase, currentKeys, queue, pipelined := NotReady, [], [], 0;
    }

    /** The state of this client and of the connection after an operation with the given outcome. */
    twostate predicate Follows(conn: Connection, o: Outcome)
      reads this, conn
    {
      o.Done? ==>
        && State() == o.client
        && conn.sent == old(conn.sent) + o.sent
        && conn.polls == old(conn.polls) + o.polls
    }

    method DoPushPortion(conn: Connection, db: Db, from: Key) returns (key: Key)
      modifies this, conn
      ensures State() == PushPortion(old(State()), db, from) && key == PortionEnd(db, from)
      ensures conn.sent == old(conn.sent) + [Set(Portion(db, from))] && conn.polls == old(conn.polls)
    {
      var data := CollectPortion(db, from);
      conn.Request(Set(data));
      if |data| > 0 {
        key := data[|data| - 1].0;
      } else {
        key := from;
        phase := SyncFinishing;
      }
      currentKeys := currentKeys + [key];
    }

    method DoSyncInitial(conn: Connection, db: Db)
      modifies this, conn
      ensures Follows(conn, SyncInitial(old(State()), db))
    {
      var key: Key := [];
      ghost var all := PushPortions(State(), db, key, PIPELINE_SIZE);
      var i := 0;
      while i < PIPELINE_SIZE
        invariant i <= PIPELINE_SIZE
        invariant var rest := PushPortions(State(), db, key, PIPELINE_SIZE - i);
                  all.0 == rest.0 && old(conn.sent) + all.1 == conn.sent + rest.1
        invariant conn.polls == old(conn.polls)
      {
        UnrollPortions(State(), db, key, PIPELINE_SIZE - i, conn.sent);
        key := DoPushPortion(conn, db, key);
        i := i + 1;
      }
      phase := Syncing;
    }

    method DoPushQueue(conn: Connection) returns (thrown: bool)
      modifies this, conn
      ensures thrown <==> PushQueue(old(State())).Thrown?
      ensures Follows(conn, PushQueue(old(State())))
    {
      if queue == [] {
        if pipelined != 0 {
          return true;
        }
        conn.ScheduleQueue();
        return false;
      }
      if |queue| <= pipelined || pipelined >= PIPELINE_SIZE {
        return false;
      }
      var it := Clamp(pipelined);
      ghost var from := it;
      while pipelined < PIPELINE_SIZE && it < |queue|
        invariant from == Clamp(old(pipelined)) && from <= it <= |queue|
        invariant pipelined - old(pipelined) == it - from && pipelined <= PIPELINE_SIZE
        invariant State() == old(State()).(pipelined := pipelined)
        invariant conn.sent == old(conn.sent) + queue[from..it] && conn.polls == old(conn.polls)
      {
        conn.Request(queue[it]);
        assert queue[from..it + 1] == queue[from..it] + [queue[it]];
        pipelined, it := pipelined + 1, it + 1;
      }
      return false;
    }

    method DoSyncQueue(conn: Connection) returns (thrown: bool)
      modifies this, conn
      ensures thrown <==> SyncQueue(old(State())).Thrown?
      ensures Follows(conn, SyncQueue(old(State())))
    {
      phase := Running;
      pipelined := 0;
      thrown := DoPushQueue(conn);
    }

    method DoOnConfirm(conn: Connection, db: Db) returns (thrown: bool)
      modifies this, conn
      ensures thrown <==> OnConfirm(old(State()), db).Thrown?
      ensures Follows(conn, OnConfirm(old(State()), db))
    {
      if phase == Syncing || phase == SyncFinishing {
        if currentKeys == [] {
          return true;
        }
        var last := currentKeys[|currentKeys| - 1];
        currentKeys := currentKeys[1..];
        if phase == Syncing {
          var _ := DoPushPortion(conn, db, last);
        } else if phase == SyncFinishing && currentKeys == [] {
          thrown := DoSyncQueue(conn);
          return;
        }
      } else if phase == Running {
        if queue == [] {
          return true;
        }
        pipelined := pipelined - 1;
        queue := queue[1..];
        thrown := DoPushQueue(conn);
        return;
      }
      return false;
    }

    method DoForward(cmd: Command)
      modifies this
      ensures State() == Forward(old(State()), cmd)
    {
      if !IsEmpty(cmd) {
        if phase == Running {
          queue := queue + [cmd];
        } else if phase == Syncing {
          var partial := FilterBelow(cmd, Current(State()));
          if !IsEmpty(partial) {
            queue := queue + [partial];
          }
        }
      }
    }
  }

  lemma UnrollPortions(c: ClientState, db: Db, from: Key, n: nat, before: seq<Command>)
    requires n > 0
    ensures var all := PushPortions(c, db, from, n);
            var rest := PushPortions(PushPortion(c, db, from), db, PortionEnd(db, from), n - 1);
            all.0 == rest.0 && before + all.1 == before + [Set(Portion(db, from))] + rest.1
  {
  }

  /** The iterator loop that gathers one portion. */
  method CollectPortion(db: Db, from: Key) returns (data: seq<Entry>)
    ensures data == Portion(db, from)
  {
    var ks := Listing(db);
    var it := if from == [] then 0 else SeekPosition(ks, from);
    if from != [] && it < |ks| {
      it := it + 1;
    }
    data := Gather(db, ks, it);
  }

  method Gather(db: Db, ks: seq<Key>, start: nat) returns (data: seq<Entry>)
    requires start <= |ks| && forall k :: k in ks ==> k in db
    ensures var n := if |ks| - start < PORTION_SIZE then |ks| - start else PORTION_SIZE;
            data == EntriesAt(db, ks[start..start + n])
  {
    data := [];
    var it, count := start, 0;
    while it < |ks| && count < PORTION_SIZE
      invariant it == start + count && it <= |ks| && count <= PORTION_SIZE
      invariant data == EntriesAt(db, ks[start..it])
    {
      data := data + [(ks[it], db[ks[it]])];
      it, count := it + 1, count + 1;
    }
  }

  method FilterBelow(cmd: Command, key: Key) returns (partial: Command)
    ensures partial == Below(cmd, key)
  {
    match cmd
    case Set(entries) =>
      var r := FilterEntries(entries, key);
      partial := Set(r);
    case Del(keys) =>
      var r := FilterKeys(keys, key);
      partial := Del(r);
  }

  method FilterEntries(entries: seq<Entry>, key: Key) returns (r: seq<Entry>)
    ensures r == EntriesBelow(entries, key)
  {
    r := [];
    var i := 0;
    while i < |entries|
      invariant i <= |entries|
      invariant r + EntriesBelow(entries[i..], key) == EntriesBelow(entries, key)
    {
      assert entries[i..][1..] == entries[i + 1..];
      if Less(entries[i].0, key) {
        r := r + [entries[i]];
      }
      i := i + 1;
    }
  }

  method FilterKeys(keys: seq<Key>, key: Key) returns (r: seq<Key>)
    ensures r == KeysBelow(keys, key)
  {
    r := [];
    var i := 0;
    while i < |keys|
      invariant i <= |keys|
      invariant r + KeysBelow(keys[i..], key) == KeysBelow(keys, key)
    {
      assert keys[i..][1..] == keys[i + 1..];
      if Less(keys[i], key) {
        r := r + [keys[i]];
      }
      i := i + 1;
    }
  }
}
