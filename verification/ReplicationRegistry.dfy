/**
 The master's registry of slaves: joining, leaving, resuming, and spreading a write.
 */
module ReplicationRegistry {
  import opened Bytes
  import opened Store
  import opened ReplicationClient
  import ReplicationSystem

  type Id = seq<byte>

  /** The state a slave asks for; every word other than these is treated as Continue. */
  datatype Mode = Stop | Start | Auto | Continue

  function Effective(known: bool, mode: Mode): Mode {
    if !known && mode == Auto then Start else mode
  }

  /** What happens to the record of a slave that starts over or resumes. */
  function Joining(c: ClientState, start: bool, db: Db): (o: Outcome)
    ensures o.Done?
  {
    if start then SyncInitial(c.(phase := NotReady), db) else SyncQueue(c)
  }

  function AddClient(cs: map<Id, ClientState>, id: Id, mode: Mode, db: Db): (r: (map<Id, ClientState>, Outcome))
    ensures r.1.Done?
  {
    var m := Effective(id in cs, mode);
    if m == Stop then (cs - {id}, Done(FRESH, [], 0))
    else
      var o := Joining(if id in cs && m != Start then cs[id] else FRESH, m == Start, db);
      (cs[id := o.client], o)
  }

  /** One slave's request never touches another slave's record. */
  lemma OthersUntouched(cs: map<Id, ClientState>, id: Id, mode: Mode, db: Db, other: Id)
    requires other != id
    ensures other in AddClient(cs, id, mode, db).0 <==> other in cs
    ensures other in cs ==> AddClient(cs, id, mode, db).0[other] == cs[other]
  {
  }

  /**
   "start", and "auto" of a slave not known, begin the copy: the record is that of a system
   at its start, and what is sent is what is on its wire.
   */
  lemma StartBeginsCopy(cs: map<Id, ClientState>, id: Id, mode: Mode, db: Db, slave: Db)
    requires mode == Start || (mode == Auto && id !in cs)
    ensures var (cs1, o) := AddClient(cs, id, mode, db);
            var s := ReplicationSystem.Start(db, slave);
            id in cs1 && cs1[id] == s.client && o == Done(s.client, s.wire, s.polls)
  {
  }

  /** "continue", and "auto" of a slave known, resume: what happens is what the system does on reconnection. */
  lemma ResumeContinues(cs: map<Id, ClientState>, id: Id, mode: Mode, s: ReplicationSystem.System)
    requires id in cs && (mode == Auto || mode == Continue) && !s.up && s.client == cs[id]
    ensures var (cs1, o) := AddClient(cs, id, mode, s.master);
            && id in cs1 && cs1[id] == o.client
            && ReplicationSystem.Step(s, ReplicationSystem.Continue)
               == ReplicationSystem.Carry(s.(up := true), o)
  {
  }

  /** "continue" of a slave not known makes a record that waits for writes, and "stop" leaves none. */
  lemma UnknownAndStop(cs: map<Id, ClientState>, id: Id, db: Db)
    ensures id !in cs ==>
              AddClient(cs, id, Continue, db)
              == (cs[id := ClientState(Running, [], [], 0)], Done(ClientState(Running, [], [], 0), [], 1))
    ensures id !in AddClient(cs, id, Stop, db).0 && AddClient(cs, id, Stop, db).1.sent == []
    ensures AddClient(cs, id, Stop, db).1.polls == 0
  {
  }

  method StartOrResume(cl: Client, start: bool, conn: Connection, db: Db)
    modifies cl, conn
    ensures cl.Follows(conn, Joining(old(cl.State()), start, db))
  {
    if start {
      cl.phase := NotReady;
      cl.DoSyncInitial(conn, db);
    } else {
      cl.phase := Running;
      var _ := cl.DoSyncQueue(conn);
    }
  }

  class Replication {
    var repClients: map<Id, Client>

    ghost predicate Valid()
      reads this
    {
      forall i, j :: i in repClients && j in repClients && i != j ==> repClients[i] != repClients[j]
    }

    ghost function States(): map<Id, ClientState>
      reads this, repClients.Values
    {
      map id | id in repClients :: repClients[id].State()
    }

    constructor ()
      ensures Valid() && States() == map[]
    {
      repClients := map[];
    }

    /** Sees to a record to work on: the one registered, or a new one if there is none or it must be renewed. */
    method Locate(id: Id, renew: bool)
      requires Valid()
      modifies this
      ensures Valid() && id in repClients && repClients == old(repClients)[id := repClients[id]]
      ensures repClients[id] in old(repClients).Values || fresh(repClients[id])
      ensures States() == old(States())[id := if id in old(States()) && !renew then old(States())[id] else FRESH]
    {
      if id in repClients && renew {
        repClients := repClients - {id};
      }
      if id !in repClients {
        var cl := new Client();
        repClients := repClients[id := cl];
      }
    }

    /** Starts the copy or resumes the queue of one registered record. */
    method Begin(id: Id, start: bool, conn: Connection, db: Db)
      requires Valid() && id in repClients
      modifies repClients[id], conn
      ensures Valid() && repClients == old(repClients)
      ensures var o := Joining(old(States())[id], start, db);
              && States() == old(States())[id := o.client]
              && conn.sent == old(conn.sent) + o.sent && conn.polls == old(conn.polls) + o.polls
    {
      StartOrResume(repClients[id], start, conn, db);
    }

    method Join(id: Id, start: bool, conn: Connection, db: Db)
      requires Valid()
      modifies this, repClients.Values, conn
      ensures Valid()
      ensures var c := if id in old(States()) && !start then old(States())[id] else FRESH;
              var o := Joining(c, start, db);
              && States() == old(States())[id := o.client]
              && conn.sent == old(conn.sent) + o.sent && conn.polls == old(conn.polls) + o.polls
    {
      Locate(id, start);
      Begin(id, start, conn, db);
    }

    method DoAddClient(id: Id, mode: Mode, conn: Connection, db: Db)
      requires Valid()
      modifies this, repClients.Values, conn
      ensures Valid()
      ensures States() == AddClient(old(States()), id, mode, db).0
      ensures var o := AddClient(old(States()), id, mode, db).1;
              conn.sent == old(conn.sent) + o.sent && conn.polls == old(conn.polls) + o.polls
    {
      var m := mode;
      if id in repClients {
        if m == Stop {
          repClients := repClients - {id};
          return;
        }
      } else if m == Auto {
        m := Start;
      }
      if m == Stop {
        assert States() - {id} == States();
        return;
      }
      Join(id, m == Start, conn, db);
    }

    method ForwardOne(id: Id, cmd: Command)
      requires Valid() && id in repClients
      modifies repClients[id]
      ensures Valid() && repClients == old(repClients)
      ensures States() == old(States())[id := Forward(old(States())[id], cmd)]
    {
      repClients[id].DoForward(cmd);
    }

    method SendToClients(cmd: Command)
      requires Valid()
      modifies repClients.Values
      ensures Valid() && repClients == old(repClients)
      ensures States() == map id | id in old(States()) :: Forward(old(States())[id], cmd)
    {
      if IsEmpty(cmd) {
        return;
      }
      var todo := repClients.Keys;
      while todo != {}
        invariant todo <= repClients.Keys && repClients == old(repClients) && Valid()
        invariant States() == Forwarded(old(States()), todo, cmd)
        decreases |todo|
      {
        var id :| id in todo;
        ForwardOne(id, cmd);
        ForwardedNext(old(States()), todo, id, cmd);
        todo := todo - {id};
      }
    }
  }

  /** Every record but those still to do has been given the command. */
  function Forwarded(cs: map<Id, ClientState>, todo: set<Id>, cmd: Command): map<Id, ClientState> {
    map id | id in cs :: if id in todo then cs[id] else Forward(cs[id], cmd)
  }

  lemma ForwardedNext(cs: map<Id, ClientState>, todo: set<Id>, id: Id, cmd: Command)
    requires id in todo && id in cs
    ensures Forwarded(cs, todo, cmd)[id := Forward(cs[id], cmd)] == Forwarded(cs, todo - {id}, cmd)
  {
  }
}
