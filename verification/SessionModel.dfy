/** Sessions and their registry as the source keeps them: objects updated in place, found through two dictionaries. Each
    method is proved against the transition of SessionRegistry or SessionEvents, so every run of calls on the objects has
    the properties proved there. */
module SessionModel {
  import opened SessionEvents
  import opened SessionRegistry
  import opened Wrappers

  class AutoTestSession {
    const sessionId: string
    var pid: int
    var state: string
    var stopReason: string
    var debugEvents: seq<DebugEvent>
    var debugSeq: nat

    constructor (sessionId: string, pid: int)
      ensures this.sessionId == sessionId && Abs() == Session(pid, "reserved", "", EmptyLog())
    {
      this.sessionId, this.pid := sessionId, pid;
      state, stopReason := "reserved", "";
      debugEvents, debugSeq := [], 0;
    }

    function Abs(): Session
      reads this
    {
      Session(pid, state, stopReason, Log(debugSeq, debugEvents))
    }

    method PushEvent(pid: int, message: string)
      modifies this`debugEvents, this`debugSeq
      ensures Abs() == old(Abs()).(log := Push(old(Abs()).log, pid, sessionId, message))
    {
      debugSeq := debugSeq + 1;
      debugEvents := debugEvents + [DebugEvent(debugSeq, pid, sessionId, message)];
      if |debugEvents| > MAX_SESSION_EVENTS {
        debugEvents := debugEvents[|debugEvents| - MAX_SESSION_EVENTS..];
      }
    }

    method GetEvents(sinceId: int, limit: int, contains: DebugEvent -> bool) returns (rows: seq<DebugEvent>)
      ensures rows == SessionEvents.GetEvents(Abs().log, sinceId, limit, contains)
    {
      rows := Filter(debugEvents, After(sinceId));
      rows := Filter(rows, contains);
      var most := Clamp(limit);
      if |rows| > most {
        rows := rows[..most];
      }
    }
  }

  class Registry {
    var sessions: map<string, AutoTestSession>
    var pidIndex: map<int, string>

    constructor ()
      ensures Valid() && Abs() == Empty() && sessions == map[]
    {
      sessions, pidIndex := map[], map[];
    }

    ghost predicate Valid()
      reads this, sessions.Values
    {
      forall id | id in sessions :: sessions[id].sessionId == id
    }

    ghost function Views(): map<string, Session>
      reads this, sessions.Values
    {
      map id | id in sessions :: sessions[id].Abs()
    }

    ghost function Abs(): SessionRegistry.Registry
      reads this, sessions.Values
    {
      SessionRegistry.Registry(Views(), pidIndex)
    }

    /** get: by id when one is given, otherwise through the pid index. */
    method Get(sessionId: string, pid: int) returns (found: Option<AutoTestSession>)
      requires Valid()
      ensures found.Some? <==> Lookup(Abs(), sessionId, pid).Some?
      ensures found.Some? ==>
                var id := Lookup(Abs(), sessionId, pid).value; id in sessions && found.value == sessions[id]
    {
      if sessionId != "" {
        return if sessionId in sessions then Some(sessions[sessionId]) else None;
      }
      if pid > 0 {
        if pid in pidIndex && pidIndex[pid] != "" && pidIndex[pid] in sessions {
          return Some(sessions[pidIndex[pid]]);
        }
      }
      return None;
    }

    method Reserve(session: AutoTestSession) returns (reply: Reply)
      requires Valid()
      modifies this
      ensures Valid()
      ensures Outcome(Abs(), reply) == SessionRegistry.Reserve(old(Abs()), session.sessionId, old(session.Abs()))
    {
      if session.sessionId in sessions || (session.pid > 0 && session.pid in pidIndex) {
        return Raised(ValueError);
      }
      sessions := sessions[session.sessionId := session];
      if session.pid > 0 {
        pidIndex := pidIndex[session.pid := session.sessionId];
      }
      assert Views() == old(Views())[session.sessionId := session.Abs()];
      return Done;
    }

    /** Drops the index entry of the pid a session carries. */
    method Unindex(session: AutoTestSession)
      modifies this`pidIndex
      ensures pidIndex == Unindexed(old(pidIndex), session.pid)
    {
      if session.pid > 0 {
        pidIndex := pidIndex - {session.pid};
      }
    }

    twostate lemma OnlyOneChanged(id: string)
      requires old(Valid()) && Valid() && sessions == old(sessions) && id in sessions
      requires forall other | other in sessions && other != id :: unchanged(sessions[other])
      ensures Views() == old(Views())[id := sessions[id].Abs()]
    {
    }

    method AttachPid(sessionId: string, pid: int) returns (reply: Reply)
      requires Valid()
      modifies this`pidIndex, sessions.Values
      ensures Valid() && sessions == old(sessions)
      ensures Outcome(Abs(), reply) == SessionRegistry.AttachPid(old(Abs()), sessionId, pid)
    {
      var session := Get(sessionId, 0);
      if session.None? {
        return Raised(KeyError);
      }
      if pid in pidIndex && pidIndex[pid] != "" && pidIndex[pid] != sessionId {
        return Raised(ValueError);
      }
      Unindex(session.value);
      session.value.pid := pid;
      session.value.state := RUNNING;
      pidIndex := pidIndex[pid := sessionId];
      OnlyOneChanged(sessionId);
      return Done;
    }

    method MarkStopped(sessionId: string, reason: string, state: string) returns (reply: Reply)
      requires Valid()
      modifies this`pidIndex, sessions.Values
      ensures Valid() && sessions == old(sessions)
      ensures Outcome(Abs(), reply) == SessionRegistry.MarkStopped(old(Abs()), sessionId, reason, state)
    {
      var session := Get(sessionId, 0);
      if session.None? {
        return Raised(KeyError);
      }
      Unindex(session.value);
      session.value.state := state;
      session.value.stopReason := reason;
      OnlyOneChanged(sessionId);
      return Done;
    }

    method Remove(sessionId: string) returns (reply: Reply, removed: Option<AutoTestSession>)
      requires Valid()
      modifies this
      ensures Valid()
      ensures Outcome(Abs(), reply) == SessionRegistry.Remove(old(Abs()), sessionId)
      ensures removed == if sessionId in old(sessions) then Some(old(sessions)[sessionId]) else None
    {
      if sessionId !in sessions {
        return Found(false), None;
      }
      var session := sessions[sessionId];
      sessions := sessions - {sessionId};
      Unindex(session);
      assert Views() == old(Views()) - {sessionId};
      return Found(true), Some(session);
    }

    method RouteEvent(pid: int, message: string) returns (reply: Reply)
      requires Valid()
      modifies sessions.Values
      ensures Valid() && sessions == old(sessions)
      ensures Outcome(Abs(), reply) == SessionRegistry.RouteEvent(old(Abs()), pid, message)
    {
      var session := Get("", pid);
      if session.None? {
        return Found(false);
      }
      ghost var owner := Lookup(Abs(), "", pid).value;
      session.value.PushEvent(pid, message);
      OnlyOneChanged(owner);
      return Found(true);
    }
  }
}
