/** The registry of AutoTest sessions and its index from process id to session. */
module SessionRegistry {
  import opened SessionEvents
  import opened Wrappers

  const RUNNING := "running"

  datatype Session = Session(pid: int, state: string, stopReason: string, log: Log)

  datatype Registry = Registry(sessions: map<string, Session>, pidIndex: map<int, string>)

  datatype Error = ValueError | KeyError

  datatype Reply = Done | Found(present: bool) | Raised(error: Error)

  datatype Outcome = Outcome(registry: Registry, reply: Reply)

  function Empty(): Registry {
    Registry(map[], map[])
  }

  // Operations

  /** The session a selector names: by id when one is given, otherwise by positive pid. An empty owner id finds nothing. */
  function Lookup(s: Registry, sessionId: string, pid: int): (r: Option<string>)
    ensures r.Some? ==> r.value in s.sessions
  {
    if sessionId != "" then (if sessionId in s.sessions then Some(sessionId) else None)
    else if pid > 0 && pid in s.pidIndex && s.pidIndex[pid] != "" && s.pidIndex[pid] in s.sessions
    then Some(s.pidIndex[pid])
    else None
  }

  function Unindexed(index: map<int, string>, pid: int): map<int, string> {
    if pid > 0 then index - {pid} else index
  }

  function Reserve(s: Registry, sessionId: string, session: Session): Outcome {
    if sessionId in s.sessions || (session.pid > 0 && session.pid in s.pidIndex) then Outcome(s, Raised(ValueError))
    else Outcome(Registry(s.sessions[sessionId := session],
                          if session.pid > 0 then s.pidIndex[session.pid := sessionId] else s.pidIndex), Done)
  }

  function AttachPid(s: Registry, sessionId: string, pid: int): Outcome {
    if Lookup(s, sessionId, 0).None? then Outcome(s, Raised(KeyError))
    else if pid in s.pidIndex && s.pidIndex[pid] != "" && s.pidIndex[pid] != sessionId then Outcome(s, Raised(ValueError))
    else
      var session := s.sessions[sessionId];
      Outcome(Registry(s.sessions[sessionId := session.(pid := pid, state := RUNNING)],
                       Unindexed(s.pidIndex, session.pid)[pid := sessionId]), Done)
  }

  function MarkStopped(s: Registry, sessionId: string, reason: string, state: string): Outcome {
    if Lookup(s, sessionId, 0).None? then Outcome(s, Raised(KeyError))
    else
      var session := s.sessions[sessionId];
      Outcome(Registry(s.sessions[sessionId := session.(state := state, stopReason := reason)],
                       Unindexed(s.pidIndex, session.pid)), Done)
  }

  function Remove(s: Registry, sessionId: string): Outcome {
    if sessionId !in s.sessions then Outcome(s, Found(false))
    else Outcome(Registry(s.sessions - {sessionId}, Unindexed(s.pidIndex, s.sessions[sessionId].pid)), Found(true))
  }

  function RouteEvent(s: Registry, pid: int, msg: string): Outcome {
    var owner := Lookup(s, "", pid);
    if owner.None? then Outcome(s, Found(false))
    else
      var session := s.sessions[owner.value];
      Outcome(s.(sessions := s.sessions[owner.value := session.(log := Push(session.log, pid, owner.value, msg))]),
              Found(true))
  }

  datatype Op =
    | OpReserve(sessionId: string, session: Session)
    | OpAttach(sessionId: string, pid: int)
    | OpStop(sessionId: string, reason: string, state: string)
    | OpRemove(sessionId: string)
    | OpRoute(pid: int, msg: string)

  function Step(s: Registry, op: Op): Outcome {
    match op
    case OpReserve(id, session) => Reserve(s, id, session)
    case OpAttach(id, pid) => AttachPid(s, id, pid)
    case OpStop(id, reason, state) => MarkStopped(s, id, reason, state)
    case OpRemove(id) => Remove(s, id)
    case OpRoute(pid, msg) => RouteEvent(s, pid, msg)
  }

  function Run(s: Registry, ops: seq<Op>): Registry
    decreases |ops|
  {
    if ops == [] then s else Run(Step(s, ops[0]).registry, ops[1..])
  }

  // What every run keeps

  /** A positive pid in the index names a registered session that carries this pid. */
  ghost predicate IndexIsRight(s: Registry) {
    forall p | p in s.pidIndex && p > 0 :: s.pidIndex[p] in s.sessions && s.sessions[s.pidIndex[p]].pid == p
  }

  lemma StepKeepsIndex(s: Registry, op: Op)
    requires IndexIsRight(s)
    ensures IndexIsRight(Step(s, op).registry)
  {
  }

  lemma {:induction false} RunKeepsIndex(s: Registry, ops: seq<Op>)
    requires IndexIsRight(s)
    ensures IndexIsRight(Run(s, ops))
    decreases |ops|
  {
    if ops != [] {
      StepKeepsIndex(s, ops[0]);
      RunKeepsIndex(Step(s, ops[0]).registry, ops[1..]);
    }
  }

  /** After any run, a routed event reaches exactly one session, registered and carrying that pid, and is the last entry
      of its log; an event that is not routed changes nothing. */
  lemma RoutedToItsOwner(ops: seq<Op>, pid: int, msg: string)
    ensures var s := Run(Empty(), ops); var o := RouteEvent(s, pid, msg);
      if o.reply == Found(true) then
        && pid > 0 && pid in s.pidIndex && s.pidIndex[pid] in s.sessions
        && var owner := s.pidIndex[pid];
          && s.sessions[owner].pid == pid && o.registry.pidIndex == s.pidIndex
          && o.registry.sessions == s.sessions[owner := o.registry.sessions[owner]]
          && o.registry.sessions[owner] == s.sessions[owner].(log := o.registry.sessions[owner].log)
          && var e := DebugEvent(s.sessions[owner].log.debugSeq + 1, pid, owner, msg);
            var events := o.registry.sessions[owner].log.events;
            events != [] && events[|events| - 1] == e
      else o == Outcome(s, Found(false))
  {
    RunKeepsIndex(Empty(), ops);
  }

  // Who receives the events of a process

  /** The session that events of this process reach. */
  function Owner(s: Registry, pid: int): Option<string> {
    Lookup(s, "", pid)
  }

  /** An accepted attach makes the session running and routes the new pid to it; the pid it held before is no longer
      routed, and no other pid or session is touched. It is refused for an unknown or empty id and, unless its entry is
      the empty id, for a pid that another session holds. */
  lemma AttachRoutes(s: Registry, id: string, pid: int)
    ensures var o := AttachPid(s, id, pid);
      if id == "" || id !in s.sessions then o == Outcome(s, Raised(KeyError))
      else if pid in s.pidIndex && s.pidIndex[pid] !in {"", id} then o == Outcome(s, Raised(ValueError))
      else
        var t, was := o.registry, s.sessions[id];
        && o.reply == Done && t.sessions.Keys == s.sessions.Keys
        && t.sessions[id] == Session(pid, "running", was.stopReason, was.log)
        && (forall other | other in s.sessions && other != id :: t.sessions[other] == s.sessions[other])
        && (pid > 0 ==> Owner(t, pid) == Some(id))
        && (was.pid > 0 && was.pid != pid ==> Owner(t, was.pid) == None)
        && (forall p | p != pid && p != was.pid :: Owner(t, p) == Owner(s, p))
  {
  }

  /** Stopping a session ends the routing of the pid it carries and of no other; the session keeps its pid and log. */
  lemma StopEndsRouting(s: Registry, id: string, reason: string, state: string)
    ensures var o := MarkStopped(s, id, reason, state);
      if id == "" || id !in s.sessions then o == Outcome(s, Raised(KeyError))
      else
        var t, was := o.registry, s.sessions[id];
        && o.reply == Done && t.sessions.Keys == s.sessions.Keys
        && t.sessions[id] == Session(was.pid, state, reason, was.log)
        && (forall other | other in s.sessions && other != id :: t.sessions[other] == s.sessions[other])
        && (was.pid > 0 ==> Owner(t, was.pid) == None)
        && (forall p | p != was.pid :: Owner(t, p) == Owner(s, p))
  {
  }

  /** Removing a session forgets it and ends all routing to it. */
  lemma RemoveEndsRouting(s: Registry, id: string)
    requires IndexIsRight(s)
    ensures var o := Remove(s, id);
      if id !in s.sessions then o == Outcome(s, Found(false))
      else
        var t, was := o.registry, s.sessions[id];
        && o.reply == Found(true) && t.sessions.Keys == s.sessions.Keys - {id}
        && (forall other | other in t.sessions :: t.sessions[other] == s.sessions[other])
        && (was.pid > 0 ==> Owner(t, was.pid) == None)
        && (forall p | p != was.pid :: Owner(t, p) == Owner(s, p) && Owner(t, p) != Some(id))
  {
  }

  // The other direction

  /** Every running session with a positive pid is found by that pid. */
  ghost predicate RunningAreIndexed(s: Registry) {
    forall id | id in s.sessions && s.sessions[id].state == RUNNING && s.sessions[id].pid > 0 ::
      s.sessions[id].pid in s.pidIndex && s.pidIndex[s.sessions[id].pid] == id
  }

  /** The pid this session still carries is by now another running session's. */
  predicate CarriesForeignPid(s: Registry, sessionId: string) {
    && sessionId in s.sessions && s.sessions[sessionId].pid > 0 && s.sessions[sessionId].pid in s.pidIndex
    && var owner := s.pidIndex[s.sessions[sessionId].pid];
      owner != sessionId && owner in s.sessions && s.sessions[owner].state == RUNNING
  }

  /** What a caller can check before the call: the session it names does not carry another running session's pid, the
      pid it attaches is not held by a running session with the empty id, and it does not "stop" a session into the
      running state while that session holds a pid. */
  predicate Careful(s: Registry, op: Op) {
    match op
    case OpReserve(id, session) => true
    case OpAttach(id, pid) =>
      && !CarriesForeignPid(s, id)
      && !(pid > 0 && pid in s.pidIndex && s.pidIndex[pid] == "" && "" in s.sessions && s.sessions[""].state == RUNNING)
    case OpStop(id, reason, state) =>
      !CarriesForeignPid(s, id) && !(id in s.sessions && state == RUNNING && s.sessions[id].pid > 0)
    case OpRemove(id) => !CarriesForeignPid(s, id)
    case OpRoute(pid, msg) => true
  }

  lemma UnindexedBreaks(t: Registry, id: string)
    requires id in t.sessions && t.sessions[id].state == RUNNING && t.sessions[id].pid > 0
    requires !(t.sessions[id].pid in t.pidIndex && t.pidIndex[t.sessions[id].pid] == id)
    ensures !RunningAreIndexed(t)
  {
  }

  lemma AttachKeepsRunningIff(s: Registry, id: string, pid: int)
    requires IndexIsRight(s) && RunningAreIndexed(s) && !AttachPid(s, id, pid).reply.Raised?
    ensures RunningAreIndexed(AttachPid(s, id, pid).registry) <==> Careful(s, OpAttach(id, pid))
  {
    var t := AttachPid(s, id, pid).registry;
    if CarriesForeignPid(s, id) {
      UnindexedBreaks(t, s.pidIndex[s.sessions[id].pid]);
    } else if !Careful(s, OpAttach(id, pid)) {
      UnindexedBreaks(t, "");
    }
  }

  lemma StopKeepsRunningIff(s: Registry, id: string, reason: string, state: string)
    requires IndexIsRight(s) && RunningAreIndexed(s) && !MarkStopped(s, id, reason, state).reply.Raised?
    ensures RunningAreIndexed(MarkStopped(s, id, reason, state).registry) <==> Careful(s, OpStop(id, reason, state))
  {
    var t := MarkStopped(s, id, reason, state).registry;
    if CarriesForeignPid(s, id) {
      UnindexedBreaks(t, s.pidIndex[s.sessions[id].pid]);
    } else if !Careful(s, OpStop(id, reason, state)) {
      UnindexedBreaks(t, id);
    }
  }

  lemma RemoveKeepsRunningIff(s: Registry, id: string)
    requires IndexIsRight(s) && RunningAreIndexed(s)
    ensures RunningAreIndexed(Remove(s, id).registry) <==> Careful(s, OpRemove(id))
  {
    if CarriesForeignPid(s, id) {
      UnindexedBreaks(Remove(s, id).registry, s.pidIndex[s.sessions[id].pid]);
    }
  }

  /** A call that succeeds keeps every running session reachable exactly when it is careful. */
  lemma StepKeepsRunningIff(s: Registry, op: Op)
    requires IndexIsRight(s) && RunningAreIndexed(s) && !Step(s, op).reply.Raised?
    ensures RunningAreIndexed(Step(s, op).registry) <==> Careful(s, op)
  {
    match op {
      case OpReserve(id, session) =>
      case OpRoute(pid, msg) =>
      case OpAttach(id, pid) => AttachKeepsRunningIff(s, id, pid);
      case OpStop(id, reason, state) => StopKeepsRunningIff(s, id, reason, state);
      case OpRemove(id) => RemoveKeepsRunningIff(s, id);
    }
  }

  predicate AllCareful(s: Registry, ops: seq<Op>)
    decreases |ops|
  {
    ops != [] ==> Careful(s, ops[0]) && AllCareful(Step(s, ops[0]).registry, ops[1..])
  }

  /** Over a run of careful calls the index is right in both directions. */
  lemma {:induction false} CarefulRunKeepsRunning(s: Registry, ops: seq<Op>)
    requires IndexIsRight(s) && RunningAreIndexed(s) && AllCareful(s, ops)
    ensures RunningAreIndexed(Run(s, ops))
    decreases |ops|
  {
    if ops != [] {
      StepKeepsIndex(s, ops[0]);
      if !Step(s, ops[0]).reply.Raised? {
        StepKeepsRunningIff(s, ops[0]);
      }
      CarefulRunKeepsRunning(Step(s, ops[0]).registry, ops[1..]);
    }
  }

  /** Without care the converse fails: stop a session, let another attach the pid it held, then remove the stopped one,
      and events of the second session's process are no longer routed. */
  lemma StalePidUnroutesAnother(msg: string)
    ensures var ops := [OpReserve("a", Session(0, "reserved", "", EmptyLog())), OpAttach("a", 7), OpStop("a", "", "stopped"),
                        OpReserve("b", Session(0, "reserved", "", EmptyLog())), OpAttach("b", 7), OpRemove("a")];
      var s := Run(Empty(), ops);
      && "b" in s.sessions && s.sessions["b"].state == RUNNING && s.sessions["b"].pid == 7
      && RouteEvent(s, 7, msg).reply == Found(false)
  {
    var blank := Session(0, "reserved", "", EmptyLog());
    var op1, op2, op3 := OpReserve("a", blank), OpAttach("a", 7), OpStop("a", "", "stopped");
    var op4, op5, op6 := OpReserve("b", blank), OpAttach("b", 7), OpRemove("a");
    var s := Empty();
    RunFirst(s, op1, [op2, op3, op4, op5, op6]);
    var s1 := Step(s, op1).registry;
    RunFirst(s1, op2, [op3, op4, op5, op6]);
    var s2 := Step(s1, op2).registry;
    RunFirst(s2, op3, [op4, op5, op6]);
    var s3 := Step(s2, op3).registry;
    RunFirst(s3, op4, [op5, op6]);
    var s4 := Step(s3, op4).registry;
    RunFirst(s4, op5, [op6]);
    var s5 := Step(s4, op5).registry;
    RunFirst(s5, op6, []);
  }

  lemma RunFirst(s: Registry, op: Op, rest: seq<Op>)
    ensures Run(s, [op] + rest) == Run(Step(s, op).registry, rest)
  {
    assert ([op] + rest)[1..] == rest;
  }
}
