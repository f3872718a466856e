/** The bounded event buffer of one AutoTest session, and what a polling client can rely on. */
module SessionEvents {
  import opened Arithmetic

  const MAX_SESSION_EVENTS := 4000
  const MAX_POLL_ROWS := 1000

  datatype DebugEvent = DebugEvent(id: nat, pid: int, sessionId: string, msg: string)

  datatype Log = Log(debugSeq: nat, events: seq<DebugEvent>)

  function EmptyLog(): Log {
    Log(0, [])
  }

  /** The last `most` elements. */
  function LastOf<T>(s: seq<T>, most: nat): (r: seq<T>)
    ensures |r| == if |s| <= most then |s| else most
  {
    if |s| <= most then s else s[|s| - most..]
  }

  function Push(log: Log, pid: int, sessionId: string, msg: string): Log {
    Log(log.debugSeq + 1, LastOf(log.events + [DebugEvent(log.debugSeq + 1, pid, sessionId, msg)], MAX_SESSION_EVENTS))
  }

  function Clamp(limit: int): nat {
    var capped := if limit < MAX_POLL_ROWS then limit else MAX_POLL_ROWS;
    if capped < 1 then 1 else capped
  }

  function Filter(rows: seq<DebugEvent>, keep: DebugEvent -> bool): seq<DebugEvent> {
    if rows == [] then []
    else Filter(rows[..|rows| - 1], keep) + if keep(rows[|rows| - 1]) then [rows[|rows| - 1]] else []
  }

  function Take<T>(s: seq<T>, n: nat): seq<T> {
    if |s| <= n then s else s[..n]
  }

  function After(since: int): DebugEvent -> bool {
    (e: DebugEvent) => e.id > since
  }

  /** Rows after `since` that pass the contains filter, up to the clamped limit. */
  function GetEvents(log: Log, since: int, limit: int, contains: DebugEvent -> bool): (rows: seq<DebugEvent>)
    ensures |rows| <= Clamp(limit) <= MAX_POLL_ROWS
  {
    Take(Filter(Filter(log.events, After(since)), contains), Clamp(limit))
  }

  // The buffer against everything ever pushed

  /** The log holds the last 4000 events pushed, numbered from 1. */
  ghost predicate Logs(log: Log, pushed: seq<DebugEvent>) {
    && log.debugSeq == |pushed| && log.events == LastOf(pushed, MAX_SESSION_EVENTS)
    && forall i | 0 <= i < |pushed| :: pushed[i].id == i + 1
  }

  lemma PushKeepsLog(log: Log, pushed: seq<DebugEvent>, pid: int, sessionId: string, msg: string)
    requires Logs(log, pushed)
    ensures Logs(Push(log, pid, sessionId, msg), pushed + [DebugEvent(|pushed| + 1, pid, sessionId, msg)])
  {
  }

  lemma {:induction false} FilterSplits(a: seq<DebugEvent>, b: seq<DebugEvent>, keep: DebugEvent -> bool)
    ensures Filter(a + b, keep) == Filter(a, keep) + Filter(b, keep)
  {
    if b == [] {
      assert a + b == a;
    } else {
      assert (a + b)[..|a + b| - 1] == a + b[..|b| - 1];
      FilterSplits(a, b[..|b| - 1], keep);
    }
  }

  lemma {:induction false} FilterAll(rows: seq<DebugEvent>, keep: DebugEvent -> bool)
    requires forall i | 0 <= i < |rows| :: keep(rows[i])
    ensures Filter(rows, keep) == rows
  {
    if rows != [] {
      FilterAll(rows[..|rows| - 1], keep);
    }
  }

  lemma {:induction false} FilterNone(rows: seq<DebugEvent>, keep: DebugEvent -> bool)
    requires forall i | 0 <= i < |rows| :: !keep(rows[i])
    ensures Filter(rows, keep) == []
  {
    if rows != [] {
      FilterNone(rows[..|rows| - 1], keep);
    }
  }

  /** How many events a poll cannot see, because they are not after `since` or because the buffer has dropped them. */
  function FirstVisible(pushed: nat, since: int): (n: nat)
    ensures n <= pushed
  {
    Smaller(pushed, Larger(since, Larger(0, pushed - MAX_SESSION_EVENTS)))
  }

  lemma OnlyUnseen(seen: seq<DebugEvent>, unseen: seq<DebugEvent>, since: int)
    requires forall i | 0 <= i < |seen| :: seen[i].id <= since
    requires forall i | 0 <= i < |unseen| :: unseen[i].id > since
    ensures Filter(seen + unseen, After(since)) == unseen
  {
    FilterNone(seen, After(since));
    FilterAll(unseen, After(since));
    FilterSplits(seen, unseen, After(since));
  }

  lemma BufferSplits(log: Log, pushed: seq<DebugEvent>, since: int) returns (seen: seq<DebugEvent>)
    requires Logs(log, pushed)
    ensures log.events == seen + pushed[FirstVisible(|pushed|, since)..]
    ensures forall i | 0 <= i < |seen| :: seen[i].id <= since
  {
    var kept, first := |pushed| - |log.events|, FirstVisible(|pushed|, since);
    assert log.events == pushed[kept..];
    hide LastOf, FirstVisible;
    seen := pushed[kept..first];
    SlicesJoin(pushed, kept, first);
    forall i | 0 <= i < |seen| ensures seen[i].id <= since {
      assert seen[i] == pushed[kept + i];
    }
  }

  lemma SlicesJoin<T>(s: seq<T>, from: nat, middle: nat)
    requires from <= middle <= |s|
    ensures s[from..] == s[from..middle] + s[middle..]
  {
  }

  lemma RowsAfter(log: Log, pushed: seq<DebugEvent>, since: int)
    requires Logs(log, pushed)
    ensures Filter(log.events, After(since)) == pushed[FirstVisible(|pushed|, since)..]
  {
    var seen := BufferSplits(log, pushed, since);
    OnlyUnseen(seen, pushed[FirstVisible(|pushed|, since)..], since);
  }

  /** A poll returns, in order, the first matching events among those still visible. */
  lemma PollIsExact(log: Log, pushed: seq<DebugEvent>, since: int, limit: int, contains: DebugEvent -> bool)
    requires Logs(log, pushed)
    ensures GetEvents(log, since, limit, contains)
         == Take(Filter(pushed[FirstVisible(|pushed|, since)..], contains), Clamp(limit))
  {
    RowsAfter(log, pushed, since);
  }

  /** A poll sees the events after `since` that are among the last 4000. A limit below 1 reads as 1 and one above 1000 as
      1000: the rows are a prefix of the matching ones, of that length if there are as many. */
  lemma PollInNumbers(log: Log, pushed: seq<DebugEvent>, since: int, limit: int, contains: DebugEvent -> bool)
    returns (first: nat)
    requires Logs(log, pushed)
    ensures first <= |pushed| && forall i | 0 <= i < |pushed| :: first <= i <==> pushed[i].id > since && |pushed| - i <= 4000
    ensures var rows, matching := GetEvents(log, since, limit, contains), Filter(pushed[first..], contains);
      rows <= matching && |rows| == Smaller(|matching|, if limit < 1 then 1 else if limit > 1000 then 1000 else limit)
  {
    hide GetEvents, Filter, LastOf;
    PollIsExact(log, pushed, since, limit, contains);
    first := FirstVisible(|pushed|, since);
  }

  /** An unfiltered poll returns nothing when there is nothing after `since`, and otherwise continues with the very next
      event exactly when at most 4000 events are outstanding. */
  lemma NothingSkippedIff(log: Log, pushed: seq<DebugEvent>, since: int, limit: int)
    requires Logs(log, pushed)
    ensures var rows, seen := GetEvents(log, since, limit, (e: DebugEvent) => true), Larger(since, 0);
      if seen >= |pushed| then rows == []
      else rows != [] && (rows[0].id == seen + 1 <==> |pushed| - seen <= MAX_SESSION_EVENTS)
  {
    hide GetEvents, Filter, Logs;
    var all := (e: DebugEvent) => true;
    PollIsExact(log, pushed, since, limit, all);
    FilterAll(pushed[FirstVisible(|pushed|, since)..], all);
    FirstVisibleId(log, pushed, since);
  }

  lemma FirstVisibleId(log: Log, pushed: seq<DebugEvent>, since: int)
    requires Logs(log, pushed)
    ensures var first := FirstVisible(|pushed|, since);
      first < |pushed| ==> pushed[first..][0].id == first + 1
  {
  }

  // A client that keeps the id of the last row it saw

  datatype Client = Client(since: nat, received: seq<DebugEvent>)

  function LastId(rows: seq<DebugEvent>, since: nat): nat {
    if rows == [] then since else rows[|rows| - 1].id
  }

  function Poll(c: Client, log: Log, limit: int, contains: DebugEvent -> bool): Client {
    var rows := GetEvents(log, c.since, limit, contains);
    Client(LastId(rows, c.since), c.received + rows)
  }

  datatype Act = Pushes(pid: int, sessionId: string, msg: string) | Polls(limit: int)

  datatype World = World(log: Log, pushed: seq<DebugEvent>, client: Client)

  function Next(w: World, act: Act, contains: DebugEvent -> bool): World {
    match act
    case Pushes(pid, id, msg) =>
      World(Push(w.log, pid, id, msg), w.pushed + [DebugEvent(|w.pushed| + 1, pid, id, msg)], w.client)
    case Polls(limit) => w.(client := Poll(w.client, w.log, limit, contains))
  }

  /** At every poll of the run at most 4000 events are outstanding. */
  predicate KeepsUp(w: World, acts: seq<Act>, contains: DebugEvent -> bool)
    decreases |acts|
  {
    acts != [] ==>
      && (acts[0].Polls? ==> |w.pushed| - w.client.since <= MAX_SESSION_EVENTS)
      && KeepsUp(Next(w, acts[0], contains), acts[1..], contains)
  }

  function Run(w: World, acts: seq<Act>, contains: DebugEvent -> bool): World
    decreases |acts|
  {
    if acts == [] then w else Run(Next(w, acts[0], contains), acts[1..], contains)
  }

  /** The client has received exactly the matching events up to its last seen id, each once, in order. */
  ghost predicate InStep(w: World, contains: DebugEvent -> bool) {
    Logs(w.log, w.pushed) && w.client.since <= |w.pushed| && w.client.received == Filter(w.pushed[..w.client.since], contains)
  }

  function Start(): World {
    World(EmptyLog(), [], Client(0, []))
  }

  /** Taking the first n matches stops at some event, and takes everything matching up to it. */
  lemma {:induction false} TakeOfFilter(rows: seq<DebugEvent>, contains: DebugEvent -> bool, n: nat) returns (k: nat)
    requires n > 0
    ensures k <= |rows| && Take(Filter(rows, contains), n) == Filter(rows[..k], contains)
    ensures if Filter(rows[..k], contains) == [] then k == 0
            else k > 0 && Filter(rows[..k], contains)[|Filter(rows[..k], contains)| - 1] == rows[k - 1]
  {
    if rows == [] {
      k := 0;
    } else {
      var m := |rows| - 1;
      k := TakeOfFilter(rows[..m], contains, n);
      assert rows[..m][..k] == rows[..k];
      if contains(rows[m]) && |Filter(rows[..m], contains)| < n {
        k := |rows|;
        assert rows[..k] == rows;
      }
    }
  }

  lemma RowsOfPoll(log: Log, pushed: seq<DebugEvent>, since: nat, limit: int, contains: DebugEvent -> bool) returns (k: nat)
    requires Logs(log, pushed) && since <= |pushed| && |pushed| - since <= MAX_SESSION_EVENTS
    ensures since + k <= |pushed|
    ensures var rows := GetEvents(log, since, limit, contains);
      rows == Filter(pushed[since..since + k], contains) && LastId(rows, since) == since + k
  {
    hide GetEvents, Filter, Take;
    PollIsExact(log, pushed, since, limit, contains);
    var outstanding := pushed[since..];
    k := TakeOfFilter(outstanding, contains, Clamp(limit));
    assert outstanding[..k] == pushed[since..since + k];
    assert k > 0 ==> outstanding[k - 1] == pushed[since + k - 1];
  }

  lemma FilterFurther(pushed: seq<DebugEvent>, since: nat, k: nat, contains: DebugEvent -> bool)
    requires since + k <= |pushed|
    ensures Filter(pushed[..since], contains) + Filter(pushed[since..since + k], contains)
         == Filter(pushed[..since + k], contains)
  {
    FilterSplits(pushed[..since], pushed[since..since + k], contains);
    assert pushed[..since] + pushed[since..since + k] == pushed[..since + k];
  }

  lemma PollKeepsStep(w: World, limit: int, contains: DebugEvent -> bool)
    requires InStep(w, contains) && |w.pushed| - w.client.since <= MAX_SESSION_EVENTS
    ensures InStep(Next(w, Polls(limit), contains), contains)
  {
    hide Filter, GetEvents, Logs, LastId;
    var k := RowsOfPoll(w.log, w.pushed, w.client.since, limit, contains);
    FilterFurther(w.pushed, w.client.since, k, contains);
  }

  /** A poll that fills less than its limit has drained the buffer: every matching event so far has been received. */
  lemma ShortPollDrains(w: World, limit: int, contains: DebugEvent -> bool)
    requires InStep(w, contains) && |w.pushed| - w.client.since <= MAX_SESSION_EVENTS
    requires |GetEvents(w.log, w.client.since, limit, contains)| < Clamp(limit)
    ensures Next(w, Polls(limit), contains).client.received == Filter(w.pushed, contains)
  {
    hide Filter, GetEvents, Clamp, Logs;
    var since := w.client.since;
    PollIsExact(w.log, w.pushed, since, limit, contains);
    FilterSplits(w.pushed[..since], w.pushed[since..], contains);
    assert w.pushed[..since] + w.pushed[since..] == w.pushed;
  }

  lemma {:induction false} RunKeepsStep(w: World, acts: seq<Act>, contains: DebugEvent -> bool)
    requires InStep(w, contains) && KeepsUp(w, acts, contains)
    ensures InStep(Run(w, acts, contains), contains)
    decreases |acts|
  {
    if acts != [] {
      match acts[0] {
        case Pushes(pid, id, msg) =>
          PushKeepsLog(w.log, w.pushed, pid, id, msg);
          var next := Next(w, acts[0], contains);
          assert next.pushed[..w.client.since] == w.pushed[..w.client.since];
        case Polls(limit) =>
          PollKeepsStep(w, limit, contains);
      }
      RunKeepsStep(Next(w, acts[0], contains), acts[1..], contains);
    }
  }

  /** Over any interleaving of pushes and polls, with any limits and any filter: as long as at most 4000 events are
      outstanding at each poll, the client receives every matching event up to its last seen id exactly once, in order. */
  lemma PollingLosesNothing(acts: seq<Act>, contains: DebugEvent -> bool)
    requires KeepsUp(Start(), acts, contains)
    ensures var w := Run(Start(), acts, contains);
      w.client.since <= |w.pushed| && w.client.received == Filter(w.pushed[..w.client.since], contains)
  {
    RunKeepsStep(Start(), acts, contains);
  }
}
