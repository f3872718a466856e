/** The export as a whole: grouping events into chains, reconciling the recorder's counters with what was exported, and
    what a complete export establishes. */
module PaletteAccounting {
  import opened PaletteChain
  import opened PaletteEvent
  import opened Wrappers

  /** One chain is one object, one chain type, one window segment. */
  datatype GroupKey = GroupKey(key: Key, chainType: ChainType, segment: Option<nat>)

  datatype Counters = Counters(emitted: nat, terminalEmitted: nat, losses: seq<nat>, closedRecovered: nat,
                               closedWindowExpired: nat, closedObjectGone: nat, closedTableFull: nat,
                               closedEventLost: nat, closedUnclosed: nat, closedObservationClosed: nat,
                               firstSightInserted: nat, firstSightEmitted: nat)

  /** What the frame-evidence reader and the header said about the export. */
  datatype Header = Header(version: int, gate: bool, evicted: nat, frameGaps: bool, counters: Counters)

  datatype Report = Report(objectCount: nat, sizes: seq<nat>, chainComplete: bool)

  function KeyOf(e: Event): GroupKey {
    GroupKey(e.key, e.chainType, e.windowSegment)
  }

  // Grouping

  function Group(events: seq<Event>, k: GroupKey): (r: seq<Event>)
    ensures |r| <= |events|
  {
    if events == [] then []
    else
      var n := |events| - 1;
      Group(events[..n], k) + if KeyOf(events[n]) == k then [events[n]] else []
  }

  /** The keys in order of first appearance. */
  function KeysOf(events: seq<Event>): seq<GroupKey> {
    if events == [] then []
    else
      var n := |events| - 1;
      var earlier := KeysOf(events[..n]);
      if KeyOf(events[n]) in earlier then earlier else earlier + [KeyOf(events[n])]
  }

  ghost predicate Distinct(keys: seq<GroupKey>) {
    forall i, j | 0 <= i < j < |keys| :: keys[i] != keys[j]
  }

  lemma {:induction false} KeysDistinct(events: seq<Event>)
    ensures Distinct(KeysOf(events))
  {
    if events != [] {
      KeysDistinct(events[..|events| - 1]);
    }
  }

  lemma {:induction false} EveryKeyListed(events: seq<Event>)
    ensures forall i | 0 <= i < |events| :: KeyOf(events[i]) in KeysOf(events)
  {
    if events != [] {
      EveryKeyListed(events[..|events| - 1]);
    }
  }

  lemma {:induction false} ListedKeyHasEvents(events: seq<Event>, k: GroupKey)
    requires k in KeysOf(events)
    ensures Group(events, k) != []
  {
    var n := |events| - 1;
    if k in KeysOf(events[..n]) {
      ListedKeyHasEvents(events[..n], k);
    }
  }

  lemma {:induction false} GroupMembers(events: seq<Event>, k: GroupKey)
    ensures forall i | 0 <= i < |Group(events, k)| :: Group(events, k)[i] in events && KeyOf(Group(events, k)[i]) == k
  {
    if events != [] {
      var n := |events| - 1;
      GroupMembers(events[..n], k);
      assert events == events[..n] + [events[n]];
    }
  }

  /** The same object in the same session, maps and devices, the same kind of chain, the same window segment. */
  predicate SameObject(a: Event, b: Event) {
    && a.key.renderablePart == b.key.renderablePart && a.key.runtimeModelPtr == b.key.runtimeModelPtr
    && a.key.jHandle == b.key.jHandle && a.key.rawcode == b.key.rawcode
    && a.key.sessionGeneration == b.key.sessionGeneration && a.key.mapEpoch == b.key.mapEpoch
    && a.key.deviceEpoch == b.key.deviceEpoch && a.key.lifecycleIdentity == b.key.lifecycleIdentity
    && a.chainType == b.chainType && a.windowSegment == b.windowSegment
  }

  /** The events of an event's chain are exactly those of the same object, in the order of the export. */
  lemma {:induction false} ChainOfEvent(events: seq<Event>, n: nat, e: Event)
    requires n <= |events|
    ensures Group(events[..n], KeyOf(e)) <= Group(events, KeyOf(e))
    ensures n < |events| && SameObject(events[n], e) ==>
              var k := |Group(events[..n], KeyOf(e))|;
              k < |Group(events, KeyOf(e))| && Group(events, KeyOf(e))[k] == events[n]
    ensures forall x :: x in Group(events, KeyOf(e)) <==> x in events && SameObject(x, e)
  {
    if events != [] {
      var m := |events| - 1;
      assert events == events[..m] + [events[m]];
      if n <= m {
        assert events[..m][..n] == events[..n];
        ChainOfEvent(events[..m], n, e);
      } else {
        assert events[..n] == events;
        ChainOfEvent(events[..m], m, e);
      }
    }
  }

  ghost predicate GroupsAre(groups: map<GroupKey, seq<Event>>, keys: seq<GroupKey>, events: seq<Event>) {
    && keys == KeysOf(events)
    && (forall k :: k in groups <==> k in keys)
    && (forall k | k in groups :: groups[k] == Group(events, k))
  }

  lemma KeysNext(events: seq<Event>, e: Event)
    ensures KeysOf(events + [e]) == if KeyOf(e) in KeysOf(events) then KeysOf(events) else KeysOf(events) + [KeyOf(e)]
    ensures forall k :: Group(events + [e], k) == if KeyOf(e) == k then Group(events, k) + [e] else Group(events, k)
  {
    assert (events + [e])[..|events|] == events;
    forall k ensures Group(events + [e], k) == if KeyOf(e) == k then Group(events, k) + [e] else Group(events, k) {
      assert KeyOf(e) != k ==> Group(events, k) + [] == Group(events, k);
    }
  }

  /** One event joins its chain, or starts one. */
  method AddEvent(groups: map<GroupKey, seq<Event>>, keys: seq<GroupKey>, ghost seen: seq<Event>, e: Event)
    returns (groups': map<GroupKey, seq<Event>>, keys': seq<GroupKey>)
    requires GroupsAre(groups, keys, seen)
    ensures GroupsAre(groups', keys', seen + [e])
  {
    KeysNext(seen, e);
    var k := KeyOf(e);
    if k !in groups {
      NoGroup(seen, k);
      keys' := keys + [k];
      groups' := groups[k := [e]];
    } else {
      keys' := keys;
      groups' := groups[k := groups[k] + [e]];
    }
  }

  method GroupEvents(events: seq<Event>) returns (groups: map<GroupKey, seq<Event>>, keys: seq<GroupKey>)
    ensures GroupsAre(groups, keys, events)
  {
    groups, keys := map[], [];
    for i := 0 to |events|
      invariant GroupsAre(groups, keys, events[..i])
    {
      groups, keys := AddEvent(groups, keys, events[..i], events[i]);
      assert events[..i + 1] == events[..i] + [events[i]];
    }
    assert events[..|events|] == events;
  }

  lemma {:induction false} NoGroup(events: seq<Event>, k: GroupKey)
    requires k !in KeysOf(events)
    ensures Group(events, k) == []
  {
    if events != [] {
      NoGroup(events[..|events| - 1], k);
    }
  }

  // Counting events

  datatype Measure = Everything | Terminals | OfKind(kind: Terminal) | LiveSights | ClosingSights

  predicate Counts(m: Measure, e: Event) {
    match m
    case Everything => true
    case Terminals => e.terminal != NoTerminal
    case OfKind(kind) => e.terminal == kind
    case LiveSights => e.stage == FirstSight && e.terminal == NoTerminal
    case ClosingSights => e.stage == FirstSight && e.terminal != NoTerminal
  }

  function Tally(m: Measure, events: seq<Event>): nat {
    if events == [] then 0
    else Tally(m, events[..|events| - 1]) + if Counts(m, events[|events| - 1]) then 1 else 0
  }

  function SumOver(m: Measure, keys: seq<GroupKey>, events: seq<Event>): nat {
    if keys == [] then 0
    else SumOver(m, keys[..|keys| - 1], events) + Tally(m, Group(events, keys[|keys| - 1]))
  }

  lemma GroupNext(m: Measure, events: seq<Event>, k: GroupKey)
    requires events != []
    ensures var n := |events| - 1;
      Tally(m, Group(events, k)) == Tally(m, Group(events[..n], k))
                                  + if KeyOf(events[n]) == k && Counts(m, events[n]) then 1 else 0
  {
    var n := |events| - 1;
    var earlier := Group(events[..n], k);
    if KeyOf(events[n]) == k {
      assert (earlier + [events[n]])[..|earlier|] == earlier;
    } else {
      assert Group(events, k) == earlier;
    }
  }

  lemma {:induction false} SumOverNext(m: Measure, keys: seq<GroupKey>, events: seq<Event>)
    requires events != [] && Distinct(keys)
    ensures var n := |events| - 1;
      SumOver(m, keys, events) == SumOver(m, keys, events[..n])
                                + if KeyOf(events[n]) in keys && Counts(m, events[n]) then 1 else 0
  {
    if keys != [] {
      var n, l := |events| - 1, |keys| - 1;
      var earlier := keys[..l];
      SumOverNext(m, earlier, events);
      GroupNext(m, events, keys[l]);
      LastOrEarlier(keys, KeyOf(events[n]));
    }
  }

  lemma LastOrEarlier(keys: seq<GroupKey>, k: GroupKey)
    requires keys != [] && Distinct(keys)
    ensures k in keys <==> k in keys[..|keys| - 1] || k == keys[|keys| - 1]
    ensures keys[|keys| - 1] !in keys[..|keys| - 1]
  {
    assert keys == keys[..|keys| - 1] + [keys[|keys| - 1]];
  }

  lemma TallyOne(m: Measure, e: Event)
    ensures Tally(m, [e]) == if Counts(m, e) then 1 else 0
  {
    assert [e][..0] == [];
  }

  lemma SumOverLonger(m: Measure, keys: seq<GroupKey>, k: GroupKey, events: seq<Event>)
    ensures SumOver(m, keys + [k], events) == SumOver(m, keys, events) + Tally(m, Group(events, k))
  {
    assert (keys + [k])[..|keys|] == keys;
  }

  /** Every event is counted in exactly one chain. */
  lemma {:induction false} GroupsPartition(m: Measure, events: seq<Event>)
    ensures SumOver(m, KeysOf(events), events) == Tally(m, events)
  {
    if events != [] {
      var n := |events| - 1;
      GroupsPartition(m, events[..n]);
      var earlier, k := KeysOf(events[..n]), KeyOf(events[n]);
      KeysDistinct(events[..n]);
      SumOverNext(m, earlier, events);
      if k !in earlier {
        NoGroup(events[..n], k);
        SumOverLonger(m, earlier, k, events);
        TallyOne(m, events[n]);
      }
    }
  }

  lemma {:induction false} TallyEverything(events: seq<Event>)
    ensures Tally(Everything, events) == |events| && Tally(Terminals, events) == TerminalCount(events)
  {
    if events != [] {
      TallyEverything(events[..|events| - 1]);
    }
  }

  // Reconciling the counters

  const TERMINAL_KINDS: seq<Terminal> := [Recovered, WindowExpired, ObjectGone, TableFull, EventLost, Unclosed,
                                          ObservationClosed]

  /** The settled bucket of a terminal kind; the observation bucket exists from version 4. */
  function Closed(h: Header, kind: Terminal): nat {
    match kind
    case NoTerminal => 0
    case Recovered => h.counters.closedRecovered
    case WindowExpired => h.counters.closedWindowExpired
    case ObjectGone => h.counters.closedObjectGone
    case TableFull => h.counters.closedTableFull
    case EventLost => h.counters.closedEventLost
    case Unclosed => h.counters.closedUnclosed
    case ObservationClosed => if h.version >= 4 then h.counters.closedObservationClosed else 0
  }

  function ClosedSum(h: Header): nat {
    Closed(h, Recovered) + Closed(h, WindowExpired) + Closed(h, ObjectGone) + Closed(h, TableFull)
    + Closed(h, EventLost) + Closed(h, Unclosed) + Closed(h, ObservationClosed)
  }

  predicate KindMatches(h: Header, events: seq<Event>, kind: Terminal) {
    Tally(OfKind(kind), events) > 0 ==>
      (kind == ObservationClosed ==> h.version >= 4) && Closed(h, kind) == Tally(OfKind(kind), events)
  }

  predicate NothingLost(h: Header, events: seq<Event>) {
    && h.gate && events != [] && (forall i | 0 <= i < |h.counters.losses| :: h.counters.losses[i] == 0)
    && h.evicted == 0 && h.counters.emitted == |events| && !h.frameGaps
  }

  predicate TerminalsReconcile(h: Header, events: seq<Event>) {
    && h.counters.terminalEmitted == Tally(Terminals, events) && ClosedSum(h) == h.counters.terminalEmitted
    && (forall k | 0 <= k < |TERMINAL_KINDS| :: KindMatches(h, events, TERMINAL_KINDS[k]))
  }

  /** Nothing is known to be missing from the export. */
  predicate NothingMissing(h: Header, events: seq<Event>) {
    NothingLost(h, events) && TerminalsReconcile(h, events)
  }

  method Missing(h: Header, events: seq<Event>) returns (missing: seq<string>)
    ensures missing == [] <==> NothingMissing(h, events)
  {
    missing := [];
    if !h.gate {
      missing := missing + ["paletteObjectSubGateDisabled"];
    }
    if events == [] {
      missing := missing + ["noObjectEvidenceExported"];
    }
    if exists i | 0 <= i < |h.counters.losses| :: h.counters.losses[i] != 0 {
      missing := missing + ["objectLevelEvidenceDropped"];
    }
    if h.evicted != 0 {
      missing := missing + ["ringEvictionObserved"];
    }
    if h.counters.emitted != |events| {
      missing := missing + ["emittedCounterVersusExportedEvents"];
    }
    var unsettled := Unsettled(h, events);
    missing := missing + unsettled;
    if h.frameGaps {
      missing := missing + ["frameEvidenceGap"];
    }
  }

  method Unsettled(h: Header, events: seq<Event>) returns (missing: seq<string>)
    ensures missing == [] <==> TerminalsReconcile(h, events)
  {
    missing := [];
    if h.counters.terminalEmitted != Tally(Terminals, events) {
      missing := missing + ["terminalEmittedCounterVersusExportedTerminals"];
    }
    if ClosedSum(h) != h.counters.terminalEmitted {
      missing := missing + ["closedCountersVersusTerminalEmitted"];
    }
    if exists k | 0 <= k < |TERMINAL_KINDS| :: !KindMatches(h, events, TERMINAL_KINDS[k]) {
      missing := missing + ["terminalKindCountersVersusExportedTerminals"];
    }
  }

  // The export

  predicate SegmentsOrdered(events: seq<Event>) {
    forall i | 0 <= i < |events| - 1 ::
      events[i].windowSegment.Some? && events[i + 1].windowSegment.Some? ==>
        events[i].windowSegment.value <= events[i + 1].windowSegment.value
  }

  /** The checks on the export as a whole that raise. */
  predicate ExportOk(h: Header, events: seq<Event>) {
    && (h.version >= 2 ==> SegmentsOrdered(events))
    && (events == [] || h.gate)
    && (h.version >= 3 ==>
          && (h.counters.firstSightEmitted == 0 || h.counters.firstSightInserted >= 1)
          && Tally(LiveSights, events) <= h.counters.firstSightEmitted
          && Tally(ClosingSights, events) <= h.counters.firstSightEmitted)
  }

  ghost predicate Readings(h: Header, events: seq<Event>) {
    forall i | 0 <= i < |events| :: Readable(events[i]) && Shaped(h.version, events[i])
  }

  lemma GroupJudgeable(h: Header, events: seq<Event>, k: GroupKey)
    requires Readings(h, events) && k in KeysOf(events)
    ensures Judgeable(h.version, Group(events, k))
  {
    ListedKeyHasEvents(events, k);
    GroupMembers(events, k);
  }

  ghost predicate OneTerminalEach(events: seq<Event>) {
    forall k | k in KeysOf(events) :: TerminalCount(Group(events, k)) <= 1
  }

  ghost predicate ChainCertified(h: Header, events: seq<Event>, k: GroupKey) {
    Judgeable(h.version, Group(events, k)) && Certifiable(h.version, Group(events, k))
  }

  /** Every chain of the export is certified, and nothing is missing. */
  ghost predicate ExportComplete(h: Header, events: seq<Event>) {
    NothingMissing(h, events) && forall i | 0 <= i < |KeysOf(events)| :: ChainCertified(h, events, KeysOf(events)[i])
  }

  ghost predicate Judged(h: Header, events: seq<Event>, k: GroupKey, lossy: bool, chain: Chain) {
    && TerminalCount(Group(events, k)) <= 1 && chain.size == |Group(events, k)|
    && (chain.Complete() <==> !lossy && ChainCertified(h, events, k))
  }

  method JudgeGroup(h: Header, ghost events: seq<Event>, ghost k: GroupKey, group: seq<Event>, lossy: bool)
    returns (r: Option<Chain>)
    requires Readings(h, events) && k in KeysOf(events) && group == Group(events, k)
    ensures r.None? <==> TerminalCount(Group(events, k)) > 1
    ensures r.Some? ==> Judged(h, events, k, lossy, r.value)
  {
    GroupJudgeable(h, events, k);
    r := JudgeChain(h.version, group, lossy);
  }

  method JudgeAll(h: Header, ghost events: seq<Event>, groups: map<GroupKey, seq<Event>>, keys: seq<GroupKey>, lossy: bool)
    returns (r: Option<seq<Chain>>)
    requires Readings(h, events) && GroupsAre(groups, keys, events)
    ensures r.None? <==> exists i | 0 <= i < |keys| :: TerminalCount(Group(events, keys[i])) > 1
    ensures r.Some? ==> |r.value| == |keys| && forall i | 0 <= i < |keys| :: Judged(h, events, keys[i], lossy, r.value[i])
  {
    var chains: seq<Chain> := [];
    for i := 0 to |keys|
      invariant |chains| == i && forall j | 0 <= j < i :: Judged(h, events, keys[j], lossy, chains[j])
    {
      var chain := JudgeGroup(h, events, keys[i], groups[keys[i]], lossy);
      if chain.None? {
        return None;
      }
      chains := chains + [chain.value];
    }
    return Some(chains);
  }

  method Sizes(chains: seq<Chain>) returns (sizes: seq<nat>)
    ensures |sizes| == |chains| && forall i | 0 <= i < |chains| :: sizes[i] == chains[i].size
  {
    sizes := [];
    for i := 0 to |chains|
      invariant |sizes| == i && forall j | 0 <= j < i :: sizes[j] == chains[j].size
    {
      sizes := sizes + [chains[i].size];
    }
  }

  lemma ChainsDecide(h: Header, events: seq<Event>, chains: seq<Chain>, lossy: bool)
    requires |chains| == |KeysOf(events)| && (lossy <==> !NothingMissing(h, events) && h.gate)
    requires forall i | 0 <= i < |chains| :: Judged(h, events, KeysOf(events)[i], lossy, chains[i])
    ensures ExportComplete(h, events) <==>
              && KeysOf(events) != [] && NothingMissing(h, events) && (forall i | 0 <= i < |chains| :: chains[i].covered)
              && forall i | 0 <= i < |chains| :: chains[i].Complete()
    ensures OneTerminalEach(events)
  {
    NonEmptyHasKey(events);
    forall k | k in KeysOf(events) ensures TerminalCount(Group(events, k)) <= 1 {
      var i :| 0 <= i < |KeysOf(events)| && KeysOf(events)[i] == k;
      assert Judged(h, events, KeysOf(events)[i], lossy, chains[i]);
    }
    if NothingMissing(h, events) {
      forall i | 0 <= i < |chains| ensures chains[i].Complete() <==> ChainCertified(h, events, KeysOf(events)[i]) {
        assert Judged(h, events, KeysOf(events)[i], lossy, chains[i]);
      }
    }
  }

  method Analyze(h: Header, events: seq<Event>) returns (r: Option<Report>)
    requires Readings(h, events)
    ensures r.Some? <==> ExportOk(h, events) && OneTerminalEach(events)
    ensures r.Some? ==> r.value.objectCount == |KeysOf(events)| && |r.value.sizes| == |KeysOf(events)|
    ensures r.Some? ==> forall i | 0 <= i < |r.value.sizes| :: r.value.sizes[i] == |Group(events, KeysOf(events)[i])|
    ensures r.Some? ==> (r.value.chainComplete <==> ExportComplete(h, events))
  {
    if !ExportOk(h, events) {
      return None;
    }
    var missing := Missing(h, events);
    var lossy := missing != [] && h.gate;
    var groups, keys := GroupEvents(events);
    var chains := JudgeAll(h, events, groups, keys, lossy);
    if chains.None? {
      return None;
    }
    var sizes := Sizes(chains.value);
    var complete := keys != [] && missing == [] && (forall i | 0 <= i < |chains.value| :: chains.value[i].covered)
                    && forall i | 0 <= i < |chains.value| :: chains.value[i].Complete();
    ChainsDecide(h, events, chains.value, lossy);
    return Some(Report(|keys|, sizes, complete));
  }

  lemma NonEmptyHasKey(events: seq<Event>)
    ensures events != [] <==> KeysOf(events) != []
  {
    EveryKeyListed(events);
    if events != [] {
      assert KeyOf(events[0]) in KeysOf(events);
    }
  }

  // What a complete export establishes

  lemma {:induction false} OneKindOnly(events: seq<Event>, t: nat)
    requires t < |events| && events[t].terminal == Recovered
    requires forall i | 0 <= i < |events| && i != t :: events[i].terminal == NoTerminal
    ensures Tally(Terminals, events) == 1 && Tally(OfKind(Recovered), events) == 1
  {
    var n := |events| - 1;
    if t < n {
      OneKindOnly(events[..n], t);
    } else {
      NoTerminals(events[..n]);
    }
  }

  lemma {:induction false} NoTerminals(events: seq<Event>)
    requires forall i | 0 <= i < |events| :: events[i].terminal == NoTerminal
    ensures Tally(Terminals, events) == 0 && Tally(OfKind(Recovered), events) == 0
  {
    if events != [] {
      NoTerminals(events[..|events| - 1]);
    }
  }

  lemma CertifiedHasOneRecovery(version: int, events: seq<Event>)
    requires Judgeable(version, events) && TerminalCount(events) <= 1 && Certifiable(version, events)
    ensures Tally(Terminals, events) == 1 && Tally(OfKind(Recovered), events) == 1
    ensures forall i | 0 <= i < |events| :: events[i].chainSequence == i + 1
  {
    NumberedWhenWhole(events, |events|);
    var t := TerminalAt(events).value;
    forall i | 0 <= i < |events| && events[i].terminal != NoTerminal ensures i == t {
      OneTerminal(events, i, t);
    }
    OneKindOnly(events, t);
  }

  ghost predicate OneEach(m: Measure, keys: seq<GroupKey>, events: seq<Event>) {
    forall i | 0 <= i < |keys| :: Tally(m, Group(events, keys[i])) == 1
  }

  lemma {:induction false} OnePerChain(m: Measure, keys: seq<GroupKey>, events: seq<Event>)
    requires OneEach(m, keys, events)
    ensures SumOver(m, keys, events) == |keys|
  {
    if keys != [] {
      OnePerChain(m, keys[..|keys| - 1], events);
    }
  }

  lemma EachChainRecovered(h: Header, events: seq<Event>)
    requires Readings(h, events) && OneTerminalEach(events) && ExportComplete(h, events)
    ensures OneEach(Terminals, KeysOf(events), events) && OneEach(OfKind(Recovered), KeysOf(events), events)
  {
    var keys := KeysOf(events);
    forall j | 0 <= j < |keys|
      ensures Tally(Terminals, Group(events, keys[j])) == 1 && Tally(OfKind(Recovered), Group(events, keys[j])) == 1
    {
      assert ChainCertified(h, events, keys[j]) && keys[j] in keys;
      CertifiedHasOneRecovery(h.version, Group(events, keys[j]));
    }
  }

  /** In a complete export each chain is numbered exactly 1 .. n. */
  lemma CompleteChainsAreNumbered(h: Header, events: seq<Event>, k: GroupKey, i: nat)
    requires Readings(h, events) && OneTerminalEach(events) && ExportComplete(h, events)
    requires k in KeysOf(events) && i < |Group(events, k)|
    ensures Group(events, k)[i].chainSequence == i + 1
  {
    hide NothingMissing, Certifiable;
    var j :| 0 <= j < |KeysOf(events)| && KeysOf(events)[j] == k;
    assert ChainCertified(h, events, KeysOf(events)[j]);
    CertifiedHasOneRecovery(h.version, Group(events, k));
  }

  lemma OneRecoveryPerChain(events: seq<Event>)
    requires OneEach(Terminals, KeysOf(events), events) && OneEach(OfKind(Recovered), KeysOf(events), events)
    ensures Tally(Terminals, events) == |KeysOf(events)| == Tally(OfKind(Recovered), events)
  {
    var keys := KeysOf(events);
    OnePerChain(Terminals, keys, events);
    OnePerChain(OfKind(Recovered), keys, events);
    GroupsPartition(Terminals, events);
    GroupsPartition(OfKind(Recovered), events);
  }

  lemma OnlyRecoveriesClosed(h: Header, events: seq<Event>)
    requires NothingMissing(h, events)
    requires Tally(OfKind(Recovered), events) == Tally(Terminals, events) > 0
    ensures h.counters.closedRecovered == h.counters.terminalEmitted
    ensures Closed(h, WindowExpired) == Closed(h, ObjectGone) == Closed(h, TableFull) == 0
    ensures Closed(h, EventLost) == Closed(h, Unclosed) == Closed(h, ObservationClosed) == 0
  {
    assert KindMatches(h, events, TERMINAL_KINDS[0]);
  }

  /** A complete export accounts for everything: as many events were emitted as were exported, and they add up over the
      chains; every object has one terminal, all of them recoveries, so the recovery bucket holds them all and every other
      settled bucket is empty; and no counter reports a loss. */
  lemma CompleteExportAccounts(h: Header, events: seq<Event>)
    requires Readings(h, events) && OneTerminalEach(events) && ExportComplete(h, events)
    ensures h.counters.emitted == |events| == SumOver(Everything, KeysOf(events), events)
    ensures |KeysOf(events)| > 0
    ensures |KeysOf(events)| == h.counters.terminalEmitted == h.counters.closedRecovered
    ensures Closed(h, WindowExpired) == Closed(h, ObjectGone) == Closed(h, TableFull) == 0
    ensures Closed(h, EventLost) == Closed(h, Unclosed) == Closed(h, ObservationClosed) == 0
    ensures forall i | 0 <= i < |h.counters.losses| :: h.counters.losses[i] == 0
  {
    EachChainRecovered(h, events);
    OneRecoveryPerChain(events);
    NonEmptyHasKey(events);
    OnlyRecoveriesClosed(h, events);
    GroupsPartition(Everything, events);
    TallyEverything(events);
  }
}
