/** The judgement on one palette chain: the events of one object, one chain type and one window segment, in sequence
    order. Lists of named problems are built as the reader builds them; what counts is when each list is empty. */
module PaletteChain {
  import opened CanonicalDecimal
  import opened PaletteEvent
  import opened Wrappers

  datatype Chain = Chain(size: nat, terminal: Terminal, covered: bool, stagesObserved: bool, certified: bool)
  {
    predicate Complete() { covered && certified }
  }

  // Reading a chain

  predicate HasStage(events: seq<Event>, stage: Stage) {
    exists i | 0 <= i < |events| :: events[i].stage == stage
  }

  predicate HasType(events: seq<Event>, chainType: ChainType) {
    exists i | 0 <= i < |events| :: events[i].chainType == chainType
  }

  predicate LiveDraw(e: Event) {
    e.stage == Drawn && e.terminal == NoTerminal
  }

  /** The first event of the stage; for draws the live ones are looked at separately. */
  function FirstOf(events: seq<Event>, stage: Stage): (r: Option<nat>)
    ensures r.Some? ==> r.value < |events| && events[r.value].stage == stage
    ensures forall j | 0 <= j < |events| && (r.Some? ==> j < r.value) :: events[j].stage != stage
  {
    if events == [] then None
    else
      var n := |events| - 1;
      var earlier := FirstOf(events[..n], stage);
      if earlier.Some? then earlier else if events[n].stage == stage then Some(n) else None
  }

  function FirstLiveDraw(events: seq<Event>): (r: Option<nat>)
    ensures r.Some? ==> r.value < |events| && LiveDraw(events[r.value])
    ensures forall j | 0 <= j < |events| && (r.Some? ==> j < r.value) :: !LiveDraw(events[j])
  {
    if events == [] then None
    else
      var n := |events| - 1;
      var earlier := FirstLiveDraw(events[..n]);
      if earlier.Some? then earlier else if LiveDraw(events[n]) then Some(n) else None
  }

  predicate Before(a: Option<nat>, b: Option<nat>) {
    a.Some? && b.Some? ==> a.value < b.value
  }

  function TerminalCount(events: seq<Event>): nat {
    if events == [] then 0
    else TerminalCount(events[..|events| - 1]) + if events[|events| - 1].terminal != NoTerminal then 1 else 0
  }

  function ServedCount(events: seq<Event>): nat {
    if events == [] then 0
    else ServedCount(events[..|events| - 1]) + if events[|events| - 1].stage == ServedCandidate then 1 else 0
  }

  function MostHits(events: seq<Event>): nat {
    if events == [] then 0
    else
      var earlier, last := MostHits(events[..|events| - 1]), events[|events| - 1].hitCount;
      if last > earlier then last else earlier
  }

  /** The terminal event, when the chain has one. */
  function TerminalAt(events: seq<Event>): (r: Option<nat>)
    ensures r.Some? ==> r.value < |events| && events[r.value].terminal != NoTerminal
    ensures r.None? <==> forall i | 0 <= i < |events| :: events[i].terminal == NoTerminal
  {
    if events == [] then None
    else
      var n := |events| - 1;
      var earlier := TerminalAt(events[..n]);
      if earlier.Some? then earlier else if events[n].terminal != NoTerminal then Some(n) else None
  }

  function TerminalOfChain(events: seq<Event>): Terminal {
    if TerminalAt(events).None? then NoTerminal else events[TerminalAt(events).value].terminal
  }

  predicate SawSubmit(events: seq<Event>) {
    exists i | 0 <= i < |events| :: events[i].sawSubmit
  }

  predicate SawDraw(events: seq<Event>) {
    exists i | 0 <= i < |events| :: events[i].sawDraw
  }

  /** Already read as 64-bit decimals by the frame-evidence reader. */
  predicate Readable(e: Event) {
    U64(e.frames.renderFrame).Some?
  }

  ghost predicate Judgeable(version: int, events: seq<Event>) {
    events != [] && forall i | 0 <= i < |events| :: Readable(events[i]) && Shaped(version, events[i])
  }

  // Problems of the chain type

  predicate TypesOk(version: int, events: seq<Event>) {
    var terminal := TerminalOfChain(events);
    && !(terminal == Recovered && HasType(events, Observation))
    && !(version >= 4 && terminal == ObservationClosed && HasType(events, RejectionRecovery))
    && !(HasType(events, Observation) && HasStage(events, Rejected))
    && !(version >= 4 && terminal == WindowExpired && HasType(events, Observation))
    && !(version >= 4 && HasType(events, RejectionRecovery) && HasStage(events, FirstSight))
  }

  method TypeIssues(version: int, events: seq<Event>) returns (issues: seq<string>)
    ensures issues == [] <==> TypesOk(version, events)
  {
    issues := [];
    var terminal := TerminalOfChain(events);
    if terminal == Recovered && HasType(events, Observation) {
      issues := issues + ["observationChainMustNotUseRecovered"];
    }
    if version >= 4 && terminal == ObservationClosed && HasType(events, RejectionRecovery) {
      issues := issues + ["rejectionRecoveryChainMustNotUseObservationClosed"];
    }
    if HasType(events, Observation) && HasStage(events, Rejected) {
      issues := issues + ["observationChainMustNotCarryRejectedStage"];
    }
    if version >= 4 && terminal == WindowExpired && HasType(events, Observation) {
      issues := issues + ["observationChainMustNotUseWindowExpired"];
    }
    if version >= 4 && HasType(events, RejectionRecovery) && HasStage(events, FirstSight) {
      issues := issues + ["rejectionRecoveryChainMustNotCarryFirstSightStage"];
    }
  }

  // Problems of stage order

  predicate OrderOk(events: seq<Event>) {
    var sight, reject := FirstOf(events, FirstSight), FirstOf(events, Rejected);
    var served, enqueued, drawn := FirstOf(events, ServedCandidate), FirstOf(events, Enqueued), FirstLiveDraw(events);
    && (sight.None? || reject.None?) && Before(sight, served) && Before(reject, served) && Before(served, enqueued)
    && Before(enqueued, drawn)
  }

  method OrderIssues(events: seq<Event>) returns (issues: seq<string>)
    ensures issues == [] <==> OrderOk(events)
  {
    issues := [];
    var sight, reject := FirstOf(events, FirstSight), FirstOf(events, Rejected);
    var served, enqueued, drawn := FirstOf(events, ServedCandidate), FirstOf(events, Enqueued), FirstLiveDraw(events);
    if reject.Some? && sight.Some? {
      issues := issues + ["bothRejectedAndFirstSightHead"];
    }
    if sight.Some? && served.Some? && !(sight.value < served.value) {
      issues := issues + ["servedCandidateBeforeFirstSight"];
    }
    if reject.Some? && served.Some? && !(reject.value < served.value) {
      issues := issues + ["servedCandidateBeforeRejected"];
    }
    if served.Some? && enqueued.Some? && !(served.value < enqueued.value) {
      issues := issues + ["enqueuedBeforeServedCandidate"];
    }
    if enqueued.Some? && drawn.Some? && !(enqueued.value < drawn.value) {
      issues := issues + ["drawnBeforeEnqueued"];
    }
  }

  // The chain's own numbering

  /** The first n events are numbered 1 .. n. */
  predicate NumberedUpTo(events: seq<Event>, n: nat)
    requires n <= |events|
  {
    forall i | 0 <= i < n :: events[i].chainSequence == i + 1
  }

  predicate Numbered(events: seq<Event>) {
    NumberedUpTo(events, |events|)
  }

  /** The first event out of number is below the expected one (a repeat or a step back), or above it (a gap). */
  predicate StepsBack(events: seq<Event>) {
    exists i: nat | i < |events| :: NumberedUpTo(events, i) && events[i].chainSequence < i + 1
  }

  predicate HasGap(events: seq<Event>) {
    exists i: nat | i < |events| :: NumberedUpTo(events, i) && events[i].chainSequence > i + 1
  }

  method CheckNumbering(events: seq<Event>) returns (back: bool, gap: bool)
    ensures (back <==> StepsBack(events)) && (gap <==> HasGap(events))
    ensures !back && !gap <==> Numbered(events)
  {
    back, gap := false, false;
    var expected := 1;
    for i := 0 to |events|
      invariant expected == i + 1 && !back && !gap && NumberedUpTo(events, i)
    {
      var current := events[i].chainSequence;
      if current < expected {
        back := true;
        return;
      }
      if current != expected {
        gap := true;
        return;
      }
      expected := expected + 1;
    }
  }

  // Frame numbers

  function FrameOf(e: Event): nat
    requires Readable(e)
  {
    U64(e.frames.renderFrame).value
  }

  predicate Anchored(e: Event) {
    e.stage == Rejected || e.stage == ServedCandidate || e.stage == FirstSight || e.terminal != NoTerminal
  }

  /** Anchored events count their delta from the chain's first frame, all others carry zero. */
  predicate DeltaOk(e: Event, first: nat)
    requires Readable(e)
  {
    if Anchored(e) then FrameOf(e) >= first ==> e.deltaFrames == FrameOf(e) - first else e.deltaFrames == 0
  }

  ghost predicate FramesOk(events: seq<Event>)
    requires events != [] && forall i | 0 <= i < |events| :: Readable(events[i])
  {
    forall i | 0 <= i < |events| ::
      events[i].firstRejectFrame == events[0].firstRejectFrame && DeltaOk(events[i], events[0].firstRejectFrame)
  }

  method FrameIssues(events: seq<Event>) returns (issues: seq<string>)
    requires events != [] && forall i | 0 <= i < |events| :: Readable(events[i])
    ensures issues == [] <==> FramesOk(events)
  {
    hide FrameOf;
    issues := [];
    var first := events[0].firstRejectFrame;
    if exists i | 0 <= i < |events| :: events[i].firstRejectFrame != first {
      issues := issues + ["firstRejectFrameChangedInsideChain"];
    }
    ghost var changed := issues;
    for i := 0 to |events|
      invariant issues == [] <==> changed == [] && forall j | 0 <= j < i :: DeltaOk(events[j], first)
    {
      var frame, delta := FrameOf(events[i]), events[i].deltaFrames;
      if Anchored(events[i]) {
        if frame >= first && delta != frame - first {
          issues := issues + ["deltaFramesMismatch"];
        }
      } else if delta != 0 {
        issues := issues + ["frozenZeroDeltaViolated"];
      }
    }
  }

  // Events the stream must have had

  predicate StreamWhole(events: seq<Event>) {
    && (HasStage(events, Rejected) || HasStage(events, FirstSight))
    && (MostHits(events) > 0 ==> HasStage(events, ServedCandidate))
    && (SawDraw(events) ==> FirstLiveDraw(events).Some?)
    && (SawSubmit(events) ==> HasStage(events, Enqueued))
    && MostHits(events) == ServedCount(events)
    && !HasGap(events)
  }

  method Truncations(events: seq<Event>, gap: bool) returns (missing: seq<string>)
    requires gap <==> HasGap(events)
    ensures missing == [] <==> StreamWhole(events)
  {
    hide MostHits, ServedCount, HasGap, SawDraw, SawSubmit;
    missing := [];
    if FirstOf(events, Rejected).None? && FirstOf(events, FirstSight).None? {
      missing := missing + ["rejectedStageMissingFromStream"];
    }
    if FirstOf(events, ServedCandidate).None? && MostHits(events) > 0 {
      missing := missing + ["servedCandidateStageMissingFromStream"];
    }
    if SawDraw(events) && FirstLiveDraw(events).None? {
      missing := missing + ["drawnFlagWithoutDrawnEvent"];
    }
    if SawSubmit(events) && FirstOf(events, Enqueued).None? {
      missing := missing + ["submitFlagWithoutEnqueuedEvent"];
    }
    if MostHits(events) != ServedCount(events) {
      missing := missing + ["servedCandidateEventsTruncated"];
    }
    if gap {
      missing := missing + ["chainSequenceGap"];
    }
  }

  // Reasons to refuse certification

  predicate IdentityOk(version: int, events: seq<Event>) {
    && (forall i | 0 <= i < |events| :: !events[i].identityWeak && !events[i].epochUnknown)
    && (version >= 2 ==> forall i | 0 <= i < |events| :: events[i].proofKind == 1)
    && (version >= 2 && events != [] ==> events[0].key.lifecycleIdentity != 0)
  }

  /** A frame domain flagged unknown carries no value. */
  predicate DomainsOk(e: Event) {
    && (e.frames.manifestUnknown ==> e.frames.manifestFrameSerial == 0 && e.frames.manifestPublishRevision == 0)
    && (e.frames.nativeUnknown ==> e.frames.nativeFrameTag == 0)
  }

  predicate DrawsOk(events: seq<Event>) {
    && (forall i | 0 <= i < |events| :: LiveDraw(events[i]) ==> events[i].sawSubmit)
    && (forall i | 0 <= i < |events| :: DomainsOk(events[i]))
    && (TerminalOfChain(events) == Recovered ==>
          var t := events[TerminalAt(events).value];
          t.source != NoSource && !t.selectionCleared && events[0].reason != NotChecked)
  }

  method Refusals(version: int, events: seq<Event>) returns (refusals: seq<string>)
    requires events != []
    ensures refusals == [] <==> IdentityOk(version, events) && DrawsOk(events)
  {
    refusals := [];
    var n := |events|;
    if exists i | 0 <= i < n :: events[i].identityWeak {
      refusals := refusals + ["identityWeak"];
    }
    if exists i | 0 <= i < n :: events[i].epochUnknown {
      refusals := refusals + ["epochUnknown"];
    }
    if version >= 2 {
      if exists i | 0 <= i < n :: events[i].proofKind != 1 {
        refusals := refusals + ["identityNotProven"];
      } else if events[0].key.lifecycleIdentity == 0 {
        refusals := refusals + ["identityValueMissing"];
      }
    }
    var onDraws := DrawRefusals(events);
    refusals := refusals + onDraws;
  }

  method DrawRefusals(events: seq<Event>) returns (refusals: seq<string>)
    requires events != []
    ensures refusals == [] <==> DrawsOk(events)
  {
    refusals := [];
    var n := |events|;
    if TerminalOfChain(events) == Recovered {
      var t := events[TerminalAt(events).value];
      if t.source == NoSource {
        refusals := refusals + ["drawSourceMissing"];
      }
      if t.selectionCleared {
        refusals := refusals + ["selectionClearedAtDraw"];
      }
      if events[0].reason == NotChecked {
        refusals := refusals + ["recoveredWithoutRejectFact"];
      }
    }
    if exists i | 0 <= i < n :: LiveDraw(events[i]) && !events[i].sawSubmit {
      refusals := refusals + ["liveDrawnWithoutSubmit"];
    }
    if exists i | 0 <= i < n :: !DomainsOk(events[i]) {
      refusals := refusals + ["unknownFrameDomainWithValue"];
    }
  }

  // The judgement

  predicate StagesComplete(events: seq<Event>) {
    if HasStage(events, FirstSight) then
      HasStage(events, Enqueued) && HasStage(events, Drawn) && !HasStage(events, Rejected)
    else
      && HasStage(events, Rejected) && HasStage(events, ServedCandidate)
      && HasStage(events, Enqueued) && HasStage(events, Drawn)
  }

  ghost predicate StagesObserved(version: int, events: seq<Event>)
    requires Judgeable(version, events)
  {
    && StreamWhole(events) && TypesOk(version, events) && OrderOk(events) && !StepsBack(events) && FramesOk(events)
    && StagesComplete(events) && SawSubmit(events) && SawDraw(events) && TerminalOfChain(events) != NoTerminal
  }

  /** The whole certificate: the chain ends in a recovery, its identity and its draws are proven, and it began with a
      rejection or, in version 3, with a first sight that carries a checked reason. */
  ghost predicate Certifiable(version: int, events: seq<Event>)
    requires Judgeable(version, events)
  {
    && StagesObserved(version, events) && TerminalOfChain(events) == Recovered
    && IdentityOk(version, events) && DrawsOk(events)
  }

  /** None where the reader raises for a second terminal event. */
  method JudgeChain(version: int, events: seq<Event>, lossy: bool) returns (r: Option<Chain>)
    requires Judgeable(version, events)
    ensures r.None? <==> TerminalCount(events) > 1
    ensures r.Some? ==>
              && r.value.size == |events| && r.value.terminal == TerminalOfChain(events)
              && (r.value.covered <==> !lossy && StreamWhole(events))
              && (r.value.stagesObserved <==> StagesObserved(version, events))
              && (r.value.Complete() <==> !lossy && Certifiable(version, events))
  {
    if TerminalCount(events) > 1 {
      return None;
    }
    var terminal := TerminalOfChain(events);
    var onTypes := TypeIssues(version, events);
    var onOrder := OrderIssues(events);
    var back, gap := CheckNumbering(events);
    var onNumbers: seq<string> := if back then ["chainSequenceNotStrictlyIncreasing"] else [];
    var onFrames := FrameIssues(events);
    var issues := onTypes + onOrder + onNumbers + onFrames;
    var truncation := Truncations(events, gap);
    var refusals := Refusals(version, events);
    var covered := !lossy && truncation == [];
    var observed := truncation == [] && issues == [] && StagesComplete(events) && SawSubmit(events) && SawDraw(events)
                    && terminal != NoTerminal;
    if !covered {
      refusals := refusals + ["chainNotCovered"];
    }
    if truncation != [] {
      refusals := refusals + ["stageStreamTruncated"];
    }
    if issues != [] || !SawSubmit(events) || !SawDraw(events) || terminal != Recovered {
      refusals := refusals + ["recoveryNotProven"];
    }
    var certified := observed && terminal == Recovered && refusals == [];
    return Some(Chain(|events|, terminal, covered, observed, certified));
  }

  // What certification establishes

  lemma {:induction false} NumberedWhenWhole(events: seq<Event>, n: nat)
    requires n <= |events| && !StepsBack(events) && !HasGap(events)
    ensures NumberedUpTo(events, n)
  {
    if n > 0 {
      NumberedWhenWhole(events, n - 1);
    }
  }

  lemma {:induction false} OneTerminal(events: seq<Event>, i: nat, j: nat)
    requires i < |events| && j < |events| && TerminalCount(events) <= 1
    requires events[i].terminal != NoTerminal && events[j].terminal != NoTerminal
    ensures i == j
  {
    var n := |events| - 1;
    if i < n && j < n {
      OneTerminal(events[..n], i, j);
    } else if i < n {
      SomeTerminal(events[..n], i);
    } else if j < n {
      SomeTerminal(events[..n], j);
    }
  }

  lemma {:induction false} SomeTerminal(events: seq<Event>, i: nat)
    requires i < |events| && events[i].terminal != NoTerminal
    ensures TerminalCount(events) > 0
  {
    var n := |events| - 1;
    if i < n {
      SomeTerminal(events[..n], i);
    }
  }

  /** A certified chain of format version 1, 2 or 4: its events are numbered exactly 1 .. n; the first Rejected event
      comes before the first ServedCandidate, that before the first Enqueued, that before the first live Drawn; no event is a
      FirstSight; its one terminal event is Recovered, with a source; and it starts from a rejection that was checked. */
  lemma CertifiedChain(version: int, events: seq<Event>)
    requires Judgeable(version, events) && TerminalCount(events) <= 1 && Certifiable(version, events)
    requires version != 3
    ensures forall i | 0 <= i < |events| :: events[i].chainSequence == i + 1
    ensures var reject, served := FirstOf(events, Rejected), FirstOf(events, ServedCandidate);
      var enqueued, drawn := FirstOf(events, Enqueued), FirstLiveDraw(events);
      && reject.Some? && served.Some? && enqueued.Some? && drawn.Some?
      && reject.value < served.value < enqueued.value < drawn.value
    ensures !HasStage(events, FirstSight) && events[0].reason != NotChecked
    ensures var t := TerminalAt(events);
      && t.Some? && events[t.value].terminal == Recovered && events[t.value].source != NoSource
      && forall i | 0 <= i < |events| && i != t.value :: events[i].terminal == NoTerminal
  {
    NumberedWhenWhole(events, |events|);
    NoFirstSight(version, events);
    var t := TerminalAt(events).value;
    forall i | 0 <= i < |events| && events[i].terminal != NoTerminal ensures i == t {
      OneTerminal(events, i, t);
    }
  }

  /** Only a version-3 chain can be certified from a FirstSight head. */
  lemma NoFirstSight(version: int, events: seq<Event>)
    requires Judgeable(version, events) && Certifiable(version, events)
    ensures version != 3 ==> !HasStage(events, FirstSight)
    ensures HasStage(events, Rejected) <==> !HasStage(events, FirstSight)
  {
    if version >= 4 {
      assert HasType(events, events[0].chainType);
    }
    assert forall i | 0 <= i < |events| :: Shaped(version, events[i]);
  }
}
