/** What a certified palette chain looks like, event by event. */
module PaletteVerdict {
  import opened PaletteChain
  import opened PaletteEvent
  import opened Wrappers

  // Stages, by their positions

  ghost predicate Precedes(events: seq<Event>, a: Stage, b: Stage) {
    forall i | 0 <= i < |events| && events[i].stage == b :: HasStage(events[..i], a)
  }

  /** A draw that is not the closing record of the chain. */
  ghost predicate DrawsFollow(events: seq<Event>) {
    forall i | 0 <= i < |events| && LiveDraw(events[i]) :: HasStage(events[..i], Enqueued)
  }

  ghost predicate Draws(events: seq<Event>) {
    exists i | 0 <= i < |events| :: LiveDraw(events[i])
  }

  /** A chain that begins with a rejection goes through all four stages, in order; one that begins with a first sight may
      go without being served. */
  ghost predicate StagesInOrder(events: seq<Event>) {
    && Draws(events) && DrawsFollow(events) && HasStage(events, Enqueued)
    && (HasStage(events, ServedCandidate) ==> Precedes(events, ServedCandidate, Enqueued))
    && if HasStage(events, FirstSight)
       then !HasStage(events, Rejected) && Precedes(events, FirstSight, ServedCandidate)
       else HasStage(events, ServedCandidate) && Precedes(events, Rejected, ServedCandidate)
  }

  lemma FirstOfPrefix(events: seq<Event>, i: nat, stage: Stage)
    requires i <= |events|
    ensures HasStage(events[..i], stage) <==> FirstOf(events, stage).Some? && FirstOf(events, stage).value < i
  {
    var r := FirstOf(events, stage);
    if r.Some? && r.value < i {
      assert events[..i][r.value].stage == stage;
    }
  }

  lemma BeforeMeans(events: seq<Event>, a: Stage, b: Stage)
    requires HasStage(events, a)
    ensures Before(FirstOf(events, a), FirstOf(events, b)) <==> Precedes(events, a, b)
  {
    forall i: nat | i < |events|
      ensures HasStage(events[..i], a) <==> FirstOf(events, a).Some? && FirstOf(events, a).value < i
    {
      FirstOfPrefix(events, i, a);
    }
  }

  lemma DrawnBeforeMeans(events: seq<Event>)
    requires HasStage(events, Enqueued)
    ensures Before(FirstOf(events, Enqueued), FirstLiveDraw(events)) <==> DrawsFollow(events)
  {
    forall i: nat | i < |events|
      ensures HasStage(events[..i], Enqueued) <==> FirstOf(events, Enqueued).Some? && FirstOf(events, Enqueued).value < i
    {
      FirstOfPrefix(events, i, Enqueued);
    }
  }

  lemma PrecededHappens(events: seq<Event>, a: Stage, b: Stage)
    requires HasStage(events, b) && Precedes(events, a, b)
    ensures HasStage(events, a)
  {
    var i :| 0 <= i < |events| && events[i].stage == b;
    var j :| 0 <= j < i && events[..i][j].stage == a;
    assert events[j].stage == a;
  }

  /** The stage checks together. */
  predicate StageChecks(events: seq<Event>) {
    && OrderOk(events) && StagesComplete(events) && FirstLiveDraw(events).Some?
    && (HasStage(events, Rejected) || HasStage(events, FirstSight))
  }

  lemma StageChecksMean(events: seq<Event>)
    ensures StageChecks(events) <==> StagesInOrder(events)
  {
    hide HasStage, Precedes, DrawsFollow, Before;
    HasFirst(events, Rejected);
    HasFirst(events, FirstSight);
    HasFirst(events, ServedCandidate);
    HasFirst(events, Enqueued);
    HasFirst(events, Drawn);
    DrawsHappen(events);
    NoneBefore(FirstOf(events, FirstSight), FirstOf(events, ServedCandidate));
    NoneBefore(FirstOf(events, Rejected), FirstOf(events, ServedCandidate));
    NoneBefore(FirstOf(events, ServedCandidate), FirstOf(events, Enqueued));
    if HasStage(events, FirstSight) {
      BeforeMeans(events, FirstSight, ServedCandidate);
    }
    if HasStage(events, ServedCandidate) {
      BeforeMeans(events, ServedCandidate, Enqueued);
    }
    if HasStage(events, ServedCandidate) && Precedes(events, Rejected, ServedCandidate) {
      PrecededHappens(events, Rejected, ServedCandidate);
    }
    if HasStage(events, Rejected) {
      BeforeMeans(events, Rejected, ServedCandidate);
    }
    if HasStage(events, Enqueued) {
      DrawnBeforeMeans(events);
    }
  }

  lemma NoneBefore(a: Option<nat>, b: Option<nat>)
    ensures a.None? || b.None? ==> Before(a, b)
  {
  }

  lemma HasFirst(events: seq<Event>, stage: Stage)
    ensures HasStage(events, stage) <==> FirstOf(events, stage).Some?
  {
  }

  lemma DrawsHappen(events: seq<Event>)
    ensures Draws(events) <==> FirstLiveDraw(events).Some?
    ensures Draws(events) ==> HasStage(events, Drawn)
  {
  }

  // Hit counts

  /** The positions of the served events. */
  ghost function ServedAt(events: seq<Event>): set<nat> {
    set i: nat | i < |events| && events[i].stage == ServedCandidate
  }

  /** The largest hit count of the chain; 0 is always reached. */
  ghost predicate Largest(events: seq<Event>, hits: nat) {
    && (forall i | 0 <= i < |events| :: events[i].hitCount <= hits)
    && (hits > 0 ==> exists i | 0 <= i < |events| :: events[i].hitCount == hits)
  }

  lemma {:induction false} MostHitsIsLargest(events: seq<Event>)
    ensures Largest(events, MostHits(events))
  {
    if events != [] {
      var n := |events| - 1;
      MostHitsIsLargest(events[..n]);
      if MostHits(events) > events[n].hitCount {
        var i :| 0 <= i < n && events[..n][i].hitCount == MostHits(events);
        assert events[i].hitCount == MostHits(events);
      }
      forall i | 0 <= i < |events| ensures events[i].hitCount <= MostHits(events) {
        assert i < n ==> events[..n][i] == events[i];
      }
    }
  }

  lemma {:induction false} ServedCountCounts(events: seq<Event>)
    ensures ServedCount(events) == |ServedAt(events)|
  {
    if events != [] {
      var n := |events| - 1;
      ServedCountCounts(events[..n]);
      if events[n].stage == ServedCandidate {
        assert ServedAt(events) == ServedAt(events[..n]) + {n};
      } else {
        assert ServedAt(events) == ServedAt(events[..n]);
      }
    }
  }

  lemma HitsMean(events: seq<Event>)
    ensures MostHits(events) == ServedCount(events) <==> Largest(events, |ServedAt(events)|)
  {
    hide MostHits, ServedCount, ServedAt;
    MostHitsIsLargest(events);
    ServedCountCounts(events);
    LargestIsUnique(events, MostHits(events), |ServedAt(events)|);
  }

  lemma LargestIsUnique(events: seq<Event>, a: nat, b: nat)
    ensures Largest(events, a) && Largest(events, b) ==> a == b
  {
  }

  // Endings

  predicate IsTerminal(e: Event) {
    e.terminal != NoTerminal
  }

  ghost predicate Once(events: seq<Event>) {
    exists i | 0 <= i < |events| :: IsTerminal(events[i])
  }

  ghost predicate Twice(events: seq<Event>) {
    exists i, j | 0 <= i < j < |events| :: IsTerminal(events[i]) && IsTerminal(events[j])
  }

  lemma OnceMore(before: seq<Event>, e: Event)
    ensures Once(before + [e]) <==> Once(before) || IsTerminal(e)
  {
    var events := before + [e];
    assert events[|before|] == e;
    if Once(before) {
      var i :| 0 <= i < |before| && IsTerminal(before[i]);
      assert IsTerminal(events[i]);
    }
  }

  lemma TwiceMore(before: seq<Event>, e: Event)
    ensures Twice(before + [e]) <==> Twice(before) || (Once(before) && IsTerminal(e))
  {
    hide IsTerminal;
    var events := before + [e];
    assert events[|before|] == e;
    if Once(before) && IsTerminal(e) {
      var i :| 0 <= i < |before| && IsTerminal(before[i]);
      assert IsTerminal(events[i]) && IsTerminal(events[|before|]);
    }
    if Twice(before) {
      var i, j :| 0 <= i < j < |before| && IsTerminal(before[i]) && IsTerminal(before[j]);
      assert IsTerminal(events[i]) && IsTerminal(events[j]);
    }
    if Twice(events) {
      var i, j :| 0 <= i < j < |events| && IsTerminal(events[i]) && IsTerminal(events[j]);
      assert IsTerminal(before[i]) && (j < |before| ==> IsTerminal(before[j]));
    }
  }

  /** A chain is refused exactly when two of its events are terminal. */
  lemma {:induction false} SecondTerminal(events: seq<Event>)
    ensures TerminalCount(events) > 0 <==> Once(events)
    ensures TerminalCount(events) > 1 <==> Twice(events)
  {
    if events == [] {
    } else {
      var n := |events| - 1;
      SecondTerminal(events[..n]);
      hide Once, Twice;
      OnceMore(events[..n], events[n]);
      TwiceMore(events[..n], events[n]);
      assert events == events[..n] + [events[n]];
    }
  }

  /** The chain ends in a recovery drawn from a source, without the selection being cleared, after a rejection whose
      reason was checked. */
  ghost predicate EndsRecovered(events: seq<Event>) {
    && events != [] && events[0].reason != NotChecked
    && exists t | 0 <= t < |events| ::
         events[t].terminal == Recovered && events[t].source != NoSource && !events[t].selectionCleared
  }

  lemma RecoveryMeans(events: seq<Event>)
    requires events != [] && !Twice(events)
    ensures EndsRecovered(events) <==>
              && TerminalOfChain(events) == Recovered && events[0].reason != NotChecked
              && events[TerminalAt(events).value].source != NoSource && !events[TerminalAt(events).value].selectionCleared
  {
    var at := TerminalAt(events);
    if EndsRecovered(events) {
      var t :| 0 <= t < |events| && events[t].terminal == Recovered && events[t].source != NoSource
               && !events[t].selectionCleared;
      assert at.value == t;
    }
  }

  // Frames and identity

  /** Rejections, served candidates, first sights and the closing record count their delta from the chain's first frame,
      if they are not before it; every other event carries 0. */
  ghost predicate FramesAnchored(events: seq<Event>)
    requires forall i | 0 <= i < |events| :: Readable(events[i])
  {
    forall i | 0 <= i < |events| ::
      var e, first := events[i], events[0].firstRejectFrame;
      && e.firstRejectFrame == first
      && if e.stage in {Rejected, ServedCandidate, FirstSight} || e.terminal != NoTerminal
         then e.deltaFrames == FrameOf(e) - first || FrameOf(e) < first else e.deltaFrames == 0
  }

  ghost predicate Proven(version: int, e: Event) {
    && !e.identityWeak && !e.epochUnknown && (version >= 2 ==> e.proofKind == 1)
    && e.chainType == RejectionRecovery && (LiveDraw(e) ==> e.sawSubmit)
    && (e.frames.manifestUnknown ==> e.frames.manifestFrameSerial == 0 && e.frames.manifestPublishRevision == 0)
    && (e.frames.nativeUnknown ==> e.frames.nativeFrameTag == 0)
  }

  ghost predicate AllProven(version: int, events: seq<Event>) {
    && events != [] && (forall i | 0 <= i < |events| :: Proven(version, events[i]))
    && (version >= 2 ==> events[0].key.lifecycleIdentity != 0)
    && (version != 3 ==> !HasStage(events, FirstSight))
  }

  lemma FramesMean(events: seq<Event>)
    requires events != [] && forall i | 0 <= i < |events| :: Readable(events[i])
    ensures FramesOk(events) <==> FramesAnchored(events)
  {
    hide FrameOf, Readable;
    forall i | 0 <= i < |events| ensures Anchored(events[i]) <==>
              events[i].stage in {Rejected, ServedCandidate, FirstSight} || events[i].terminal != NoTerminal {
    }
  }

  lemma TypesMean(version: int, events: seq<Event>)
    requires Judgeable(version, events) && TerminalOfChain(events) == Recovered
    ensures TypesOk(version, events) <==>
              && (forall i | 0 <= i < |events| :: events[i].chainType == RejectionRecovery)
              && (version != 3 ==> !HasStage(events, FirstSight))
  {
    hide TerminalOfChain, Readable;
    assert events[0].chainType == RejectionRecovery ==> HasType(events, RejectionRecovery);
    forall i | 0 <= i < |events|
      ensures Shaped(version, events[i]) && (events[i].chainType == RejectionRecovery || events[i].chainType == Observation)
    {
      assert events[i].chainType.RejectionRecovery? || events[i].chainType.Observation?;
    }
  }

  lemma ProofsMean(version: int, events: seq<Event>)
    requires Judgeable(version, events) && TerminalOfChain(events) == Recovered
    ensures AllProven(version, events) <==>
              && TypesOk(version, events) && IdentityOk(version, events)
              && (forall i | 0 <= i < |events| :: LiveDraw(events[i]) ==> events[i].sawSubmit)
              && (forall i | 0 <= i < |events| :: DomainsOk(events[i]))
  {
    hide TerminalOfChain, TypesOk, Judgeable, HasStage, LiveDraw;
    TypesMean(version, events);
    NotEmpty(version, events);
    if AllProven(version, events) {
      forall i | 0 <= i < |events| ensures !events[i].identityWeak && !events[i].epochUnknown
                                           && (version >= 2 ==> events[i].proofKind == 1) {
        assert Proven(version, events[i]);
      }
    }
  }

  lemma NotEmpty(version: int, events: seq<Event>)
    requires Judgeable(version, events)
    ensures events != []
  {
  }

  // The certificate

  ghost predicate NumberedFromOne(events: seq<Event>) {
    forall i | 0 <= i < |events| :: events[i].chainSequence == i + 1
  }

  lemma NumbersMean(events: seq<Event>)
    ensures !StepsBack(events) && !HasGap(events) <==> NumberedFromOne(events)
  {
    if !StepsBack(events) && !HasGap(events) {
      NumberedWhenWhole(events, |events|);
    }
  }

  ghost predicate Flagged(events: seq<Event>) {
    && (exists i | 0 <= i < |events| :: events[i].sawSubmit)
    && (exists i | 0 <= i < |events| :: events[i].sawDraw)
  }

  /** The checks of a certificate, regrouped. */
  ghost predicate Checks(version: int, events: seq<Event>)
    requires Judgeable(version, events)
  {
    && StageChecks(events) && MostHits(events) == ServedCount(events) && !StepsBack(events) && !HasGap(events)
    && SawSubmit(events) && SawDraw(events) && FramesOk(events) && TerminalOfChain(events) == Recovered
    && TypesOk(version, events) && IdentityOk(version, events) && DrawsOk(events)
  }

  lemma CertifiableChecks(version: int, events: seq<Event>)
    requires Judgeable(version, events)
    ensures Certifiable(version, events) <==> Checks(version, events)
  {
    hide OrderOk, MostHits, ServedCount, StepsBack, HasGap, FramesOk, TypesOk, IdentityOk, DrawsOk, TerminalOfChain,
         SawDraw, SawSubmit;
    HasFirst(events, Enqueued);
    HitsServed(events);
  }

  lemma HitsServed(events: seq<Event>)
    ensures MostHits(events) == ServedCount(events) > 0 ==> HasStage(events, ServedCandidate)
  {
    ServedCountCounts(events);
    if ServedCount(events) > 0 {
      var i :| i in ServedAt(events);
    }
  }

  /** A chain with at most one terminal event is certified as recovered exactly when: its events are numbered 1 .. n; the
      stages happen in order; the largest hit count is the number of served events; a submit and a draw were flagged;
      frames are anchored; it ends in a recovery; and every event is proven to be of the one object. */
  lemma CertifiableIff(version: int, events: seq<Event>)
    requires Judgeable(version, events) && !Twice(events)
    ensures Certifiable(version, events) <==>
              && NumberedFromOne(events) && StagesInOrder(events) && Largest(events, |ServedAt(events)|) && Flagged(events)
              && FramesAnchored(events) && EndsRecovered(events) && AllProven(version, events)
  {
    hide StageChecks, MostHits, ServedCount, StepsBack, HasGap, FramesOk, TypesOk, IdentityOk, TerminalOfChain,
         NumberedFromOne, StagesInOrder, Largest, ServedAt, FramesAnchored, EndsRecovered, AllProven, Certifiable,
         DomainsOk, LiveDraw, Twice;
    CertifiableChecks(version, events);
    StageChecksMean(events);
    HitsMean(events);
    NumbersMean(events);
    FramesMean(events);
    RecoveryMeans(events);
    if TerminalOfChain(events) == Recovered {
      ProofsMean(version, events);
    }
  }
}
