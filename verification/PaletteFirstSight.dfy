/** Complete exports: a certified chain alone makes one, and so does a chain of version 3 that was never rejected. */
module PaletteFirstSight {
  import opened CanonicalDecimal
  import opened PaletteAccounting
  import opened PaletteChain
  import opened PaletteEvent
  import opened Wrappers

  // One certified chain is a complete export

  ghost predicate OneChain(events: seq<Event>, k: GroupKey) {
    forall i | 0 <= i < |events| :: KeyOf(events[i]) == k
  }

  lemma {:induction false} OneGroup(events: seq<Event>, k: GroupKey)
    requires OneChain(events, k)
    ensures Group(events, k) == events && KeysOf(events) == if events == [] then [] else [k]
  {
    if events != [] {
      var n := |events| - 1;
      OneGroup(events[..n], k);
      assert events == events[..n] + [events[n]];
    }
  }

  lemma {:induction false} OtherKindsWithin(events: seq<Event>, kind: Terminal)
    requires kind != NoTerminal && kind != Recovered
    ensures Tally(OfKind(Recovered), events) + Tally(OfKind(kind), events) <= Tally(Terminals, events)
  {
    if events != [] {
      OtherKindsWithin(events[..|events| - 1], kind);
    }
  }

  /** What the recorder would have counted. */
  function HeaderFor(version: int, events: seq<Event>): Header {
    var sights := Tally(LiveSights, events) + Tally(ClosingSights, events);
    Header(version, true, 0, false, Counters(|events|, 1, [], 1, 0, 0, 0, 0, 0, 0, sights, sights))
  }

  lemma OneRecoveryReconciles(version: int, events: seq<Event>)
    requires Tally(Terminals, events) == 1 && Tally(OfKind(Recovered), events) == 1
    ensures TerminalsReconcile(HeaderFor(version, events), events)
  {
    var h := HeaderFor(version, events);
    forall k | 0 <= k < |TERMINAL_KINDS| ensures KindMatches(h, events, TERMINAL_KINDS[k]) {
      if TERMINAL_KINDS[k] != Recovered {
        OtherKindsWithin(events, TERMINAL_KINDS[k]);
      }
    }
  }

  /** A certified chain, exported alone with counters to match, is a complete export. */
  lemma CertifiedChainExports(version: int, events: seq<Event>, k: GroupKey)
    requires Judgeable(version, events) && TerminalCount(events) <= 1 && Certifiable(version, events) && OneChain(events, k)
    ensures var h := HeaderFor(version, events);
      && Readings(h, events) && ExportOk(h, events) && OneTerminalEach(events) && ExportComplete(h, events)
      && KeysOf(events) == [k]
  {
    hide Certifiable, Tally, TerminalsReconcile, SegmentsOrdered, Group, KeysOf, KeyOf, TerminalCount;
    OneGroup(events, k);
    CertifiedHasOneRecovery(version, events);
    OneRecoveryReconciles(version, events);
    OneChainOrdered(events, k);
  }

  lemma OneChainOrdered(events: seq<Event>, k: GroupKey)
    requires OneChain(events, k)
    ensures SegmentsOrdered(events)
  {
    forall i | 0 <= i < |events| ensures events[i].windowSegment == k.segment {
      assert KeyOf(events[i]) == k;
    }
  }

  // A chain that was never rejected

  function SightEvent(n: nat, stage: Stage, terminal: Terminal): Event {
    Event(n, 1, 1, stage, ArenaSlot, RejectionRecovery, terminal, R1, Key(1, 1, 1, 1, 1, "1", "1", 1),
          Frames("1", 0, 0, 0, 0, false, false), 0, 0, n, 1, 0, true, true, false, false, false, Some(1), 1)
  }

  function SightChain(): seq<Event> {
    [SightEvent(1, FirstSight, NoTerminal), SightEvent(2, Enqueued, NoTerminal),
     SightEvent(3, Drawn, NoTerminal), SightEvent(4, Drawn, Recovered)]
  }

  ghost predicate SightFields(e: Event, n: nat) {
    && e.chainSequence == n && e.hitCount == 0 && e.sawSubmit && e.sawDraw && e.firstRejectFrame == 1 && e.deltaFrames == 0
    && U64(e.frames.renderFrame) == Some(1) && Shaped(3, e) && e.stage != ServedCandidate && e.stage != Rejected
  }

  ghost predicate SightProof(e: Event) {
    && !e.identityWeak && !e.epochUnknown && e.proofKind == 1 && e.key.lifecycleIdentity == 1 && e.source == ArenaSlot
    && !e.selectionCleared && e.reason == R1 && !e.frames.manifestUnknown && !e.frames.nativeUnknown
    && e.chainType == RejectionRecovery
  }

  ghost predicate SightShape(events: seq<Event>) {
    && |events| == 4 && (forall i | 0 <= i < 4 :: SightFields(events[i], i + 1))
    && events[0].stage == FirstSight && events[1].stage == Enqueued && events[2].stage == Drawn && events[3].stage == Drawn
    && events[0].terminal == NoTerminal && events[1].terminal == NoTerminal && events[2].terminal == NoTerminal
    && events[3].terminal == Recovered
  }

  lemma SightIsShaped()
    ensures SightShape(SightChain()) && forall i | 0 <= i < 4 :: SightProof(SightChain()[i])
  {
    assert "1"[..0] == "";
    assert Value("1") == 1;
  }

  lemma SightStages(events: seq<Event>)
    requires SightShape(events)
    ensures StagesComplete(events) && !HasStage(events, Rejected) && SawSubmit(events) && SawDraw(events)
  {
    assert SightFields(events[0], 1);
    assert events[1].stage == Enqueued && events[2].stage == Drawn;
  }

  lemma SightOrder(events: seq<Event>)
    requires SightShape(events)
    ensures OrderOk(events)
  {
    var enqueued, drawn := FirstOf(events, Enqueued), FirstLiveDraw(events);
    assert enqueued == Some(1);
    assert drawn == Some(2);
    assert FirstOf(events, Rejected).None? && FirstOf(events, ServedCandidate).None?;
  }

  lemma SightStream(events: seq<Event>)
    requires SightShape(events)
    ensures StreamWhole(events) && !StepsBack(events) && TerminalCount(events) == 1
  {
    FourEvents(events);
    assert events[0].stage == FirstSight && events[1].stage == Enqueued && LiveDraw(events[2]);
    forall i | 0 <= i < 4 ensures events[i].chainSequence == i + 1 && events[i].hitCount == 0
                                  && events[i].stage != ServedCandidate {
      assert SightFields(events[i], i + 1);
    }
  }

  lemma SightEnds(events: seq<Event>)
    requires SightShape(events) && forall i | 0 <= i < 4 :: SightProof(events[i])
    ensures TerminalOfChain(events) == Recovered && TypesOk(3, events) && DrawsOk(events) && IdentityOk(3, events)
  {
    assert TerminalAt(events) == Some(3);
    forall i | 0 <= i < 4 ensures events[i].sawSubmit && DomainsOk(events[i]) {
      assert SightFields(events[i], i + 1) && SightProof(events[i]);
    }
  }

  lemma SightReads(events: seq<Event>)
    requires SightShape(events)
    ensures Judgeable(3, events) && FramesOk(events)
  {
    forall i | 0 <= i < 4
      ensures Readable(events[i]) && Shaped(3, events[i]) && events[i].firstRejectFrame == 1 && DeltaOk(events[i], 1)
    {
      assert SightFields(events[i], i + 1);
    }
  }

  /** In version 3 a chain headed by FirstSight, with no Rejected event at all, is certified as recovered when its first
      event carries a reason other than NotChecked. */
  lemma FirstSightHeadIsCertified()
    ensures var events := SightChain();
      Judgeable(3, events) && TerminalCount(events) == 1 && Certifiable(3, events) && !HasStage(events, Rejected)
  {
    SightIsShaped();
    SightReads(SightChain());
    SightStages(SightChain());
    SightOrder(SightChain());
    SightStream(SightChain());
    SightEnds(SightChain());
  }

  lemma FourEvents(events: seq<Event>)
    requires |events| == 4
    ensures TerminalCount(events) == Flag(events[0]) + Flag(events[1]) + Flag(events[2]) + Flag(events[3])
    ensures (forall i | 0 <= i < 4 :: events[i].hitCount == 0) ==> MostHits(events) == 0
    ensures (forall i | 0 <= i < 4 :: events[i].stage != ServedCandidate) ==> ServedCount(events) == 0
  {
    assert events[..3][..2] == events[..2] && events[..2][..1] == events[..1] && events[..1][..0] == [];
    assert TerminalCount(events[..1]) == Flag(events[0]);
    assert TerminalCount(events[..2]) == TerminalCount(events[..1]) + Flag(events[1]);
    assert TerminalCount(events[..3]) == TerminalCount(events[..2]) + Flag(events[2]);
    if forall i | 0 <= i < 4 :: events[i].hitCount == 0 {
      NoHits(events);
    }
    if forall i | 0 <= i < 4 :: events[i].stage != ServedCandidate {
      NoServed(events);
    }
  }

  function Flag(e: Event): nat {
    if e.terminal != NoTerminal then 1 else 0
  }

  lemma {:induction false} NoHits(events: seq<Event>)
    requires forall i | 0 <= i < |events| :: events[i].hitCount == 0
    ensures MostHits(events) == 0
  {
    if events != [] {
      NoHits(events[..|events| - 1]);
    }
  }

  lemma {:induction false} NoServed(events: seq<Event>)
    requires forall i | 0 <= i < |events| :: events[i].stage != ServedCandidate
    ensures ServedCount(events) == 0
  {
    if events != [] {
      NoServed(events[..|events| - 1]);
    }
  }

  /** So a version-3 export without any Rejected event is reported complete: it passes every check, each chain has one
      terminal, and nothing is missing. */
  lemma FirstSightExportIsComplete()
    ensures var events := SightChain(); var h := HeaderFor(3, events);
      && Readings(h, events) && ExportOk(h, events) && OneTerminalEach(events) && ExportComplete(h, events)
      && !HasStage(events, Rejected) && |KeysOf(events)| == 1
  {
    hide Certifiable, ExportOk, ExportComplete, OneTerminalEach, Readings;
    FirstSightHeadIsCertified();
    CertifiedChainExports(3, SightChain(), KeyOf(SightEvent(1, FirstSight, NoTerminal)));
  }
}
