/** The frame-evidence reader in terms of its file: which strings and numbers an event is read from, and what a report
    says about the list of events. */
module SpanReading {
  import opened CanonicalDecimal
  import opened SpanMatcher
  import opened Wrappers

  // One event, written field by field

  function Encode(ctx: Context, e: Event): RawEvent {
    var id := e.identity;
    RawEvent(Spelled(e.sequence), Spelled(ctx.session), Spelled(e.parent), Spelled(e.qpc), id.thread, e.kind,
             Spelled(id.owner), Spelled(id.frame), Spelled(id.mapEpoch), Spelled(id.deviceEpoch), e.name,
             seq(|e.data|, i requires 0 <= i < |e.data| => Spelled(e.data[i])),
             seq(|e.words|, i requires 0 <= i < |e.words| => e.words[i]))
  }

  /** The values fit their fields. */
  predicate Fits(ctx: Context, e: Event) {
    var id := e.identity;
    && e.sequence < U64_LIMIT && ctx.session < U64_LIMIT && e.parent < U64_LIMIT && e.qpc < U64_LIMIT
    && id.owner < U64_LIMIT && id.frame < U64_LIMIT && id.mapEpoch < U64_LIMIT && id.deviceEpoch < U64_LIMIT
    && id.thread <= U32_MAX && 0 < e.kind <= KindLimit(ctx.schema) && LabelOk(e.name)
    && |e.data| == 12 && (forall i | 0 <= i < 12 :: e.data[i] < U64_LIMIT)
    && |e.words| == 48 && (forall i | 0 <= i < 48 :: e.words[i] <= U32_MAX)
  }

  lemma DataReadsBack(ctx: Context, e: Event)
    requires Fits(ctx, e)
    ensures DecodeData(Encode(ctx, e).data) == Some(e.data)
  {
    hide DecodeData, Spelled, U64, Canonical;
    var data := Encode(ctx, e).data;
    forall i | 0 <= i < 12 ensures U64(data[i]) == Some(e.data[i]) {
      SpelledIsAccepted(e.data[i]);
    }
    assert DecodeData(data).Some?;
    assert DecodeData(data).value == e.data;
  }

  lemma WordsReadBack(ctx: Context, e: Event)
    requires Fits(ctx, e)
    ensures DecodeWords(Encode(ctx, e).words) == Some(e.words)
  {
    hide DecodeWords, Spelled;
    var words := Encode(ctx, e).words;
    assert forall i | 0 <= i < 48 :: words[i] == e.words[i];
    assert DecodeWords(words).Some?;
    assert DecodeWords(words).value == e.words;
  }

  lemma EncodedDecodes(ctx: Context, e: Event)
    requires Fits(ctx, e)
    ensures Decode(ctx, Encode(ctx, e)) == Some(e)
  {
    hide Spelled, U64, DecodeData, DecodeWords, LabelOk, KindLimit;
    DataReadsBack(ctx, e);
    WordsReadBack(ctx, e);
    SpelledIsAccepted(e.sequence);
    SpelledIsAccepted(ctx.session);
    SpelledIsAccepted(e.parent);
    SpelledIsAccepted(e.qpc);
    SpelledIsAccepted(e.identity.owner);
    SpelledIsAccepted(e.identity.frame);
    SpelledIsAccepted(e.identity.mapEpoch);
    SpelledIsAccepted(e.identity.deviceEpoch);
  }

  lemma DecodedFits(ctx: Context, r: RawEvent)
    requires Decode(ctx, r).Some?
    ensures Fits(ctx, Decode(ctx, r).value)
  {
    hide LabelOk, KindLimit, U64, Spelled, DecodeData, DecodeWords;
    AcceptedIsSpelled(r.sequence);
    AcceptedIsSpelled(r.session);
    AcceptedIsSpelled(r.parent);
    AcceptedIsSpelled(r.qpc);
    AcceptedIsSpelled(r.owner);
    AcceptedIsSpelled(r.frame);
    AcceptedIsSpelled(r.mapEpoch);
    AcceptedIsSpelled(r.deviceEpoch);
    forall i | 0 <= i < 12 ensures U64(r.data[i]).value < U64_LIMIT {
      AcceptedIsSpelled(r.data[i]);
    }
  }

  /** A raw event is read as an event exactly when it is that event written field by field. */
  lemma DecodesIff(ctx: Context, r: RawEvent, e: Event)
    ensures Decode(ctx, r) == Some(e) <==> Fits(ctx, e) && r == Encode(ctx, e)
  {
    if Decode(ctx, r) == Some(e) {
      DecodedFits(ctx, r);
      EncodedDecodes(ctx, e);
      DecodeIsInjective(ctx, r, Encode(ctx, e));
    }
    if Fits(ctx, e) && r == Encode(ctx, e) {
      EncodedDecodes(ctx, e);
    }
  }

  // Spans, in kinds and positions

  predicate Begins(e: Event) {
    e.kind in {1, 3, 5}
  }

  predicate Ends(e: Event) {
    e.kind in {2, 4, 6}
  }

  /** When event n is read, event i has begun a span that no event in between has ended. */
  predicate Open(events: seq<Event>, i: nat, n: nat)
    requires n <= |events|
  {
    i < n && Begins(events[i]) && forall k | i < k < n :: !(Ends(events[k]) && events[k].parent == events[i].sequence)
  }

  /** Event j ends the open span that event i began. */
  predicate Pair(events: seq<Event>, i: nat, j: nat)
    requires j < |events|
  {
    Open(events, i, j) && Ends(events[j]) && events[j].parent == events[i].sequence
  }

  function SpanFrom(events: seq<Event>, i: nat, j: nat): Span
    requires i < j < |events|
  {
    Span(events[i].sequence, events[j].sequence, events[j].kind, events[j].name, events[j].qpc - events[i].qpc)
  }

  lemma OpenIsStillOpen(events: seq<Event>, i: nat, n: nat)
    requires n <= |events| && Increasing(events)
    ensures Open(events, i, n) <==> i < n && StillOpen(Spans, events, n, events[i].sequence) == Some(i)
  {
    StillOpenMeans(Spans, events, n, i);
  }

  lemma LastPair(events: seq<Event>, j: nat)
    requires j < |events| && Increasing(events)
    ensures var at := StillOpen(Spans, events, j, events[j].parent);
      && (Ends(events[j]) && at.Some? ==> Pair(events, at.value, j))
      && (forall i: nat :: Pair(events, i, j) ==> at == Some(i))
  {
    hide Increasing;
    var at := StillOpen(Spans, events, j, events[j].parent);
    if at.Some? {
      OpenIsStillOpen(events, at.value, j);
    }
    forall i: nat | Pair(events, i, j) ensures at == Some(i) {
      OpenIsStillOpen(events, i, j);
    }
  }

  /** Some pair among the first n events is this span. */
  ghost predicate Paired(events: seq<Event>, n: nat, s: Span)
    requires n <= |events|
  {
    exists j: nat :: j < n && PairedAt(events, j, s)
  }

  ghost predicate PairedAt(events: seq<Event>, j: nat, s: Span)
    requires j < |events|
  {
    exists i: nat :: i < j && Pair(events, i, j) && s == SpanFrom(events, i, j)
  }

  lemma LastSpan(events: seq<Event>, j: nat, s: Span)
    requires j < |events| && Increasing(events)
    ensures s in SpansOf(events, j + 1) <==> s in SpansOf(events, j) || PairedAt(events, j, s)
  {
    hide Pair, Increasing, StillOpen;
    LastPair(events, j);
    var at := StillOpen(Spans, events, j, events[j].parent);
    if Ends(events[j]) && at.Some? {
      assert SpansOf(events, j + 1) == SpansOf(events, j) + [SpanFrom(events, at.value, j)] by {
        PairMeans(events, at.value, j);
      }
    } else {
      assert SpansOf(events, j + 1) == SpansOf(events, j);
      assert forall i: nat | Pair(events, i, j) :: at == Some(i) && Ends(events[j]) by {
        forall i: nat | Pair(events, i, j) ensures Ends(events[j]) {
          PairMeans(events, i, j);
        }
      }
    }
  }

  lemma PairMeans(events: seq<Event>, i: nat, j: nat)
    requires j < |events| && Pair(events, i, j)
    ensures i < j && Begins(events[i]) && Ends(events[j]) && events[j].parent == events[i].sequence
  {
  }

  lemma {:induction false} SpansArePaired(events: seq<Event>, n: nat, s: Span)
    requires n <= |events| && Increasing(events)
    ensures s in SpansOf(events, n) <==> Paired(events, n, s)
  {
    hide PairedAt, Increasing;
    if n > 0 {
      SpansArePaired(events, n - 1, s);
      LastSpan(events, n - 1, s);
    }
  }

  // Events without a partner

  /** An end without an open begin, or an event of kind 5, 7 or 9 whose parent is not an open event of kind 3. */
  ghost predicate Stray(events: seq<Event>, n: nat)
    requires n < |events|
  {
    || (Ends(events[n]) && forall i: nat :: !Pair(events, i, n))
    || (events[n].kind in {5, 7, 9}
        && forall i: nat | Open(events, i, n) :: !(events[i].kind == 3 && events[i].sequence == events[n].parent))
  }

  lemma StrayIsUnpaired(events: seq<Event>, n: nat)
    requires n < |events| && Increasing(events)
    ensures Stray(events, n) <==> Unpaired(events, n)
  {
    hide Increasing;
    LastPair(events, n);
    var at := StillOpen(Spans, events, n, events[n].parent);
    if at.Some? {
      OpenIsStillOpen(events, at.value, n);
    }
    forall i: nat | Open(events, i, n) && events[i].sequence == events[n].parent ensures at == Some(i) {
      OpenIsStillOpen(events, i, n);
    }
  }

  lemma {:induction false} UnpairedAre(events: seq<Event>, n: nat, p: nat)
    requires n <= |events|
    ensures p in UnpairedOf(events, n) <==> exists m: nat :: m < n && Unpaired(events, m) && events[m].sequence == p
  {
    hide Unpaired;
    if n > 0 {
      UnpairedAre(events, n - 1, p);
    }
  }

  lemma LeftOpenAre(events: seq<Event>, p: nat)
    requires Increasing(events)
    ensures p in LeftOpen(events, |events|) <==> exists i: nat :: Open(events, i, |events|) && events[i].sequence == p
  {
    hide Increasing, LeftOpen;
    LeftOpenIsOpen(events, |events|);
    var at := StillOpen(Spans, events, |events|, p);
    if at.Some? {
      OpenIsStillOpen(events, at.value, |events|);
    }
    forall i: nat | Open(events, i, |events|) && events[i].sequence == p ensures at == Some(i) {
      OpenIsStillOpen(events, i, |events|);
    }
  }

  // Caster inputs, of kind 9, and their bindings, of kind 10

  /** When event n is read, caster input i has not been bound by an event in between. */
  predicate Waiting(events: seq<Event>, i: nat, n: nat)
    requires n <= |events|
  {
    i < n && events[i].kind == 9 && forall k | i < k < n :: !(events[k].kind == 10 && events[k].parent == events[i].sequence)
  }

  /** Event j binds the waiting caster input i. */
  predicate Binding(events: seq<Event>, i: nat, j: nat)
    requires j < |events|
  {
    Waiting(events, i, j) && events[j].kind == 10 && events[j].parent == events[i].sequence
  }

  lemma WaitingIsStillOpen(events: seq<Event>, i: nat, n: nat)
    requires n <= |events| && Increasing(events)
    ensures Waiting(events, i, n) <==> i < n && StillOpen(Casters, events, n, events[i].sequence) == Some(i)
  {
    StillOpenMeans(Casters, events, n, i);
  }

  lemma LastBinding(events: seq<Event>, j: nat)
    requires j < |events| && Increasing(events)
    ensures var at := StillOpen(Casters, events, j, events[j].parent);
      && (events[j].kind == 10 && at.Some? ==> Binding(events, at.value, j))
      && (forall i: nat :: Binding(events, i, j) ==> at == Some(i))
  {
    hide Increasing;
    var at := StillOpen(Casters, events, j, events[j].parent);
    if at.Some? {
      WaitingIsStillOpen(events, at.value, j);
    }
    forall i: nat | Binding(events, i, j) ensures at == Some(i) {
      WaitingIsStillOpen(events, i, j);
    }
  }

  // The whole list

  ghost predicate InOrder(ctx: Context, events: seq<Event>) {
    && (ctx.schema < 5 ==> forall n | 0 <= n < |events| :: events[n].sequence == ctx.evicted + 1 + n)
    && (ctx.schema >= 5 ==> Increasing(events) && forall n | 0 <= n < |events| :: 0 < events[n].sequence <= ctx.reserved)
  }

  /** From schema 5 on each thread has its own clock. */
  ghost predicate ClocksRise(ctx: Context, events: seq<Event>) {
    forall i, j | 0 <= i < j < |events| ::
      ctx.schema < 5 || events[i].identity.thread == events[j].identity.thread ==> events[i].qpc <= events[j].qpc
  }

  ghost predicate ParentsEarlier(events: seq<Event>) {
    forall n | 0 <= n < |events| :: events[n].parent == 0 || events[n].parent < events[n].sequence
  }

  predicate SameScope(b: Event, e: Event) {
    e.kind == b.kind + 1 && b.identity == e.identity && b.name == e.name
  }

  /** Every begin that event j ends has its kind, identity and name. */
  ghost predicate PairsMatch(events: seq<Event>, j: nat)
    requires j < |events|
  {
    forall i: nat | Pair(events, i, j) :: SameScope(events[i], events[j])
  }

  ghost predicate BindingsMatch(events: seq<Event>, j: nat)
    requires j < |events| && Payloads(events)
  {
    forall i: nat | Binding(events, i, j) ::
      events[i].identity == events[j].identity && events[i].data[0] == events[j].data[0]
  }

  lemma OrderIncreases(ctx: Context, events: seq<Event>)
    requires InOrder(ctx, events)
    ensures Increasing(events)
    ensures forall n: nat | n < |events| :: SequenceOk(ctx, events, n)
  {
  }

  lemma AcceptableInOrder(ctx: Context, events: seq<Event>)
    requires Acceptable(ctx, events)
    ensures InOrder(ctx, events)
  {
    hide SpanOk, CasterOk, ClockOk, ParentOk;
    AcceptableIncreases(ctx, events);
    forall n: nat | n < |events| ensures SequenceOk(ctx, events, n) {
      assert EventOk(ctx, events, n);
    }
    forall n | 0 <= n < |events| && ctx.schema < 5 ensures events[n].sequence == ctx.evicted + 1 + n {
      assert SequenceOk(ctx, events, n);
    }
    forall n | 0 <= n < |events| && ctx.schema >= 5 ensures events[n].sequence <= ctx.reserved {
      assert SequenceOk(ctx, events, n);
    }
  }

  lemma SpanOkMeans(events: seq<Event>, j: nat)
    requires j < |events| && Increasing(events)
    ensures SpanOk(events, j) <==> PairsMatch(events, j)
  {
    hide Increasing, StillOpen;
    LastPair(events, j);
    forall i: nat | Pair(events, i, j) ensures Ends(events[j]) {
      PairMeans(events, i, j);
    }
  }

  lemma CasterOkMeans(events: seq<Event>, j: nat)
    requires j < |events| && Increasing(events) && Payloads(events)
    ensures CasterOk(events, j) <==> BindingsMatch(events, j)
  {
    hide Increasing, StillOpen;
    LastBinding(events, j);
  }

  /** A readable list is accepted exactly when its sequence numbers and clocks run as the schema demands, parents come
      earlier, and events that pair up agree. */
  lemma AcceptedIff(ctx: Context, events: seq<Event>)
    requires Payloads(events)
    ensures Acceptable(ctx, events) <==>
              && InOrder(ctx, events) && ClocksRise(ctx, events) && ParentsEarlier(events)
              && forall j: nat | j < |events| :: PairsMatch(events, j) && BindingsMatch(events, j)
  {
    hide SpanOk, CasterOk, SequenceOk, InOrder, Increasing, PairsMatch, BindingsMatch, ClocksRise, ClockOk;
    if Acceptable(ctx, events) {
      AcceptableInOrder(ctx, events);
    }
    if InOrder(ctx, events) {
      OrderIncreases(ctx, events);
      forall j: nat | j < |events|
        ensures (SpanOk(events, j) <==> PairsMatch(events, j)) && (CasterOk(events, j) <==> BindingsMatch(events, j))
      {
        SpanOkMeans(events, j);
        CasterOkMeans(events, j);
      }
      ClocksMean(ctx, events);
      if Acceptable(ctx, events) {
        forall n: nat | n < |events|
          ensures ClockOk(ctx, events, n) && ParentOk(events[n]) && PairsMatch(events, n) && BindingsMatch(events, n)
        {
          assert EventOk(ctx, events, n);
        }
      }
    }
  }

  lemma ClocksMean(ctx: Context, events: seq<Event>)
    ensures ClocksRise(ctx, events) <==> forall n: nat | n < |events| :: ClockOk(ctx, events, n)
  {
    if forall n: nat | n < |events| :: ClockOk(ctx, events, n) {
      forall i, j | 0 <= i < j < |events| && (ctx.schema < 5 || events[i].identity.thread == events[j].identity.thread)
        ensures events[i].qpc <= events[j].qpc
      {
        assert ClockOk(ctx, events, j);
      }
    }
  }

  /** What the report of an accepted list says: its spans are the pairs, its unmatched events the strays and the begins
      no event ends, and each flag stands for an event the file shows. */
  lemma ReportMeans(ctx: Context, events: seq<Event>)
    requires Acceptable(ctx, events)
    ensures var r := ReportOf(events);
      && (forall s :: s in r.spans <==> Paired(events, |events|, s))
      && (forall p :: p in r.unmatched <==> exists n: nat ::
            n < |events| && (Stray(events, n) || Open(events, n, |events|)) && events[n].sequence == p)
      && (r.truncatedLabel <==> exists i | 0 <= i < |events| :: events[i].kind in {1, 2, 3, 4, 5, 6} && events[i].data[11] != 0)
      && (r.casterMetadataOmitted <==> exists i | 0 <= i < |events| :: events[i].kind == 11 && events[i].data[0] != 0)
      && (r.missingCasterInput <==>
            exists j: nat :: j < |events| && events[j].kind == 10 && forall i: nat :: !Binding(events, i, j))
      && (r.missingCasterBinding <==> exists i: nat :: Waiting(events, i, |events|))
  {
    hide SpansOf, UnpairedOf, LeftOpen, Stray, Open, Unpaired, Paired, Acceptable;
    AcceptableIncreases(ctx, events);
    SpansMean(events);
    UnmatchedMeans(events);
    CastersMean(events);
  }

  lemma SpansMean(events: seq<Event>)
    requires Increasing(events)
    ensures forall s :: s in SpansOf(events, |events|) <==> Paired(events, |events|, s)
  {
    forall s ensures s in SpansOf(events, |events|) <==> Paired(events, |events|, s) {
      SpansArePaired(events, |events|, s);
    }
  }

  lemma UnmatchedMeans(events: seq<Event>)
    requires Increasing(events)
    ensures forall p :: p in UnpairedOf(events, |events|) + LeftOpen(events, |events|) <==> exists n: nat ::
              n < |events| && (Stray(events, n) || Open(events, n, |events|)) && events[n].sequence == p
  {
    hide UnpairedOf, LeftOpen, Stray, Unpaired, Increasing;
    forall n: nat | n < |events| ensures Stray(events, n) <==> Unpaired(events, n) {
      StrayIsUnpaired(events, n);
    }
    forall p ensures p in UnpairedOf(events, |events|) + LeftOpen(events, |events|) <==> exists n: nat ::
              n < |events| && (Stray(events, n) || Open(events, n, |events|)) && events[n].sequence == p {
      UnpairedAre(events, |events|, p);
      LeftOpenAre(events, p);
    }
  }

  lemma CastersMean(events: seq<Event>)
    requires Increasing(events)
    ensures (exists i | 0 <= i < |events| :: Unbound(events, i))
       <==> exists j: nat :: j < |events| && events[j].kind == 10 && forall i: nat :: !Binding(events, i, j)
    ensures (exists i | 0 <= i < |events| :: OpenAtEnd(Casters, events, i)) <==> exists i: nat :: Waiting(events, i, |events|)
  {
    hide Increasing, Binding, Waiting, StillOpen;
    forall j: nat | j < |events|
      ensures Unbound(events, j) <==> events[j].kind == 10 && forall i: nat :: !Binding(events, i, j)
    {
      LastBinding(events, j);
    }
    forall i: nat | i < |events| ensures OpenAtEnd(Casters, events, i) <==> Waiting(events, i, |events|) {
      WaitingIsStillOpen(events, i, |events|);
    }
    WaitingInside(events);
  }

  lemma WaitingInside(events: seq<Event>)
    ensures forall i: nat :: Waiting(events, i, |events|) ==> i < |events|
  {
  }
}
