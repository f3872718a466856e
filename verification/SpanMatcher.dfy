/** The event loop of the strict frame-evidence reader: sequence and clock checks, and the pairing of begin and end
    events into CPU spans. */
module SpanMatcher {
  import opened Wrappers
  import opened CanonicalDecimal

  const U32_MAX := 0xFFFF_FFFF

  /** What the header fixes before the events are read. */
  datatype Context = Context(schema: int, session: nat, evicted: nat, reserved: nat)

  datatype RawEvent = RawEvent(sequence: string, session: string, parent: string, qpc: string, thread: int, kind: int,
                               owner: string, frame: string, mapEpoch: string, deviceEpoch: string, name: string,
                               data: seq<string>, words: seq<int>)

  datatype Identity = Identity(owner: nat, frame: nat, mapEpoch: nat, deviceEpoch: nat, thread: nat)

  datatype Event = Event(sequence: nat, parent: nat, qpc: nat, kind: nat, identity: Identity, name: string,
                         data: seq<nat>, words: seq<nat>)

  datatype Span = Span(begin: nat, end: nat, kind: nat, name: string, ticks: int)

  datatype Report = Report(spans: seq<Span>, unmatched: seq<nat>, truncatedLabel: bool, casterMetadataOmitted: bool,
                           missingCasterInput: bool, missingCasterBinding: bool)

  datatype Verdict = Accepted(report: Report) | Refused

  // One event, field by field

  function KindLimit(schema: int): int {
    if schema == 1 then 8 else if schema == 2 then 15 else if schema == 3 then 17 else 18
  }

  function Utf8Length(s: string): nat {
    if s == "" then 0
    else
      var c := s[|s| - 1] as int;
      Utf8Length(s[..|s| - 1]) + if c < 0x80 then 1 else if c < 0x800 then 2 else if c < 0x1_0000 then 3 else 4
  }

  predicate LabelOk(name: string) {
    Utf8Length(name) <= 31 && '\0' !in name
  }

  function DecodeData(data: seq<string>): (r: Option<seq<nat>>)
    ensures r.Some? <==> forall i | 0 <= i < |data| :: U64(data[i]).Some?
    ensures r.Some? ==> |r.value| == |data| && forall i | 0 <= i < |data| :: U64(data[i]) == Some(r.value[i])
  {
    if forall i | 0 <= i < |data| :: U64(data[i]).Some?
    then Some(seq(|data|, i requires 0 <= i < |data| && U64(data[i]).Some? => U64(data[i]).value))
    else None
  }

  function DecodeWords(words: seq<int>): (r: Option<seq<nat>>)
    ensures r.Some? <==> forall i | 0 <= i < |words| :: 0 <= words[i] <= U32_MAX
    ensures r.Some? ==> r.value == words
  {
    if forall i | 0 <= i < |words| :: 0 <= words[i] <= U32_MAX
    then Some(seq(|words|, i requires 0 <= i < |words| && words[i] >= 0 => words[i]))
    else None
  }

  /** The fields of one event; None where the reader raises. */
  function Decode(ctx: Context, r: RawEvent): Option<Event> {
    var sequence, session, parent, qpc := U64(r.sequence), U64(r.session), U64(r.parent), U64(r.qpc);
    var owner, frame, mapEpoch, deviceEpoch := U64(r.owner), U64(r.frame), U64(r.mapEpoch), U64(r.deviceEpoch);
    var data, words := DecodeData(r.data), DecodeWords(r.words);
    if sequence.None? || session != Some(ctx.session) || parent.None? || qpc.None? || owner.None? || frame.None?
       || mapEpoch.None? || deviceEpoch.None? || !(0 <= r.thread <= U32_MAX) || !(0 < r.kind <= KindLimit(ctx.schema))
       || !LabelOk(r.name) || |r.data| != 12 || |r.words| != 48 || data.None? || words.None?
    then None
    else Some(Event(sequence.value, parent.value, qpc.value, r.kind,
                    Identity(owner.value, frame.value, mapEpoch.value, deviceEpoch.value, r.thread),
                    r.name, data.value, words.value))
  }

  /** The decoded event keeps everything the raw one said, so comparing decoded fields is comparing the strings. */
  lemma DecodeIsInjective(ctx: Context, a: RawEvent, b: RawEvent)
    requires Decode(ctx, a).Some? && Decode(ctx, a) == Decode(ctx, b)
    ensures a == b
  {
    SameValueSameString(a.sequence, b.sequence);
    SameValueSameString(a.session, b.session);
    SameValueSameString(a.parent, b.parent);
    SameValueSameString(a.qpc, b.qpc);
    SameValueSameString(a.owner, b.owner);
    SameValueSameString(a.frame, b.frame);
    SameValueSameString(a.mapEpoch, b.mapEpoch);
    SameValueSameString(a.deviceEpoch, b.deviceEpoch);
    forall i | 0 <= i < 12 ensures a.data[i] == b.data[i] {
      SameValueSameString(a.data[i], b.data[i]);
    }
    assert a.words == b.words;
  }

  function DecodeAll(ctx: Context, raws: seq<RawEvent>): (r: Option<seq<Event>>)
    ensures r.Some? ==> |r.value| == |raws|
    ensures r.Some? <==> forall i | 0 <= i < |raws| :: Decode(ctx, raws[i]).Some?
    ensures r.Some? ==> forall i | 0 <= i < |raws| :: Decode(ctx, raws[i]) == Some(r.value[i])
  {
    if forall i | 0 <= i < |raws| :: Decode(ctx, raws[i]).Some?
    then Some(seq(|raws|, i requires 0 <= i < |raws| && Decode(ctx, raws[i]).Some? => Decode(ctx, raws[i]).value))
    else None
  }

  // Opening and closing events. Spans are closed by ends, caster inputs by bindings.

  datatype Ledger = Spans | Casters

  predicate Opens(l: Ledger, e: Event) {
    match l
    case Spans => e.kind == 1 || e.kind == 3 || e.kind == 5
    case Casters => e.kind == 9
  }

  predicate Closes(l: Ledger, e: Event) {
    match l
    case Spans => e.kind == 2 || e.kind == 4 || e.kind == 6
    case Casters => e.kind == 10
  }

  /** Among the first n events, the one that opened this sequence number and is still open. */
  function StillOpen(l: Ledger, events: seq<Event>, n: nat, sequence: nat): (r: Option<nat>)
    requires n <= |events|
    ensures r.Some? ==> r.value < n && Opens(l, events[r.value]) && events[r.value].sequence == sequence
  {
    if n == 0 then None
    else if Opens(l, events[n - 1]) && events[n - 1].sequence == sequence then Some(n - 1)
    else if Closes(l, events[n - 1]) && events[n - 1].parent == sequence then None
    else StillOpen(l, events, n - 1, sequence)
  }

  /** Still open means opened, and closed by no event since. */
  lemma {:induction false} StillOpenMeans(l: Ledger, events: seq<Event>, n: nat, i: nat)
    requires n <= |events| && Increasing(events)
    ensures i < n && StillOpen(l, events, n, events[i].sequence) == Some(i) <==>
              && i < n && Opens(l, events[i])
              && forall k | i < k < n :: !(Closes(l, events[k]) && events[k].parent == events[i].sequence)
  {
    if n > 0 {
      StillOpenMeans(l, events, n - 1, i);
    }
  }

  ghost predicate Increasing(events: seq<Event>) {
    forall i, j | 0 <= i < j < |events| :: events[i].sequence < events[j].sequence
  }

  predicate OpenPipeline(events: seq<Event>, n: nat, parent: nat)
    requires n <= |events|
  {
    var at := StillOpen(Spans, events, n, parent);
    at.Some? && events[at.value].kind == 3
  }

  // What the reader demands of event n, given the earlier ones

  predicate SequenceOk(ctx: Context, events: seq<Event>, n: nat)
    requires n < |events|
  {
    var sequence := events[n].sequence;
    if ctx.schema >= 5 then (if n == 0 then 0 else events[n - 1].sequence) < sequence <= ctx.reserved
    else sequence == ctx.evicted + 1 + n
  }

  predicate ClockOk(ctx: Context, events: seq<Event>, n: nat)
    requires n < |events|
  {
    forall i | 0 <= i < n ::
      ctx.schema < 5 || events[i].identity.thread == events[n].identity.thread ==> events[i].qpc <= events[n].qpc
  }

  predicate ParentOk(e: Event) {
    e.parent < e.sequence || e.parent == 0
  }

  predicate SpanOk(events: seq<Event>, n: nat)
    requires n < |events|
  {
    var e := events[n];
    Closes(Spans, e) ==>
      var at := StillOpen(Spans, events, n, e.parent);
      at.Some? ==>
        var b := events[at.value];
        b.kind == e.kind - 1 && b.identity == e.identity && b.name == e.name
  }

  predicate CasterOk(events: seq<Event>, n: nat)
    requires n < |events| && forall i | 0 <= i < |events| :: |events[i].data| == 12
  {
    var e := events[n];
    Closes(Casters, e) ==>
      var at := StillOpen(Casters, events, n, e.parent);
      at.Some? ==> events[at.value].identity == e.identity && events[at.value].data[0] == e.data[0]
  }

  predicate EventOk(ctx: Context, events: seq<Event>, n: nat)
    requires n < |events| && Payloads(events)
  {
    SequenceOk(ctx, events, n) && ClockOk(ctx, events, n) && ParentOk(events[n]) && SpanOk(events, n) && CasterOk(events, n)
  }

  predicate Payloads(events: seq<Event>) {
    forall i | 0 <= i < |events| :: |events[i].data| == 12
  }

  ghost predicate Acceptable(ctx: Context, events: seq<Event>) {
    Payloads(events) && forall n: nat | n < |events| :: EventOk(ctx, events, n)
  }

  // What the reader reports

  function SpansOf(events: seq<Event>, n: nat): seq<Span>
    requires n <= |events|
  {
    if n == 0 then []
    else
      var e := events[n - 1];
      var at := StillOpen(Spans, events, n - 1, e.parent);
      SpansOf(events, n - 1) +
      if Closes(Spans, e) && at.Some?
      then [Span(e.parent, e.sequence, e.kind, e.name, e.qpc - events[at.value].qpc)]
      else []
  }

  predicate Unpaired(events: seq<Event>, n: nat)
    requires n < |events|
  {
    var e := events[n];
    || (Closes(Spans, e) && StillOpen(Spans, events, n, e.parent).None?)
    || ((e.kind == 5 || e.kind == 7 || e.kind == 9) && !OpenPipeline(events, n, e.parent))
  }

  function UnpairedOf(events: seq<Event>, n: nat): seq<nat>
    requires n <= |events|
  {
    if n == 0 then []
    else UnpairedOf(events, n - 1) + if Unpaired(events, n - 1) then [events[n - 1].sequence] else []
  }

  predicate OpenAtEnd(l: Ledger, events: seq<Event>, i: nat)
    requires i < |events|
  {
    StillOpen(l, events, |events|, events[i].sequence) == Some(i)
  }

  /** Those of the first n events that open a span no event closes. */
  function LeftOpen(events: seq<Event>, n: nat): seq<nat>
    requires n <= |events|
  {
    if n == 0 then []
    else LeftOpen(events, n - 1) + if OpenAtEnd(Spans, events, n - 1) then [events[n - 1].sequence] else []
  }

  predicate Truncated(e: Event)
    requires |e.data| == 12
  {
    1 <= e.kind <= 6 && e.data[11] != 0
  }

  predicate Omitted(e: Event)
    requires |e.data| == 12
  {
    e.kind == 11 && e.data[0] != 0
  }

  predicate Unbound(events: seq<Event>, n: nat)
    requires n < |events|
  {
    Closes(Casters, events[n]) && StillOpen(Casters, events, n, events[n].parent).None?
  }

  function ReportOf(events: seq<Event>): Report
    requires Payloads(events)
  {
    Report(SpansOf(events, |events|), UnpairedOf(events, |events|) + LeftOpen(events, |events|),
           exists i | 0 <= i < |events| :: Truncated(events[i]), exists i | 0 <= i < |events| :: Omitted(events[i]),
           exists i | 0 <= i < |events| :: Unbound(events, i), exists i | 0 <= i < |events| :: OpenAtEnd(Casters, events, i))
  }

  // The loop

  /** The open begin (or caster) events, keyed by sequence number. */
  ghost predicate Tracks(l: Ledger, open: map<nat, Event>, events: seq<Event>, n: nat)
    requires n <= |events|
  {
    forall p: nat ::
      && (p in open <==> StillOpen(l, events, n, p).Some?)
      && (p in open ==> open[p] == events[StillOpen(l, events, n, p).value])
  }

  lemma TracksNext(l: Ledger, open: map<nat, Event>, events: seq<Event>, n: nat)
    requires n < |events| && Tracks(l, open, events, n)
    ensures Opens(l, events[n]) ==> Tracks(l, open[events[n].sequence := events[n]], events, n + 1)
    ensures !Opens(l, events[n]) && Closes(l, events[n]) ==> Tracks(l, open - {events[n].parent}, events, n + 1)
    ensures !Opens(l, events[n]) && !Closes(l, events[n]) ==> Tracks(l, open, events, n + 1)
  {
  }

  /** The clocks read so far: one per thread, or a single one in the early schemas. */
  function ClockKey(ctx: Context, e: Event): nat {
    if ctx.schema >= 5 then e.identity.thread else 0
  }

  ghost predicate ClocksAre(ctx: Context, clocks: map<nat, nat>, events: seq<Event>, n: nat)
    requires n <= |events|
  {
    && (forall i | 0 <= i < n ::
          ClockKey(ctx, events[i]) in clocks && events[i].qpc <= clocks[ClockKey(ctx, events[i])])
    && (forall k | k in clocks :: exists i | 0 <= i < n :: ClockKey(ctx, events[i]) == k && events[i].qpc == clocks[k])
  }

  method CheckClock(ctx: Context, clocks: map<nat, nat>, events: seq<Event>, n: nat) returns (ok: bool, next: map<nat, nat>)
    requires n < |events| && ClocksAre(ctx, clocks, events, n)
    ensures ok <==> ClockOk(ctx, events, n)
    ensures ok ==> ClocksAre(ctx, next, events, n + 1)
  {
    var k := ClockKey(ctx, events[n]);
    ok := k !in clocks || clocks[k] <= events[n].qpc;
    next := clocks[k := events[n].qpc];
  }

  ghost predicate Noticed(events: seq<Event>, n: nat, truncated: bool, omitted: bool)
    requires n <= |events| && Payloads(events)
  {
    && (truncated <==> exists i | 0 <= i < n :: Truncated(events[i]))
    && (omitted <==> exists i | 0 <= i < n :: Omitted(events[i]))
  }

  method Notice(events: seq<Event>, n: nat, truncated: bool, omitted: bool) returns (truncated': bool, omitted': bool)
    requires n < |events| && Payloads(events) && Noticed(events, n, truncated, omitted)
    ensures Noticed(events, n + 1, truncated', omitted')
  {
    var e := events[n];
    assert Truncated(e) <==> Truncated(events[n]);
    assert Omitted(e) <==> Omitted(events[n]);
    truncated' := truncated || (1 <= e.kind <= 6 && e.data[11] != 0);
    omitted' := omitted || (e.kind == 11 && e.data[0] != 0);
  }

  ghost predicate UnboundSeen(events: seq<Event>, n: nat)
    requires n <= |events|
  {
    exists i | 0 <= i < n :: Unbound(events, i)
  }

  ghost predicate GoodUpTo(ctx: Context, events: seq<Event>, n: nat)
    requires n <= |events| && Payloads(events)
  {
    forall i: nat | i < n :: EventOk(ctx, events, i)
  }

  /** Sequence, clock and parent of one event. */
  method Admit(ctx: Context, clocks: map<nat, nat>, events: seq<Event>, n: nat) returns (ok: bool, next: map<nat, nat>)
    requires n < |events| && Payloads(events) && ClocksAre(ctx, clocks, events, n)
    ensures ok <==> SequenceOk(ctx, events, n) && ClockOk(ctx, events, n) && ParentOk(events[n])
    ensures ok ==> ClocksAre(ctx, next, events, n + 1)
  {
    ok, next := CheckClock(ctx, clocks, events, n);
    ok := ok && SequenceOk(ctx, events, n) && ParentOk(events[n]);
  }

  /** Pops the begin an end event names. */
  method CloseSpan(ctx: Context, open: map<nat, Event>, events: seq<Event>, n: nat, spans: seq<Span>, unmatched: seq<nat>)
    returns (ok: bool, stillOpen: map<nat, Event>, spans': seq<Span>, unmatched': seq<nat>)
    requires n < |events| && Tracks(Spans, open, events, n) && Closes(Spans, events[n])
    requires spans == SpansOf(events, n) && unmatched == UnpairedOf(events, n)
    ensures ok <==> SpanOk(events, n)
    ensures ok ==> Tracks(Spans, stillOpen, events, n + 1)
    ensures ok ==> spans' == SpansOf(events, n + 1) && unmatched' == UnpairedOf(events, n + 1)
  {
    var e := events[n];
    TracksNext(Spans, open, events, n);
    stillOpen, spans', unmatched' := open - {e.parent}, spans, unmatched;
    if e.parent !in open {
      return true, stillOpen, spans, unmatched + [e.sequence];
    }
    var b := open[e.parent];
    ok := b.kind == e.kind - 1 && b.identity == e.identity && b.name == e.name;
    spans' := spans + [Span(e.parent, e.sequence, e.kind, e.name, e.qpc - b.qpc)];
  }

  /** Every other event: opens a span, or is checked against the pipeline span it names. */
  method OtherSpanEvent(ctx: Context, open: map<nat, Event>, events: seq<Event>, n: nat, unmatched: seq<nat>)
    returns (stillOpen: map<nat, Event>, unmatched': seq<nat>)
    requires n < |events| && Tracks(Spans, open, events, n) && !Closes(Spans, events[n])
    requires unmatched == UnpairedOf(events, n) && events[n].parent != events[n].sequence
    ensures Tracks(Spans, stillOpen, events, n + 1)
    ensures unmatched' == UnpairedOf(events, n + 1) && SpansOf(events, n + 1) == SpansOf(events, n)
  {
    var e := events[n];
    TracksNext(Spans, open, events, n);
    stillOpen, unmatched' := open, unmatched;
    if e.kind == 1 || e.kind == 3 || e.kind == 5 {
      stillOpen := open[e.sequence := e];
    }
    if e.kind == 5 || e.kind == 7 || e.kind == 9 {
      if e.parent !in stillOpen || stillOpen[e.parent].kind != 3 {
        unmatched' := unmatched + [e.sequence];
      }
    }
  }

  method SpanEvent(ctx: Context, open: map<nat, Event>, events: seq<Event>, n: nat, spans: seq<Span>, unmatched: seq<nat>)
    returns (ok: bool, stillOpen: map<nat, Event>, spans': seq<Span>, unmatched': seq<nat>)
    requires n < |events| && Tracks(Spans, open, events, n) && events[n].parent != events[n].sequence
    requires spans == SpansOf(events, n) && unmatched == UnpairedOf(events, n)
    ensures ok <==> SpanOk(events, n)
    ensures ok ==> Tracks(Spans, stillOpen, events, n + 1)
    ensures ok ==> spans' == SpansOf(events, n + 1) && unmatched' == UnpairedOf(events, n + 1)
  {
    if events[n].kind == 2 || events[n].kind == 4 || events[n].kind == 6 {
      ok, stillOpen, spans', unmatched' := CloseSpan(ctx, open, events, n, spans, unmatched);
    } else {
      ok, spans' := true, spans;
      stillOpen, unmatched' := OtherSpanEvent(ctx, open, events, n, unmatched);
    }
  }

  /** Caster inputs are remembered until the binding that names them. */
  method CasterEvent(open: map<nat, Event>, events: seq<Event>, n: nat, missing: bool)
    returns (ok: bool, stillOpen: map<nat, Event>, missing': bool)
    requires n < |events| && Payloads(events) && Tracks(Casters, open, events, n)
    requires missing <==> UnboundSeen(events, n)
    ensures ok <==> CasterOk(events, n)
    ensures ok ==> Tracks(Casters, stillOpen, events, n + 1)
    ensures missing' <==> UnboundSeen(events, n + 1)
  {
    var e := events[n];
    TracksNext(Casters, open, events, n);
    ok, stillOpen, missing' := true, open, missing;
    if e.kind == 9 {
      stillOpen := open[e.sequence := e];
    } else if e.kind == 10 {
      stillOpen := open - {e.parent};
      if e.parent !in open {
        missing' := true;
        assert Unbound(events, n);
      } else {
        ok := open[e.parent].identity == e.identity && open[e.parent].data[0] == e.data[0];
      }
    }
  }

  /** What is left of the open spans, in event order. */
  method Remaining(open: map<nat, Event>, events: seq<Event>) returns (left: seq<nat>)
    requires Tracks(Spans, open, events, |events|) && Increasing(events)
    ensures left == LeftOpen(events, |events|)
  {
    left := [];
    for i := 0 to |events|
      invariant left == LeftOpen(events, i)
    {
      if events[i].sequence in open && Opens(Spans, events[i]) {
        left := left + [events[i].sequence];
      }
    }
  }

  /** The variables of the loop. */
  datatype Progress = Progress(open: map<nat, Event>, casters: map<nat, Event>, clocks: map<nat, nat>,
                               spans: seq<Span>, unmatched: seq<nat>, truncated: bool, omitted: bool, unbound: bool)

  ghost predicate ReadUpTo(ctx: Context, events: seq<Event>, n: nat, p: Progress)
    requires n <= |events| && Payloads(events)
  {
    && Tracks(Spans, p.open, events, n) && Tracks(Casters, p.casters, events, n) && ClocksAre(ctx, p.clocks, events, n)
    && p.spans == SpansOf(events, n) && p.unmatched == UnpairedOf(events, n)
    && Noticed(events, n, p.truncated, p.omitted) && (p.unbound <==> UnboundSeen(events, n))
  }

  method ReadEvent(ctx: Context, events: seq<Event>, n: nat, p: Progress) returns (ok: bool, next: Progress)
    requires n < |events| && Payloads(events) && ReadUpTo(ctx, events, n, p)
    ensures ok <==> EventOk(ctx, events, n)
    ensures ok ==> ReadUpTo(ctx, events, n + 1, next)
  {
    next := p;
    var clocks;
    ok, clocks := Admit(ctx, p.clocks, events, n);
    if !ok {
      return;
    }
    var truncated, omitted := Notice(events, n, p.truncated, p.omitted);
    var open, spans, unmatched;
    ok, open, spans, unmatched := SpanEvent(ctx, p.open, events, n, p.spans, p.unmatched);
    if !ok {
      return;
    }
    var casters, unbound;
    ok, casters, unbound := CasterEvent(p.casters, events, n, p.unbound);
    next := Progress(open, casters, clocks, spans, unmatched, truncated, omitted, unbound);
  }

  /** The reader on a whole event list: it refuses exactly the lists with an unreadable event or an event that breaks a
      rule, and otherwise reports exactly the pairing above. */
  method Analyze(ctx: Context, raws: seq<RawEvent>) returns (v: Verdict)
    ensures v.Refused? <==> DecodeAll(ctx, raws).None? || !Acceptable(ctx, DecodeAll(ctx, raws).value)
    ensures v.Accepted? ==> Payloads(DecodeAll(ctx, raws).value) && v.report == ReportOf(DecodeAll(ctx, raws).value)
  {
    var decoded := DecodeAll(ctx, raws);
    if decoded.None? {
      return Refused;
    }
    DecodedPayloads(ctx, raws);
    v := MatchSpans(ctx, decoded.value);
  }

  lemma DecodedPayloads(ctx: Context, raws: seq<RawEvent>)
    requires DecodeAll(ctx, raws).Some?
    ensures Payloads(DecodeAll(ctx, raws).value)
  {
  }

  method MatchSpans(ctx: Context, events: seq<Event>) returns (v: Verdict)
    requires Payloads(events)
    ensures v.Refused? <==> !Acceptable(ctx, events)
    ensures v.Accepted? ==> v.report == ReportOf(events)
  {
    var p := Progress(map[], map[], map[], [], [], false, false, false);
    for n := 0 to |events|
      invariant ReadUpTo(ctx, events, n, p) && GoodUpTo(ctx, events, n)
    {
      var ok, next := ReadEvent(ctx, events, n, p);
      if !ok {
        return Refused;
      }
      p := next;
    }
    AcceptableIncreases(ctx, events);
    v := Conclude(ctx, events, p);
  }

  method Conclude(ctx: Context, events: seq<Event>, p: Progress) returns (v: Verdict)
    requires Payloads(events) && Increasing(events) && ReadUpTo(ctx, events, |events|, p)
    ensures v == Accepted(ReportOf(events))
  {
    var left := Remaining(p.open, events);
    CastersLeft(p.casters, events);
    return Accepted(Report(p.spans, p.unmatched + left, p.truncated, p.omitted, p.unbound, p.casters != map[]));
  }

  lemma CastersLeft(casters: map<nat, Event>, events: seq<Event>)
    requires Tracks(Casters, casters, events, |events|)
    ensures casters != map[] <==> exists i | 0 <= i < |events| :: OpenAtEnd(Casters, events, i)
  {
    if casters != map[] {
      var p :| p in casters;
      var i := StillOpen(Casters, events, |events|, p).value;
      assert OpenAtEnd(Casters, events, i);
    }
  }

  lemma AcceptableIncreases(ctx: Context, events: seq<Event>)
    requires Acceptable(ctx, events)
    ensures Increasing(events) && forall i | 0 <= i < |events| :: events[i].sequence > 0
  {
    forall j: nat | j < |events| ensures events[j].sequence > 0 && forall i | 0 <= i < j :: events[i].sequence < events[j].sequence {
      IncreasesUpTo(ctx, events, j);
    }
  }

  lemma {:induction false} IncreasesUpTo(ctx: Context, events: seq<Event>, j: nat)
    requires Acceptable(ctx, events) && j < |events|
    ensures events[j].sequence > 0 && forall i | 0 <= i < j :: events[i].sequence < events[j].sequence
  {
    assert EventOk(ctx, events, j);
    if j > 0 {
      IncreasesUpTo(ctx, events, j - 1);
      assert EventOk(ctx, events, j - 1);
    }
  }

  // What an accepted list's report means

  /** Each reported span pairs one begin event with one strictly later end event of the same identity and name, that
      names it as parent; it was not closed in between, and its duration is not negative. */
  lemma {:induction false} SpanIsPair(ctx: Context, events: seq<Event>, n: nat, k: nat) returns (i: nat, j: nat)
    requires Acceptable(ctx, events) && n <= |events| && k < |SpansOf(events, n)|
    ensures i < j < n && StillOpen(Spans, events, j, events[i].sequence) == Some(i)
    ensures var s, b, e := SpansOf(events, n)[k], events[i], events[j];
      && s.begin == b.sequence == e.parent && s.end == e.sequence && s.begin < s.end
      && Opens(Spans, b) && e.kind == b.kind + 1 && s.kind == e.kind
      && b.identity == e.identity && b.name == e.name == s.name
      && s.ticks == e.qpc - b.qpc >= 0
  {
    if k < |SpansOf(events, n - 1)| {
      i, j := SpanIsPair(ctx, events, n - 1, k);
    } else {
      j := n - 1;
      assert EventOk(ctx, events, j);
      i := StillOpen(Spans, events, j, events[j].parent).value;
      AcceptableIncreases(ctx, events);
    }
  }

  /** Every end event whose begin is open is reported. */
  lemma {:induction false} PairIsReported(events: seq<Event>, n: nat, j: nat) returns (k: nat)
    requires n <= |events| && j < n && Closes(Spans, events[j])
    requires StillOpen(Spans, events, j, events[j].parent).Some?
    ensures k < |SpansOf(events, n)| && SpansOf(events, n)[k].end == events[j].sequence
    ensures SpansOf(events, n)[k].begin == events[j].parent
  {
    if j == n - 1 {
      k := |SpansOf(events, n - 1)|;
    } else {
      k := PairIsReported(events, n - 1, j);
    }
  }

  lemma {:induction false} ClosedForGood(events: seq<Event>, j: nat, n: nat)
    requires j < n <= |events| && Increasing(events)
    requires Closes(Spans, events[j]) && events[j].parent < events[j].sequence
    ensures StillOpen(Spans, events, n, events[j].parent).None?
  {
    if n > j + 1 {
      ClosedForGood(events, j, n - 1);
    }
  }

  /** No begin is used by two spans, and spans are reported in the order of their ends. */
  lemma {:induction false} NoBeginTwice(ctx: Context, events: seq<Event>, n: nat, k: nat, m: nat)
    requires Acceptable(ctx, events) && n <= |events| && k < m < |SpansOf(events, n)|
    ensures SpansOf(events, n)[k].begin != SpansOf(events, n)[m].begin
    ensures SpansOf(events, n)[k].end < SpansOf(events, n)[m].end
  {
    hide Acceptable;
    if m < |SpansOf(events, n - 1)| {
      NoBeginTwice(ctx, events, n - 1, k, m);
    } else {
      AcceptableIncreases(ctx, events);
      var i, j := SpanIsPair(ctx, events, n - 1, k);
      ClosedForGood(events, j, n - 1);
    }
  }

  // Every begin is accounted for

  function Begins(events: seq<Event>, n: nat): nat
    requires n <= |events|
  {
    if n == 0 then 0 else Begins(events, n - 1) + if Opens(Spans, events[n - 1]) then 1 else 0
  }

  ghost function OpenSet(events: seq<Event>, n: nat): set<nat>
    requires n <= |events|
  {
    if n == 0 then {}
    else
      var e := events[n - 1];
      if Opens(Spans, e) then OpenSet(events, n - 1) + {e.sequence}
      else if Closes(Spans, e) then OpenSet(events, n - 1) - {e.parent}
      else OpenSet(events, n - 1)
  }

  lemma {:induction false} OpenSetIsStillOpen(events: seq<Event>, n: nat)
    requires n <= |events|
    ensures forall p: nat :: p in OpenSet(events, n) <==> StillOpen(Spans, events, n, p).Some?
  {
    if n > 0 {
      OpenSetIsStillOpen(events, n - 1);
    }
  }

  lemma FreshSequence(events: seq<Event>, n: nat)
    requires n < |events| && Increasing(events)
    ensures events[n].sequence !in OpenSet(events, n)
  {
    OpenSetIsStillOpen(events, n);
  }

  lemma SetSteps(open: set<nat>, x: nat)
    ensures x !in open ==> |open + {x}| == |open| + 1
    ensures x in open ==> |open - {x}| == |open| - 1
    ensures x !in open ==> open - {x} == open
  {
  }

  lemma SpansGrow(events: seq<Event>, n: nat)
    requires n < |events|
    ensures |SpansOf(events, n + 1)| == |SpansOf(events, n)| +
              if Closes(Spans, events[n]) && events[n].parent in OpenSet(events, n) then 1 else 0
  {
    OpenSetIsStillOpen(events, n);
  }

  lemma OpenSetGrows(events: seq<Event>, n: nat)
    requires n < |events| && Increasing(events)
    ensures |OpenSet(events, n + 1)| == |OpenSet(events, n)| +
              (if Opens(Spans, events[n]) then 1
               else if Closes(Spans, events[n]) && events[n].parent in OpenSet(events, n) then -1 else 0)
  {
    FreshSequence(events, n);
    var e := events[n];
    SetSteps(OpenSet(events, n), if Opens(Spans, e) then e.sequence else e.parent);
  }

  lemma {:induction false} OpenPlusReported(events: seq<Event>, n: nat)
    requires n <= |events| && Increasing(events)
    ensures Begins(events, n) == |SpansOf(events, n)| + |OpenSet(events, n)|
  {
    if n > 0 {
      var m := n - 1;
      OpenPlusReported(events, m);
      BeginsGrow(events, m);
      SpansGrow(events, m);
      OpenSetGrows(events, m);
      assert Begins(events, m + 1) == |SpansOf(events, m + 1)| + |OpenSet(events, m + 1)|;
    }
  }

  lemma BeginsGrow(events: seq<Event>, n: nat)
    requires n < |events|
    ensures Begins(events, n + 1) == Begins(events, n) + if Opens(Spans, events[n]) then 1 else 0
  {
  }

  lemma {:induction false} LeftOpenIsOpen(events: seq<Event>, n: nat)
    requires n <= |events|
    ensures forall p: nat :: p in LeftOpen(events, n) <==>
              StillOpen(Spans, events, |events|, p).Some? && StillOpen(Spans, events, |events|, p).value < n
  {
    if n > 0 {
      LeftOpenIsOpen(events, n - 1);
      var last := events[n - 1].sequence;
      forall p: nat ensures p in LeftOpen(events, n) <==>
              StillOpen(Spans, events, |events|, p).Some? && StillOpen(Spans, events, |events|, p).value < n {
        assert p in LeftOpen(events, n) <==> p in LeftOpen(events, n - 1) || (OpenAtEnd(Spans, events, n - 1) && p == last);
      }
    }
  }

  ghost function Elements(s: seq<nat>): set<nat> {
    set p | p in s
  }

  lemma OneMoreElement(s: seq<nat>, x: nat)
    requires x !in s
    ensures |Elements(s + [x])| == |Elements(s)| + 1
  {
    assert Elements(s + [x]) == Elements(s) + {x};
  }

  lemma {:induction false} LeftOpenCounts(events: seq<Event>, n: nat)
    requires n <= |events|
    ensures |LeftOpen(events, n)| == |Elements(LeftOpen(events, n))|
  {
    if n > 0 {
      LeftOpenCounts(events, n - 1);
      LeftOpenIsOpen(events, n - 1);
      var before, last := LeftOpen(events, n - 1), events[n - 1].sequence;
      if OpenAtEnd(Spans, events, n - 1) {
        OneMoreElement(before, last);
        assert LeftOpen(events, n) == before + [last];
      } else {
        assert LeftOpen(events, n) == before;
      }
    }
  }

  /** Begin events = reported spans + spans left open. */
  lemma BeginsAreAccounted(ctx: Context, events: seq<Event>)
    requires Acceptable(ctx, events)
    ensures Begins(events, |events|) == |ReportOf(events).spans| + |LeftOpen(events, |events|)|
    ensures forall p :: p in LeftOpen(events, |events|) ==> p in ReportOf(events).unmatched
  {
    AcceptableIncreases(ctx, events);
    OpenPlusReported(events, |events|);
    OpenSetIsStillOpen(events, |events|);
    LeftOpenIsOpen(events, |events|);
    LeftOpenCounts(events, |events|);
    assert Elements(LeftOpen(events, |events|)) == OpenSet(events, |events|);
  }
}
