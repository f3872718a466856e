/** The wire form of a palette event, written slot by slot: which carrier slot of which format version holds what. */
module PaletteWire {
  import opened CanonicalDecimal
  import opened PaletteEvent
  import opened Wrappers

  // Codes

  function StageCode(stage: Stage): nat {
    match stage
    case Rejected => 1
    case ServedCandidate => 2
    case Enqueued => 3
    case Drawn => 4
    case FirstSight => 5
  }

  function SourceCode(source: Source): nat {
    match source
    case NoSource => 0
    case ArenaSlot => 1
    case ProducerSnapshot => 2
    case PoseKernel => 3
    case DrawTimeCaptured => 4
    case PublishedRegistry => 5
    case OwnedPartSnapshot => 6
    case UnknownSource => 7
  }

  function TerminalCode(terminal: Terminal): nat {
    match terminal
    case NoTerminal => 0
    case Recovered => 1
    case WindowExpired => 2
    case ObjectGone => 3
    case TableFull => 4
    case EventLost => 5
    case Unclosed => 6
    case ObservationClosed => 7
  }

  function ReasonCode(reason: Reason): nat {
    match reason
    case R0 => 0
    case R1 => 1
    case R2 => 2
    case R3 => 3
    case NotChecked => 0xFE
    case UnknownReason => 0xFF
  }

  function ChainCode(chainType: ChainType): nat {
    match chainType
    case RejectionRecovery => 0
    case Observation => 1
  }

  // Slots

  function Low(n: nat): nat {
    n % U32_LIMIT
  }

  function High(n: nat): nat {
    n / U32_LIMIT
  }

  function DataOf(e: Event, i: nat): nat {
    match i
    case 0 => e.key.renderablePart
    case 1 => e.key.runtimeModelPtr
    case 2 => e.key.lifecycleIdentity
    case 3 => if e.windowSegment.Some? then e.windowSegment.value else 0
    case 4 => ChainCode(e.chainType)
    case 9 => e.frames.manifestFrameSerial
    case 10 => SourceCode(e.source)
    case 11 => e.hitKey
    case _ => 0
  }

  /** The five flags of words32[28]. */
  function FlagsOf(e: Event): nat {
    Number(e.sawSubmit) + 2 * Number(e.sawDraw) + 4 * Number(e.selectionCleared) + 8 * Number(e.frames.manifestUnknown)
    + 16 * Number(e.frames.nativeUnknown)
  }

  function WordOf(e: Event, i: nat): nat {
    match i
    case 0 => ReasonCode(e.reason)
    case 1 => e.key.jHandle
    case 2 => e.key.rawcode
    case 5 => StageCode(e.stage)
    case 10 => Low(e.session)
    case 12 => e.thread
    case 14 => Number(e.identityWeak)
    case 15 => e.proofKind
    case 16 => Number(e.epochUnknown)
    case 18 => TerminalCode(e.terminal)
    case 20 => Low(e.deltaFrames)
    case 21 => Low(e.frames.nativeFrameTag)
    case 22 => e.hitCount
    case 23 => e.chainSequence
    case 24 => Low(e.frames.recordFrameSerial)
    case 25 => High(e.frames.recordFrameSerial)
    case 26 => Low(e.frames.manifestPublishRevision)
    case 27 => High(e.frames.manifestPublishRevision)
    case 28 => FlagsOf(e)
    case 29 => High(e.session)
    case 30 => Low(e.firstRejectFrame)
    case 31 => High(e.firstRejectFrame)
    case 32 => High(e.frames.nativeFrameTag)
    case 33 => High(e.deltaFrames)
    case _ => 0
  }

  function Encode(e: Event): Wire {
    Wire(Spelled(e.sequence), Spelled(e.session), e.thread, e.frames.renderFrame, e.key.mapEpoch, e.key.deviceEpoch,
         seq(12, i requires 0 <= i < 12 => Spelled(DataOf(e, i))), seq(48, i requires 0 <= i < 48 => WordOf(e, i)))
  }

  /** The values fit their slots. */
  predicate Fits(e: Event) {
    && e.sequence < U64_LIMIT && e.session < U64_LIMIT && e.thread < U32_LIMIT
    && e.key.renderablePart < U64_LIMIT && e.key.runtimeModelPtr < U64_LIMIT && e.key.lifecycleIdentity < U64_LIMIT
    && e.key.jHandle < U32_LIMIT && e.key.rawcode < U32_LIMIT
    && e.frames.manifestFrameSerial < U64_LIMIT && e.frames.manifestPublishRevision < U64_LIMIT
    && e.frames.recordFrameSerial < U64_LIMIT && e.frames.nativeFrameTag < U64_LIMIT
    && e.hitKey < U64_LIMIT && e.hitCount < U32_LIMIT && e.chainSequence < U32_LIMIT
    && e.firstRejectFrame < U64_LIMIT && e.deltaFrames < U64_LIMIT
    && (e.windowSegment.Some? ==> e.windowSegment.value < U64_LIMIT)
  }

  /** What a record must satisfy to have a wire form in a format version. */
  predicate Encodable(version: int, e: Event) {
    Shaped(version, e) && Fits(e) && e.key.sessionGeneration == e.session
  }

  // Reading the slots back

  lemma SplitJoins(n: nat)
    requires n < U64_LIMIT
    ensures Low(n) < U32_LIMIT && High(n) < U32_LIMIT && Join64(Low(n), High(n)) == n
  {
  }

  lemma JoinFits(lo: nat, hi: nat)
    requires lo < U32_LIMIT && hi < U32_LIMIT
    ensures Join64(lo, hi) < U64_LIMIT
  {
  }

  lemma FlagBits(a: bool, b: bool, c: bool, d: bool, e: bool)
    ensures var n := Number(a) + 2 * Number(b) + 4 * Number(c) + 8 * Number(d) + 16 * Number(e);
      n < 32 && Bit(n, 1) == a && Bit(n, 2) == b && Bit(n, 4) == c && Bit(n, 8) == d && Bit(n, 16) == e
  {
  }

  lemma FlagsReadBack(e: Event)
    ensures FlagsOf(e) < 32 && Bit(FlagsOf(e), 1) == e.sawSubmit && Bit(FlagsOf(e), 2) == e.sawDraw
    ensures Bit(FlagsOf(e), 4) == e.selectionCleared && Bit(FlagsOf(e), 8) == e.frames.manifestUnknown
    ensures Bit(FlagsOf(e), 16) == e.frames.nativeUnknown
  {
    hide Bit, Number;
    FlagBits(e.sawSubmit, e.sawDraw, e.selectionCleared, e.frames.manifestUnknown, e.frames.nativeUnknown);
  }

  lemma CodesReadBack(version: int, e: Event)
    requires Shaped(version, e)
    ensures StageOf(version, StageCode(e.stage)) == Some(e.stage) && SourceOf(SourceCode(e.source)) == Some(e.source)
    ensures TerminalOf(version, TerminalCode(e.terminal)) == Some(e.terminal)
    ensures ReasonOf(ReasonCode(e.reason)) == Some(e.reason)
    ensures ChainTypeOf(version, ChainCode(e.chainType)) == Some(e.chainType)
    ensures version < 4 ==> ChainCode(e.chainType) == 0
  {
  }

  lemma SlotsFit(e: Event, i: nat)
    requires Fits(e) && e.proofKind <= 1
    ensures DataOf(e, i) < U64_LIMIT
    ensures WordOf(e, i) < U32_LIMIT
  {
    hide Bit;
    FlagsReadBack(e);
  }

  lemma SlotsReadBack(e: Event)
    requires Fits(e) && e.proofKind <= 1
    ensures Slots(Encode(e))
    ensures forall i: nat | i < 12 :: Data(Encode(e), i) == DataOf(e, i)
    ensures forall i: nat | i < 48 :: Word(Encode(e), i) == WordOf(e, i)
  {
    hide Fits, DataOf, WordOf, Spelled, U64;
    var w := Encode(e);
    forall i: nat | i < 12 ensures U64(w.data[i]) == Some(DataOf(e, i)) {
      SlotsFit(e, i);
      SpelledIsAccepted(DataOf(e, i));
    }
    forall i: nat | i < 48 ensures w.words[i] == WordOf(e, i) < U32_LIMIT {
      SlotsFit(e, i);
    }
  }

  lemma ReservedAreZero(version: int, e: Event, i: nat)
    requires Shaped(version, e)
    ensures ReservedData(version, i) ==> DataOf(e, i) == 0
    ensures ReservedWord(version, i) ==> WordOf(e, i) == 0
  {
  }

  lemma CarrierAccepted(version: int, e: Event)
    requires Encodable(version, e)
    ensures Slots(Encode(e)) && CarrierOk(version, Encode(e)) && CodesKnown(version, Encode(e))
  {
    hide Spelled, U64, Fits, StageOf, SourceOf, TerminalOf, ReasonOf, ChainTypeOf, Join64, Low, High, Bit, ReservedData,
         ReservedWord;
    SlotsReadBack(e);
    CodesReadBack(version, e);
    FlagsReadBack(e);
    FitsSession(e);
    forall i: nat | i < 48
      ensures (ReservedWord(version, i) ==> WordOf(e, i) == 0) && (ReservedData(version, i) ==> DataOf(e, i) == 0)
    {
      ReservedAreZero(version, e, i);
    }
  }

  lemma FitsSession(e: Event)
    requires Fits(e)
    ensures U64(Spelled(e.sequence)) == Some(e.sequence) && U64(Spelled(e.session)) == Some(e.session)
    ensures Join64(Low(e.session), High(e.session)) == e.session
  {
    hide Spelled, U64;
    SpelledIsAccepted(e.sequence);
    SpelledIsAccepted(e.session);
    SplitJoins(e.session);
  }

  lemma WideReadBack(e: Event)
    requires Fits(e)
    ensures Join64(Low(e.deltaFrames), High(e.deltaFrames)) == e.deltaFrames
    ensures Join64(Low(e.firstRejectFrame), High(e.firstRejectFrame)) == e.firstRejectFrame
    ensures var f := e.frames;
      && Join64(Low(f.nativeFrameTag), High(f.nativeFrameTag)) == f.nativeFrameTag
      && Join64(Low(f.recordFrameSerial), High(f.recordFrameSerial)) == f.recordFrameSerial
      && Join64(Low(f.manifestPublishRevision), High(f.manifestPublishRevision)) == f.manifestPublishRevision
  {
    hide Join64, Low, High;
    SplitJoins(e.deltaFrames);
    SplitJoins(e.firstRejectFrame);
    SplitJoins(e.frames.nativeFrameTag);
    SplitJoins(e.frames.recordFrameSerial);
    SplitJoins(e.frames.manifestPublishRevision);
  }

  lemma OneBit(b: bool)
    ensures Bit(Number(b), 1) == b
  {
  }

  /** Writing a record slot by slot and decoding it gives the record back: every field is read from its own slot. */
  lemma EncodedDecodes(version: int, e: Event)
    requires Encodable(version, e)
    ensures Decode(version, Encode(e)) == Some(e)
  {
    hide Spelled, U64, Fits, StageOf, SourceOf, TerminalOf, ReasonOf, ChainTypeOf, Join64, Low, High, Bit, FlagsOf,
         CarrierOk, CodesKnown, Slots, Number, ReservedData, ReservedWord, StageCode, SourceCode, TerminalCode, ReasonCode;
    CarrierAccepted(version, e);
    SlotsReadBack(e);
    CodesReadBack(version, e);
    FlagsReadBack(e);
    FitsSession(e);
    WideReadBack(e);
    OneBit(e.identityWeak);
    OneBit(e.epochUnknown);
  }

  lemma DecodedFits(version: int, w: Wire)
    requires Decode(version, w).Some?
    ensures Encodable(version, Decode(version, w).value)
  {
    hide Join64, StageOf, SourceOf, TerminalOf, ReasonOf, ChainTypeOf, Bit;
    DecodedIsShaped(version, w);
    forall i: nat | i < 12 ensures Data(w, i) < U64_LIMIT {
      AcceptedIsSpelled(w.data[i]);
    }
    AcceptedIsSpelled(w.sequence);
    AcceptedIsSpelled(w.session);
    JoinFits(Word(w, 26), Word(w, 27));
    JoinFits(Word(w, 24), Word(w, 25));
    JoinFits(Word(w, 21), Word(w, 32));
    JoinFits(Word(w, 30), Word(w, 31));
    JoinFits(Word(w, 20), Word(w, 33));
  }

  /** A wire event decodes to a record exactly when it is the wire form of that record, for every format version: nothing
      else is accepted, and no field is read from another field's slot. */
  lemma DecodesIff(version: int, w: Wire, e: Event)
    ensures Decode(version, w) == Some(e) <==> Encodable(version, e) && w == Encode(e)
  {
    if Decode(version, w) == Some(e) {
      DecodedFits(version, w);
      EncodedDecodes(version, e);
      DecodingLosesNothing(version, w, Encode(e));
      assert w.frame == e.frames.renderFrame && w.mapEpoch == e.key.mapEpoch && w.deviceEpoch == e.key.deviceEpoch;
    }
    if Encodable(version, e) && w == Encode(e) {
      EncodedDecodes(version, e);
    }
  }
}
