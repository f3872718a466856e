/** One palette-object event on the wire: the carrier slots by format version, and the record decoded from them. */
module PaletteEvent {
  import opened CanonicalDecimal
  import opened Wrappers

  const U32_LIMIT := 0x1_0000_0000

  /** The event as exported; session, frame and the epochs were already read by the frame-evidence reader. */
  datatype Wire = Wire(sequence: string, session: string, thread: int, frame: string, mapEpoch: string,
                       deviceEpoch: string, data: seq<string>, words: seq<int>)

  datatype Stage = Rejected | ServedCandidate | Enqueued | Drawn | FirstSight

  datatype Source = NoSource | ArenaSlot | ProducerSnapshot | PoseKernel | DrawTimeCaptured | PublishedRegistry
                  | OwnedPartSnapshot | UnknownSource

  datatype ChainType = RejectionRecovery | Observation

  datatype Terminal = NoTerminal | Recovered | WindowExpired | ObjectGone | TableFull | EventLost | Unclosed
                    | ObservationClosed

  datatype Reason = R0 | R1 | R2 | R3 | NotChecked | UnknownReason

  datatype Key = Key(renderablePart: nat, runtimeModelPtr: nat, jHandle: nat, rawcode: nat, sessionGeneration: nat,
                     mapEpoch: string, deviceEpoch: string, lifecycleIdentity: nat)

  datatype Frames = Frames(renderFrame: string, manifestFrameSerial: nat, manifestPublishRevision: nat,
                           recordFrameSerial: nat, nativeFrameTag: nat, manifestUnknown: bool, nativeUnknown: bool)

  datatype Event = Event(sequence: nat, session: nat, thread: nat, stage: Stage, source: Source, chainType: ChainType,
                         terminal: Terminal, reason: Reason, key: Key, frames: Frames, hitKey: nat, hitCount: nat,
                         chainSequence: nat, firstRejectFrame: nat, deltaFrames: nat, sawSubmit: bool, sawDraw: bool,
                         selectionCleared: bool, identityWeak: bool, epochUnknown: bool, windowSegment: Option<nat>,
                         proofKind: nat)

  // Tables

  function StageOf(version: int, code: nat): Option<Stage> {
    match code
    case 1 => Some(Rejected)
    case 2 => Some(ServedCandidate)
    case 3 => Some(Enqueued)
    case 4 => Some(Drawn)
    case 5 => if version >= 3 then Some(FirstSight) else None
    case _ => None
  }

  function SourceOf(code: nat): Option<Source> {
    match code
    case 0 => Some(NoSource)
    case 1 => Some(ArenaSlot)
    case 2 => Some(ProducerSnapshot)
    case 3 => Some(PoseKernel)
    case 4 => Some(DrawTimeCaptured)
    case 5 => Some(PublishedRegistry)
    case 6 => Some(OwnedPartSnapshot)
    case 7 => Some(UnknownSource)
    case _ => None
  }

  function TerminalOf(version: int, code: nat): Option<Terminal> {
    match code
    case 0 => Some(NoTerminal)
    case 1 => Some(Recovered)
    case 2 => Some(WindowExpired)
    case 3 => Some(ObjectGone)
    case 4 => Some(TableFull)
    case 5 => Some(EventLost)
    case 6 => Some(Unclosed)
    case 7 => if version >= 4 then Some(ObservationClosed) else None
    case _ => None
  }

  function ReasonOf(code: nat): Option<Reason> {
    match code
    case 0 => Some(R0)
    case 1 => Some(R1)
    case 2 => Some(R2)
    case 3 => Some(R3)
    case 0xFE => Some(NotChecked)
    case 0xFF => Some(UnknownReason)
    case _ => None
  }

  function ChainTypeOf(version: int, code: nat): Option<ChainType> {
    if version < 4 then Some(RejectionRecovery)
    else if code == 0 then Some(RejectionRecovery)
    else if code == 1 then Some(Observation)
    else None
  }

  // Carrier slots

  /** data[3] carries the window segment from version 2, data[4] the chain type from version 4. */
  predicate ReservedData(version: int, i: nat) {
    (i == 3 && version < 2) || (i == 4 && version < 4) || 5 <= i <= 8
  }

  /** words32[15] carries the identity proof kind from version 2. */
  predicate ReservedWord(version: int, i: nat) {
    || i == 3 || i == 4 || 6 <= i <= 9 || i == 11 || i == 13 || (i == 15 && version < 2) || i == 17 || i == 19
    || 34 <= i <= 47
  }

  function Join64(lo: nat, hi: nat): nat {
    hi * U32_LIMIT + lo
  }

  function Bit(word: nat, weight: nat): bool
    requires weight > 0
  {
    word / weight % 2 == 1
  }

  predicate Slots(w: Wire) {
    && |w.data| == 12 && (forall i | 0 <= i < 12 :: U64(w.data[i]).Some?)
    && |w.words| == 48 && (forall i | 0 <= i < 48 :: 0 <= w.words[i] < U32_LIMIT)
  }

  function Data(w: Wire, i: nat): nat
    requires Slots(w) && i < 12
  {
    U64(w.data[i]).value
  }

  function Word(w: Wire, i: nat): nat
    requires Slots(w) && i < 48
  {
    w.words[i]
  }

  predicate CarrierOk(version: int, w: Wire)
    requires Slots(w)
  {
    && (forall i: nat | i < 12 :: ReservedData(version, i) ==> Data(w, i) == 0)
    && (forall i: nat | i < 48 :: ReservedWord(version, i) ==> Word(w, i) == 0)
    && (version >= 2 ==> Data(w, 3) >= 1 && Word(w, 15) <= 1)
    && Word(w, 14) <= 1 && Word(w, 16) <= 1 && Word(w, 28) < 32
    && Word(w, 12) == w.thread && U64(w.sequence).Some? && U64(w.session) == Some(Join64(Word(w, 10), Word(w, 29)))
  }

  predicate CodesKnown(version: int, w: Wire)
    requires Slots(w)
  {
    && StageOf(version, Word(w, 5)).Some? && SourceOf(Data(w, 10)).Some? && ChainTypeOf(version, Data(w, 4)).Some?
    && TerminalOf(version, Word(w, 18)).Some? && ReasonOf(Word(w, 0)).Some?
  }

  /** The decoded record; None where the reader raises. */
  function Decode(version: int, w: Wire): Option<Event> {
    if !Slots(w) || !CarrierOk(version, w) || !CodesKnown(version, w) then None
    else Some(Event(
      U64(w.sequence).value, U64(w.session).value, w.thread,
      StageOf(version, Word(w, 5)).value, SourceOf(Data(w, 10)).value, ChainTypeOf(version, Data(w, 4)).value,
      TerminalOf(version, Word(w, 18)).value, ReasonOf(Word(w, 0)).value,
      Key(Data(w, 0), Data(w, 1), Word(w, 1), Word(w, 2), Join64(Word(w, 10), Word(w, 29)), w.mapEpoch, w.deviceEpoch,
          Data(w, 2)),
      Frames(w.frame, Data(w, 9), Join64(Word(w, 26), Word(w, 27)), Join64(Word(w, 24), Word(w, 25)),
             Join64(Word(w, 21), Word(w, 32)), Bit(Word(w, 28), 8), Bit(Word(w, 28), 16)),
      Data(w, 11), Word(w, 22), Word(w, 23), Join64(Word(w, 30), Word(w, 31)), Join64(Word(w, 20), Word(w, 33)),
      Bit(Word(w, 28), 1), Bit(Word(w, 28), 2), Bit(Word(w, 28), 4), Bit(Word(w, 14), 1), Bit(Word(w, 16), 1),
      if version >= 2 then Some(Data(w, 3)) else None, if version >= 2 then Word(w, 15) else 0))
  }

  // Decoding loses nothing

  lemma Join64Injective(lo: nat, hi: nat, lo': nat, hi': nat)
    requires lo < U32_LIMIT && lo' < U32_LIMIT && Join64(lo, hi) == Join64(lo', hi')
    ensures lo == lo' && hi == hi'
  {
  }

  function Number(b: bool): nat {
    if b then 1 else 0
  }

  lemma FlagsAddUp(a: nat)
    requires a < 32
    ensures a == Number(Bit(a, 1)) + 2 * Number(Bit(a, 2)) + 4 * Number(Bit(a, 4)) + 8 * Number(Bit(a, 8))
               + 16 * Number(Bit(a, 16))
  {
    assert a / 2 / 2 == a / 4 && a / 4 / 2 == a / 8 && a / 8 / 2 == a / 16;
  }

  lemma TablesInjective(version: int, x: nat, y: nat)
    ensures StageOf(version, x).Some? && StageOf(version, x) == StageOf(version, y) ==> x == y
    ensures SourceOf(x).Some? && SourceOf(x) == SourceOf(y) ==> x == y
    ensures TerminalOf(version, x).Some? && TerminalOf(version, x) == TerminalOf(version, y) ==> x == y
    ensures ReasonOf(x).Some? && ReasonOf(x) == ReasonOf(y) ==> x == y
    ensures version >= 4 && ChainTypeOf(version, x).Some? && ChainTypeOf(version, x) == ChainTypeOf(version, y) ==> x == y
  {
  }

  lemma JoinedWordsAgree(version: int, a: Wire, b: Wire)
    requires Decode(version, a).Some? && Decode(version, a) == Decode(version, b)
    ensures forall i: nat | i in {10, 29, 20, 33, 21, 32} :: Word(a, i) == Word(b, i)
    ensures forall i: nat | i in {24, 25, 26, 27, 30, 31} :: Word(a, i) == Word(b, i)
  {
    Join64Injective(Word(a, 10), Word(a, 29), Word(b, 10), Word(b, 29));
    Join64Injective(Word(a, 26), Word(a, 27), Word(b, 26), Word(b, 27));
    Join64Injective(Word(a, 24), Word(a, 25), Word(b, 24), Word(b, 25));
    Join64Injective(Word(a, 21), Word(a, 32), Word(b, 21), Word(b, 32));
    Join64Injective(Word(a, 30), Word(a, 31), Word(b, 30), Word(b, 31));
    Join64Injective(Word(a, 20), Word(a, 33), Word(b, 20), Word(b, 33));
  }

  lemma FlagWordsAgree(version: int, a: Wire, b: Wire)
    requires Decode(version, a).Some? && Decode(version, a) == Decode(version, b)
    ensures Word(a, 28) == Word(b, 28) && Word(a, 14) == Word(b, 14) && Word(a, 16) == Word(b, 16)
  {
    hide Bit, Join64;
    var x, y := Decode(version, a).value, Decode(version, b).value;
    FlagsAddUp(Word(a, 28));
    FlagsAddUp(Word(b, 28));
    OneFlag(Word(a, 14), x.identityWeak);
    OneFlag(Word(b, 14), y.identityWeak);
    OneFlag(Word(a, 16), x.epochUnknown);
    OneFlag(Word(b, 16), y.epochUnknown);
  }

  lemma OneFlag(a: nat, b: bool)
    requires a <= 1 && Bit(a, 1) == b
    ensures a == Number(b)
  {
  }

  lemma CodesAgree(version: int, a: Wire, b: Wire)
    requires Decode(version, a).Some? && Decode(version, a) == Decode(version, b)
    ensures Word(a, 0) == Word(b, 0) && Word(a, 5) == Word(b, 5) && Word(a, 18) == Word(b, 18)
    ensures Data(a, 10) == Data(b, 10) && Data(a, 4) == Data(b, 4)
  {
    TablesInjective(version, Word(a, 0), Word(b, 0));
    TablesInjective(version, Word(a, 5), Word(b, 5));
    TablesInjective(version, Word(a, 18), Word(b, 18));
    TablesInjective(version, Data(a, 10), Data(b, 10));
    TablesInjective(version, Data(a, 4), Data(b, 4));
    assert version < 4 ==> ReservedData(version, 4);
  }

  lemma PlainWordsAgree(version: int, a: Wire, b: Wire)
    requires Decode(version, a).Some? && Decode(version, a) == Decode(version, b)
    ensures forall i: nat | i in {1, 2, 12, 15, 22, 23} :: Word(a, i) == Word(b, i)
    ensures forall i: nat | i in {0, 1, 2, 3, 9, 11} :: Data(a, i) == Data(b, i)
  {
  }

  /** Every slot is reserved or one of the slots above. */
  lemma EverySlotRead(version: int, i: nat)
    requires i < 48
    ensures ReservedWord(version, i) || i in {10, 29, 20, 33, 21, 32} || i in {24, 25, 26, 27, 30, 31}
         || i in {28, 14, 16} || i in {0, 5, 18} || i in {1, 2, 12, 15, 22, 23}
    ensures i < 12 ==> ReservedData(version, i) || i in {4, 10} || i in {0, 1, 2, 3, 9, 11}
  {
  }

  /** Two accepted events with equal records carry the very same data strings and words. */
  lemma DecodingLosesNothing(version: int, a: Wire, b: Wire)
    requires Decode(version, a).Some? && Decode(version, a) == Decode(version, b)
    ensures a.data == b.data && a.words == b.words && a.sequence == b.sequence && a.session == b.session
  {
    JoinedWordsAgree(version, a, b);
    FlagWordsAgree(version, a, b);
    CodesAgree(version, a, b);
    PlainWordsAgree(version, a, b);
    forall i: nat | i < 48 ensures Word(a, i) == Word(b, i) {
      EverySlotRead(version, i);
    }
    forall i: nat | i < 12 ensures a.data[i] == b.data[i] {
      EverySlotRead(version, i);
      assert Data(a, i) == Data(b, i);
      SameValueSameString(a.data[i], b.data[i]);
    }
    SameWords(a, b);
    SameValueSameString(a.sequence, b.sequence);
    SameValueSameString(a.session, b.session);
  }

  lemma SameWords(a: Wire, b: Wire)
    requires Slots(a) && Slots(b) && forall i: nat | i < 48 :: Word(a, i) == Word(b, i)
    ensures a.words == b.words
  {
    forall i | 0 <= i < 48 ensures a.words[i] == b.words[i] {
      assert Word(a, i) == Word(b, i);
    }
  }

  /** What a format version rules out before any judgement. */
  predicate Shaped(version: int, e: Event) {
    && (version < 2 ==> e.windowSegment == None && e.proofKind == 0)
    && (version >= 2 ==> e.windowSegment.Some? && e.windowSegment.value >= 1 && e.proofKind <= 1)
    && (version < 3 ==> e.stage != FirstSight)
    && (version < 4 ==> e.chainType == RejectionRecovery && e.terminal != ObservationClosed)
  }

  lemma DecodedIsShaped(version: int, w: Wire)
    requires Decode(version, w).Some?
    ensures Shaped(version, Decode(version, w).value)
  {
  }
}
