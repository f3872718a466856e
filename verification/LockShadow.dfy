/** Outside-Lock shadow proof: the overlap verdict predicted from a GX snapshot, the verdict of the exact successful
    vertex Lock, the cohort in which the two may be compared, and what the comparison is worth. */
module LockShadow {
  import opened Arithmetic
  import opened Wrappers

  const RING_CAPACITY_VERTICES := 0x4000
  const FORMATS := 6
  const FORMAT_FVF: seq<int> := [0x012, 0x052, 0x112, 0x152, 0x212, 0x252]
  const FORMAT_STRIDE: seq<int> := [24, 28, 32, 36, 40, 44]
  const LOCK_FLAGS_NOOVERWRITE := 0x1800
  const LOCK_FLAGS_DISCARD := 0x2800

  /** No overlap, overlap, or a proof that cannot be read. */
  datatype Verdict = N | O | R

  datatype PoisonKey = PoisonKey(nativeDevice: int, commonResource: int, comVertexBuffer: int, resourceGeneration: int,
                                 outputFormat: int)

  datatype PoisonRange = PoisonRange(key: PoisonKey, baseVertex: int, vertexCount: int) {
    function End(): int { baseVertex + vertexCount }
  }

  datatype GxSnapshot = GxSnapshot(readable: bool, outputFormat: int, nativeDevice: int, vertexBuffers: seq<int>,
                                   ringNext: seq<int>)

  datatype LockProof = LockProof(lockSucceeded: bool, activeLock: bool, lockCount: int, key: PoisonKey,
                                 vertexStride: int, fvf: int, ownerIdentity: int, offsetBytes: int, sizeBytes: int,
                                 flags: int, mappedBase: int, mappedDst: int, realStorageGeneration: int,
                                 mappingStorageGeneration: int, mapAllocationGeneration: int, resetRequested: int,
                                 resetCompleted: int)

  /** A counter read at entry and again at settlement. */
  datatype Pair = Pair(entry: int, settle: int)

  datatype Scenario = Scenario(vertexCount: int, entryPoisons: seq<PoisonRange>, settlePoisons: seq<PoisonRange>,
                               gx: GxSnapshot, lock: LockProof, poisonGeneration: Pair, resetRequested: Pair,
                               resetCompleted: Pair, retirementGeneration: Pair, reentry: bool,
                               cpuKernelNormalReturn: bool, outerCallSucceeded: bool)

  datatype Interval = Interval(begin: int, end: int)

  datatype Physical = Physical(nativeDevice: int, comVertexBuffer: int, outputFormat: int)

  datatype Reason =
    | EmptyLedger | IncompletePoison
    | InvalidVertexCount | SafeCopyFailure | InvalidGxSnapshot | InvalidGxTarget
    | PhysicalPoisonOverlap | PhysicalNoOverlap
    | LockFailed | ActiveLockMismatch | ResourceIdentityIncomplete | FormatInvalid | FormatLayoutMismatch
    | LockRangeMismatch | LockRangeOverflow | LockFlagsInvalid | DiscardOffsetNonzero
    | MappedPointerMismatch | StorageGenerationIncomplete | ResetNotQuiescent
    | ExactPoisonOverlap | ExactNoOverlap

  datatype Evaluation = Evaluation(verdict: Verdict, reason: Reason, interval: Option<Interval>,
                                   physical: Option<Physical>, exactKey: Option<PoisonKey>, flags: Option<int>)

  function Failure(reason: Reason): Evaluation {
    Evaluation(R, reason, None, None, None, None)
  }

  // Intervals on the vertex ring

  predicate IntervalOverlaps(lhsBegin: int, lhsEnd: int, rhsBegin: int, rhsEnd: int) {
    lhsEnd > rhsBegin && lhsBegin < rhsEnd
  }

  predicate Within(vertex: int, begin: int, end: int) {
    begin <= vertex < end
  }

  /** For non-empty intervals, the comparison says that some vertex lies in both. */
  lemma OverlapIsSharedVertex(lhsBegin: int, lhsEnd: int, rhsBegin: int, rhsEnd: int)
    requires lhsBegin < lhsEnd && rhsBegin < rhsEnd
    ensures IntervalOverlaps(lhsBegin, lhsEnd, rhsBegin, rhsEnd) <==>
              exists v: int :: Within(v, lhsBegin, lhsEnd) && Within(v, rhsBegin, rhsEnd)
  {
    var v := if lhsBegin >= rhsBegin then lhsBegin else rhsBegin;
    assert IntervalOverlaps(lhsBegin, lhsEnd, rhsBegin, rhsEnd) ==>
        Within(v, lhsBegin, lhsEnd) && Within(v, rhsBegin, rhsEnd);
  }

  datatype Ring = Ring(interval: Interval, wraps: bool)

  function RingInterval(ringNext: int, vertexCount: int): Option<Ring> {
    if vertexCount <= 0 || vertexCount > RING_CAPACITY_VERTICES || ringNext < 0 || ringNext > RING_CAPACITY_VERTICES
    then None
    else
      var wraps := ringNext > RING_CAPACITY_VERTICES - vertexCount;
      var begin := if wraps then 0 else ringNext;
      Some(Ring(Interval(begin, begin + vertexCount), wraps))
  }

  // The poison ledger

  predicate ValidPoison(p: PoisonRange) {
    && p.key.nativeDevice != 0 && p.key.commonResource != 0 && p.key.comVertexBuffer != 0
    && p.key.resourceGeneration != 0 && 0 <= p.key.outputFormat < FORMATS
    && p.vertexCount > 0 && p.baseVertex >= 0 && p.End() <= RING_CAPACITY_VERTICES
  }

  predicate ValidLedger(poisons: seq<PoisonRange>) {
    forall i | 0 <= i < |poisons| :: ValidPoison(poisons[i])
  }

  function PhysicalOf(key: PoisonKey): Physical {
    Physical(key.nativeDevice, key.comVertexBuffer, key.outputFormat)
  }

  predicate Hits(p: PoisonRange, at: Interval) {
    IntervalOverlaps(at.begin, at.end, p.baseVertex, p.End())
  }

  /** What the GX snapshot can see: device, vertex buffer and format, but no resource or generation. */
  predicate PhysicalHit(poisons: seq<PoisonRange>, physical: Physical, at: Interval) {
    exists i | 0 <= i < |poisons| :: PhysicalOf(poisons[i].key) == physical && Hits(poisons[i], at)
  }

  predicate ExactHit(poisons: seq<PoisonRange>, key: PoisonKey, at: Interval) {
    exists i | 0 <= i < |poisons| :: poisons[i].key == key && Hits(poisons[i], at)
  }

  // The two verdicts

  function OldGxOutcome(s: Scenario): Evaluation {
    if s.entryPoisons == [] then Evaluation(N, EmptyLedger, None, None, None, None)
    else if !ValidLedger(s.entryPoisons) then Failure(IncompletePoison)
    else if s.vertexCount <= 0 || s.vertexCount > RING_CAPACITY_VERTICES then Failure(InvalidVertexCount)
    else if !s.gx.readable then Failure(SafeCopyFailure)
    else if |s.gx.vertexBuffers| != FORMATS || |s.gx.ringNext| != FORMATS || s.gx.outputFormat < 0
            || s.gx.outputFormat >= FORMATS || s.gx.nativeDevice == 0
    then Failure(InvalidGxSnapshot)
    else
      var buffer := s.gx.vertexBuffers[s.gx.outputFormat];
      var ring := RingInterval(s.gx.ringNext[s.gx.outputFormat], s.vertexCount);
      if buffer == 0 || ring.None? then Failure(InvalidGxTarget)
      else
        var at := ring.value.interval;
        var physical := Physical(s.gx.nativeDevice, buffer, s.gx.outputFormat);
        var flags := if ring.value.wraps then LOCK_FLAGS_DISCARD else LOCK_FLAGS_NOOVERWRITE;
        if PhysicalHit(s.entryPoisons, physical, at)
        then Evaluation(O, PhysicalPoisonOverlap, Some(at), Some(physical), None, Some(flags))
        else Evaluation(N, PhysicalNoOverlap, Some(at), Some(physical), None, Some(flags))
  }

  datatype LockCheck = LockCheck(at: Interval) | LockRefused(reason: Reason)

  function ValidateLockProof(p: LockProof, vertexCount: int): LockCheck {
    if !p.lockSucceeded then LockRefused(LockFailed)
    else if !p.activeLock || p.lockCount != 1 then LockRefused(ActiveLockMismatch)
    else if p.key.nativeDevice == 0 || p.key.commonResource == 0 || p.key.comVertexBuffer == 0
            || p.key.resourceGeneration == 0 || p.ownerIdentity != p.key.comVertexBuffer
    then LockRefused(ResourceIdentityIncomplete)
    else if p.key.outputFormat < 0 || p.key.outputFormat >= FORMATS then LockRefused(FormatInvalid)
    else if p.vertexStride != FORMAT_STRIDE[p.key.outputFormat] || p.fvf != FORMAT_FVF[p.key.outputFormat]
    then LockRefused(FormatLayoutMismatch)
    else if vertexCount <= 0 || vertexCount > RING_CAPACITY_VERTICES then LockRefused(InvalidVertexCount)
    else if p.offsetBytes < 0 || p.sizeBytes != vertexCount * p.vertexStride || p.offsetBytes % p.vertexStride != 0
    then LockRefused(LockRangeMismatch)
    else
      var begin := p.offsetBytes / p.vertexStride;
      if begin + vertexCount > RING_CAPACITY_VERTICES then LockRefused(LockRangeOverflow)
      else if p.flags != LOCK_FLAGS_NOOVERWRITE && p.flags != LOCK_FLAGS_DISCARD then LockRefused(LockFlagsInvalid)
      else if p.flags == LOCK_FLAGS_DISCARD && begin != 0 then LockRefused(DiscardOffsetNonzero)
      else if p.mappedBase == 0 || p.mappedDst != p.mappedBase + p.offsetBytes then LockRefused(MappedPointerMismatch)
      else if p.realStorageGeneration == 0 || p.mappingStorageGeneration == 0 || p.mapAllocationGeneration == 0
      then LockRefused(StorageGenerationIncomplete)
      else if p.resetRequested == 0 || p.resetCompleted == 0 || p.resetRequested != p.resetCompleted
      then LockRefused(ResetNotQuiescent)
      else LockCheck(Interval(begin, begin + vertexCount))
  }

  function LockOutcome(s: Scenario): Evaluation {
    if s.settlePoisons == [] then Evaluation(N, EmptyLedger, None, None, None, None)
    else if !ValidLedger(s.settlePoisons) then Failure(IncompletePoison)
    else
      match ValidateLockProof(s.lock, s.vertexCount)
      case LockRefused(reason) => Failure(reason)
      case LockCheck(at) =>
        var key := s.lock.key;
        if ExactHit(s.settlePoisons, key, at)
        then Evaluation(O, ExactPoisonOverlap, Some(at), Some(PhysicalOf(key)), Some(key), Some(s.lock.flags))
        else Evaluation(N, ExactNoOverlap, Some(at), Some(PhysicalOf(key)), Some(key), Some(s.lock.flags))
  }

  // Which cases may be compared

  predicate TargetsMatch(predicted: Evaluation, lock: Evaluation) {
    predicted.physical.Some? && predicted.physical == lock.physical && predicted.interval.Some? && predicted.interval == lock.interval
  }

  /** Both ledgers hold the same poisons, in any order. */
  predicate SameContent(s: Scenario) {
    multiset(s.entryPoisons) == multiset(s.settlePoisons)
  }

  predicate StrictExactIdentity(s: Scenario, predicted: Evaluation, lock: Evaluation) {
    && TargetsMatch(predicted, lock) && lock.exactKey.Some?
    && (forall i | 0 <= i < |s.entryPoisons| ::
          PhysicalOf(s.entryPoisons[i].key) == predicted.physical.value && Hits(s.entryPoisons[i], predicted.interval.value) ==>
            s.entryPoisons[i].key == lock.exactKey.value)
    && SameContent(s)
  }

  datatype Settlement =
    | MutationGenerationViolation | ResetGenerationViolation | Reset | PoisonMutation | Retirement | NoPoisonFastPath
    | Reentry | NoNormalReturn | OuterFailure | OldReadFailure | LockProofFailure | TargetDrift | Eligible

  datatype LockMode = Discard | NoOverwrite | Invalid

  datatype CaseResult = CaseResult(predicted: Evaluation, lock: Evaluation, settlement: Settlement, eligible: bool,
                                   strict: bool, mutationViolation: bool, resetViolation: bool, mode: LockMode)

  predicate ResetChanged(s: Scenario) {
    || s.resetRequested.entry != s.resetRequested.settle
    || s.resetCompleted.entry != s.resetCompleted.settle
    || s.resetRequested.entry != s.resetCompleted.entry
    || s.resetRequested.settle != s.resetCompleted.settle
  }

  predicate GenerationChanged(s: Scenario) {
    s.poisonGeneration.entry != s.poisonGeneration.settle
  }

  function Settle(s: Scenario, predicted: Evaluation, lock: Evaluation): Settlement {
    if !SameContent(s) && !GenerationChanged(s) then MutationGenerationViolation
    else if ResetChanged(s) && !GenerationChanged(s) then ResetGenerationViolation
    else if ResetChanged(s) then Reset
    else if GenerationChanged(s) then PoisonMutation
    else if s.retirementGeneration.entry != s.retirementGeneration.settle then Retirement
    else if s.entryPoisons == [] then NoPoisonFastPath
    else if s.reentry then Reentry
    else if !s.cpuKernelNormalReturn then NoNormalReturn
    else if !s.outerCallSucceeded then OuterFailure
    else if predicted.verdict == R then OldReadFailure
    else if lock.verdict == R then LockProofFailure
    else if !TargetsMatch(predicted, lock) && s.entryPoisons != [] then TargetDrift
    else Eligible
  }

  function ClassifyCase(s: Scenario): CaseResult {
    var predicted, lock := OldGxOutcome(s), LockOutcome(s);
    var settlement := Settle(s, predicted, lock);
    CaseResult(predicted, lock, settlement, settlement == Eligible,
               settlement == Eligible && StrictExactIdentity(s, predicted, lock),
               !SameContent(s) && !GenerationChanged(s), ResetChanged(s) && !GenerationChanged(s),
               if lock.flags == Some(LOCK_FLAGS_DISCARD) then Discard
               else if lock.flags == Some(LOCK_FLAGS_NOOVERWRITE) then NoOverwrite
               else Invalid)
  }

  // What the comparison is worth

  /** A verdict other than R comes from a readable target inside the ring, and says exactly whether a poison lies on it. */
  lemma VerdictsMeanOverlap(s: Scenario)
    ensures var predicted := OldGxOutcome(s);
      s.entryPoisons != [] && predicted.verdict != R ==>
        && predicted.physical.Some? && predicted.interval.Some? && InRing(predicted.interval.value, s.vertexCount)
        && ValidLedger(s.entryPoisons)
        && (predicted.verdict == O <==> PhysicalHit(s.entryPoisons, predicted.physical.value, predicted.interval.value))
    ensures var lock := LockOutcome(s);
      s.settlePoisons != [] && lock.verdict != R ==>
        && lock.physical == Some(PhysicalOf(s.lock.key)) && lock.exactKey == Some(s.lock.key)
        && lock.interval.Some? && InRing(lock.interval.value, s.vertexCount) && ValidLedger(s.settlePoisons)
        && (lock.verdict == O <==> ExactHit(s.settlePoisons, s.lock.key, lock.interval.value))
  {
    LockIntervalInRing(s.lock, s.vertexCount);
  }

  predicate InRing(at: Interval, vertexCount: int) {
    0 <= at.begin < at.end == at.begin + vertexCount && at.end <= RING_CAPACITY_VERTICES
  }

  /** A validated Lock covers exactly vertexCount whole vertices of its format inside the ring, and a DISCARD lock
      starts it over. */
  lemma LockIntervalInRing(p: LockProof, vertexCount: int)
    ensures var check := ValidateLockProof(p, vertexCount);
      check.LockCheck? ==>
        && InRing(check.at, vertexCount) && check.at.begin * p.vertexStride == p.offsetBytes
        && p.sizeBytes == (check.at.end - check.at.begin) * p.vertexStride
        && (p.flags == LOCK_FLAGS_DISCARD ==> check.at.begin == 0)
  {
    var check := ValidateLockProof(p, vertexCount);
    if check.LockCheck? {
      assert p.vertexStride > 0 by { StridesPositive(p.key.outputFormat); }
      DivideExactly(p.offsetBytes, p.vertexStride);
    }
  }

  lemma StridesPositive(format: int)
    requires 0 <= format < FORMATS
    ensures FORMAT_STRIDE[format] > 0
  {
  }

  lemma DivideExactly(x: int, d: int)
    requires x >= 0 && d > 0 && x % d == 0
    ensures x / d >= 0 && x / d * d == x
  {
  }

  /** The eligible cohort, condition by condition. */
  lemma EligibleMeans(s: Scenario)
    ensures var c := ClassifyCase(s);
      c.eligible <==>
        && s.entryPoisons != [] && SameContent(s) && !GenerationChanged(s) && !ResetChanged(s)
        && s.retirementGeneration.entry == s.retirementGeneration.settle
        && !s.reentry && s.cpuKernelNormalReturn && s.outerCallSucceeded
        && c.predicted.verdict != R && c.lock.verdict != R && TargetsMatch(c.predicted, c.lock)
  {
  }

  lemma SameContentSameHits(s: Scenario, key: PoisonKey, at: Interval)
    requires SameContent(s)
    ensures ExactHit(s.entryPoisons, key, at) <==> ExactHit(s.settlePoisons, key, at)
    ensures s.entryPoisons == [] <==> s.settlePoisons == []
  {
    MovedHit(s.entryPoisons, s.settlePoisons, key, at);
    MovedHit(s.settlePoisons, s.entryPoisons, key, at);
    assert |multiset(s.entryPoisons)| == |multiset(s.settlePoisons)|;
  }

  lemma MovedHit(a: seq<PoisonRange>, b: seq<PoisonRange>, key: PoisonKey, at: Interval)
    requires multiset(a) == multiset(b)
    ensures ExactHit(a, key, at) ==> ExactHit(b, key, at)
  {
    if ExactHit(a, key, at) {
      var i :| 0 <= i < |a| && a[i].key == key && Hits(a[i], at);
      assert a[i] in multiset(b);
      assert a[i] in b;
    }
  }

  /** In the eligible cohort the exact Lock only refines the prediction: a Lock overlap was predicted, and the two
      verdicts differ exactly when every predicted overlap was with a poison of some other resource or generation. */
  lemma LockRefinesOld(s: Scenario)
    requires ClassifyCase(s).eligible
    ensures var c := ClassifyCase(s);
      && c.predicted.verdict != R && c.lock.verdict != R
      && !(c.predicted.verdict == N && c.lock.verdict == O)
      && (c.predicted.verdict != c.lock.verdict <==>
            PhysicalHit(s.entryPoisons, c.predicted.physical.value, c.predicted.interval.value) &&
            !ExactHit(s.entryPoisons, s.lock.key, c.predicted.interval.value))
  {
    var c := ClassifyCase(s);
    EligibleMeans(s);
    VerdictsMeanOverlap(s);
    SameContentSameHits(s, s.lock.key, c.predicted.interval.value);
  }

  /** Cases with strict identity agree. */
  lemma StrictCasesAgree(s: Scenario)
    requires ClassifyCase(s).strict
    ensures ClassifyCase(s).eligible && ClassifyCase(s).predicted.verdict == ClassifyCase(s).lock.verdict
  {
    var c := ClassifyCase(s);
    LockRefinesOld(s);
    EligibleMeans(s);
    VerdictsMeanOverlap(s);
    var at := c.predicted.interval.value;
    if PhysicalHit(s.entryPoisons, c.predicted.physical.value, at) {
      var i :| 0 <= i < |s.entryPoisons| && PhysicalOf(s.entryPoisons[i].key) == c.predicted.physical.value
               && Hits(s.entryPoisons[i], at);
      assert s.entryPoisons[i].key == s.lock.key;
    }
  }

  /** The byte of a vertex buffer belongs to this vertex. */
  predicate InVertex(byte: int, vertex: int, stride: int) {
    vertex * stride <= byte < vertex * stride + stride
  }

  /** What a predicted N buys in the eligible cohort: no byte the Lock maps belongs to a vertex that is poisoned for the
      locked resource. */
  lemma OldNIsClean(s: Scenario, p: PoisonRange, vertex: int, byte: int)
    requires ClassifyCase(s).eligible && ClassifyCase(s).predicted.verdict == N
    requires p in s.settlePoisons && p.key == s.lock.key && p.baseVertex <= vertex < p.End()
    requires s.lock.offsetBytes <= byte < s.lock.offsetBytes + s.lock.sizeBytes
    ensures !InVertex(byte, vertex, s.lock.vertexStride)
  {
    LockRefinesOld(s);
    EligibleMeans(s);
    SameContentSameHits(s, s.lock.key, ClassifyCase(s).predicted.interval.value);
    VerdictsMeanOverlap(s);
    LockIntervalInRing(s.lock, s.vertexCount);
    var at := ClassifyCase(s).lock.interval.value;
    var i :| 0 <= i < |s.settlePoisons| && s.settlePoisons[i] == p;
    assert !Hits(p, at);
    StridesPositive(s.lock.key.outputFormat);
    OutsideInBytes(at, vertex, s.lock.vertexStride);
  }

  lemma OutsideInBytes(at: Interval, vertex: int, stride: nat)
    requires !(at.begin <= vertex < at.end)
    ensures || vertex * stride + stride <= at.begin * stride
            || at.begin * stride + (at.end - at.begin) * stride <= vertex * stride
  {
    StridesJoin(at.begin, at.end - at.begin, stride);
    if vertex < at.begin {
      StridesApart(vertex, at.begin, stride);
    } else if at.end < vertex {
      StridesApart(at.end, vertex, stride);
    }
  }
}
