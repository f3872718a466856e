/** The verdicts of the shadow comparison in the scenario's own numbers: which vertices the snapshot predicts, which bytes
    the Lock maps, when the two may be compared, and which settlement a case gets. */
module LockShadowMeaning {
  import opened Arithmetic
  import opened LockShadow
  import opened LockShadowAggregate
  import opened Wrappers

  // What a poison covers

  predicate Poisoned(p: PoisonRange, v: int) {
    p.baseVertex <= v < p.baseVertex + p.vertexCount
  }

  lemma HitsMeans(p: PoisonRange, at: Interval)
    requires p.vertexCount > 0 && at.begin < at.end
    ensures Hits(p, at) <==> exists v: int :: Poisoned(p, v) && Within(v, at.begin, at.end)
  {
    OverlapIsSharedVertex(at.begin, at.end, p.baseVertex, p.End());
    if Hits(p, at) {
      var v: int :| Within(v, at.begin, at.end) && Within(v, p.baseVertex, p.End());
      assert Poisoned(p, v);
    }
    if v: int :| Poisoned(p, v) && Within(v, at.begin, at.end) {
      assert Within(v, p.baseVertex, p.End());
    }
  }

  // The prediction

  predicate SnapshotReadable(s: Scenario) {
    && ValidLedger(s.entryPoisons) && 0 < s.vertexCount <= 0x4000
    && s.gx.readable && |s.gx.vertexBuffers| == 6 && |s.gx.ringNext| == 6 && 0 <= s.gx.outputFormat < 6
    && s.gx.nativeDevice != 0 && s.gx.vertexBuffers[s.gx.outputFormat] != 0
    && 0 <= s.gx.ringNext[s.gx.outputFormat] <= 0x4000
  }

  /** Where the next draw would start: at ringNext, unless that would run past the ring. */
  function PredictedBegin(s: Scenario): int
    requires SnapshotReadable(s)
  {
    var next := s.gx.ringNext[s.gx.outputFormat];
    if next + s.vertexCount <= 0x4000 then next else 0
  }

  /** A poison of the very device, buffer and format that the snapshot shows. */
  predicate OnTarget(s: Scenario, p: PoisonRange)
    requires SnapshotReadable(s)
  {
    && p.key.nativeDevice == s.gx.nativeDevice && p.key.outputFormat == s.gx.outputFormat
    && p.key.comVertexBuffer == s.gx.vertexBuffers[s.gx.outputFormat]
  }

  /** The poison holds this vertex of the target, and the next draw would use it. */
  predicate PredictedAt(s: Scenario, p: PoisonRange, v: int) {
    SnapshotReadable(s) && OnTarget(s, p) && Poisoned(p, v) && Within(v, PredictedBegin(s), PredictedBegin(s) + s.vertexCount)
  }

  /** Some poison of the target holds one of the vertices the next draw would use. */
  ghost predicate PredictsPoison(s: Scenario)
    requires SnapshotReadable(s)
  {
    exists p, v: int | p in s.entryPoisons :: PredictedAt(s, p, v)
  }

  lemma PhysicalHitMeans(s: Scenario)
    requires SnapshotReadable(s)
    ensures var begin := PredictedBegin(s);
      var physical := Physical(s.gx.nativeDevice, s.gx.vertexBuffers[s.gx.outputFormat], s.gx.outputFormat);
      PhysicalHit(s.entryPoisons, physical, Interval(begin, begin + s.vertexCount)) <==> PredictsPoison(s)
  {
    var begin := PredictedBegin(s);
    var at := Interval(begin, begin + s.vertexCount);
    var physical := Physical(s.gx.nativeDevice, s.gx.vertexBuffers[s.gx.outputFormat], s.gx.outputFormat);
    if PhysicalHit(s.entryPoisons, physical, at) {
      var i :| 0 <= i < |s.entryPoisons| && PhysicalOf(s.entryPoisons[i].key) == physical && Hits(s.entryPoisons[i], at);
      HitsMeans(s.entryPoisons[i], at);
      var v: int :| Poisoned(s.entryPoisons[i], v) && Within(v, at.begin, at.end);
      assert s.entryPoisons[i] in s.entryPoisons && PredictedAt(s, s.entryPoisons[i], v);
    }
    if PredictsPoison(s) {
      var p, v: int :| p in s.entryPoisons && PredictedAt(s, p, v);
      assert Within(v, at.begin, at.end);
      var i :| 0 <= i < |s.entryPoisons| && s.entryPoisons[i] == p;
      HitsMeans(p, at);
      assert PhysicalOf(s.entryPoisons[i].key) == physical;
    }
  }

  /** On a non-empty ledger the prediction is unreadable exactly when the snapshot or the ledger is; otherwise it is O
      exactly when some poison of the snapshot's device, buffer and format holds a vertex the next draw would use, and
      the flags are those of a DISCARD exactly when the draw would start the ring over. */
  lemma PredictedExactly(s: Scenario)
    requires s.entryPoisons != []
    ensures OldGxOutcome(s).verdict == R <==> !SnapshotReadable(s)
    ensures SnapshotReadable(s) ==>
              var o, begin := OldGxOutcome(s), PredictedBegin(s);
              && (o.verdict == O <==> PredictsPoison(s))
              && o.interval == Some(Interval(begin, begin + s.vertexCount))
              && o.flags == Some(if s.gx.ringNext[s.gx.outputFormat] + s.vertexCount <= 0x4000 then 0x1800 else 0x2800)
              && o.physical ==
                   Some(Physical(s.gx.nativeDevice, s.gx.vertexBuffers[s.gx.outputFormat], s.gx.outputFormat))
  {
    hide ValidLedger, PhysicalHit, PredictsPoison;
    if SnapshotReadable(s) {
      PhysicalHitMeans(s);
    }
  }

  // The Lock

  predicate LockReadable(p: LockProof, vertexCount: int) {
    && p.lockSucceeded && p.activeLock && p.lockCount == 1
    && p.key.nativeDevice != 0 && p.key.commonResource != 0 && p.key.comVertexBuffer != 0
    && p.key.resourceGeneration != 0 && p.ownerIdentity == p.key.comVertexBuffer
    && 0 <= p.key.outputFormat < 6
    && p.vertexStride == 24 + 4 * p.key.outputFormat
    && p.fvf == [0x012, 0x052, 0x112, 0x152, 0x212, 0x252][p.key.outputFormat]
    && 0 < vertexCount <= 0x4000 && p.offsetBytes >= 0 && p.sizeBytes == vertexCount * p.vertexStride
    && p.offsetBytes % p.vertexStride == 0 && p.offsetBytes + p.sizeBytes <= 0x4000 * p.vertexStride
    && (p.flags == 0x1800 || (p.flags == 0x2800 && p.offsetBytes == 0))
    && p.mappedBase != 0 && p.mappedDst == p.mappedBase + p.offsetBytes
    && p.realStorageGeneration != 0 && p.mappingStorageGeneration != 0 && p.mapAllocationGeneration != 0
    && p.resetRequested != 0 && p.resetRequested == p.resetCompleted
  }

  lemma Strides(format: int)
    requires 0 <= format < 6
    ensures FORMAT_STRIDE[format] == 24 + 4 * format > 0
    ensures FORMAT_FVF[format] == [0x012, 0x052, 0x112, 0x152, 0x212, 0x252][format]
  {
  }

  lemma EndsInRing(offset: nat, count: nat, stride: nat)
    requires stride > 0 && offset % stride == 0
    ensures offset / stride * stride == offset
    ensures offset / stride + count <= 0x4000 <==> offset + count * stride <= 0x4000 * stride
    ensures offset / stride == 0 <==> offset == 0
  {
    var begin := offset / stride;
    assert begin * stride == offset;
    StridesJoin(begin, count, stride);
    if begin + count <= 0x4000 {
      ScaledBy(begin + count, 0x4000, stride);
    } else {
      StridesApart(0x4000, begin + count, stride);
    }
  }

  lemma LockCheckMeans(p: LockProof, vertexCount: int)
    ensures ValidateLockProof(p, vertexCount).LockCheck? <==> LockReadable(p, vertexCount)
    ensures LockReadable(p, vertexCount) ==>
              ValidateLockProof(p, vertexCount).at
              == Interval(p.offsetBytes / p.vertexStride, p.offsetBytes / p.vertexStride + vertexCount)
  {
    if 0 <= p.key.outputFormat < 6 {
      Strides(p.key.outputFormat);
      var stride := 24 + 4 * p.key.outputFormat;
      if p.offsetBytes >= 0 && p.offsetBytes % stride == 0 && vertexCount > 0 {
        EndsInRing(p.offsetBytes, vertexCount, stride);
      }
    }
  }

  /** The Lock maps the whole of this vertex. */
  predicate Maps(p: LockProof, v: int) {
    p.offsetBytes <= v * p.vertexStride && v * p.vertexStride + p.vertexStride <= p.offsetBytes + p.sizeBytes
  }

  lemma MapsMeans(p: LockProof, vertexCount: int, v: int)
    requires LockReadable(p, vertexCount)
    ensures Maps(p, v) <==> Within(v, p.offsetBytes / p.vertexStride, p.offsetBytes / p.vertexStride + vertexCount)
  {
    var stride: nat := p.vertexStride;
    var begin := p.offsetBytes / stride;
    EndsInRing(p.offsetBytes, vertexCount, stride);
    hide LockReadable;
    StridesJoin(begin, vertexCount, stride);
    if v < begin {
      StridesApart(v, begin, stride);
    } else {
      ScaledInts(begin, v, stride);
    }
    NextStride(v, stride);
    if v + 1 <= begin + vertexCount {
      ScaledInts(v + 1, begin + vertexCount, stride);
    } else {
      StridesApart(begin + vertexCount, v + 1, stride);
    }
  }

  lemma ScaledInts(a: int, b: int, d: nat)
    requires a <= b
    ensures a * d <= b * d
  {
    if a < b { StridesApart(a, b, d); }
  }

  /** Some poison of the locked resource, at its generation, holds a vertex the Lock maps. */
  ghost predicate LocksPoison(s: Scenario) {
    exists p, v: int | p in s.settlePoisons :: p.key == s.lock.key && Poisoned(p, v) && Maps(s.lock, v)
  }

  lemma ExactHitMeans(s: Scenario)
    requires ValidLedger(s.settlePoisons) && LockReadable(s.lock, s.vertexCount)
    ensures var begin := s.lock.offsetBytes / s.lock.vertexStride;
      ExactHit(s.settlePoisons, s.lock.key, Interval(begin, begin + s.vertexCount)) <==> LocksPoison(s)
  {
    var begin := s.lock.offsetBytes / s.lock.vertexStride;
    var at := Interval(begin, begin + s.vertexCount);
    assert s.vertexCount > 0;
    forall v: int ensures Maps(s.lock, v) <==> Within(v, at.begin, at.end) {
      MapsMeans(s.lock, s.vertexCount, v);
    }
    hide LockReadable, Maps;
    if ExactHit(s.settlePoisons, s.lock.key, at) {
      var i :| 0 <= i < |s.settlePoisons| && s.settlePoisons[i].key == s.lock.key && Hits(s.settlePoisons[i], at);
      HitsMeans(s.settlePoisons[i], at);
      var v: int :| Poisoned(s.settlePoisons[i], v) && Within(v, at.begin, at.end);
      assert s.settlePoisons[i] in s.settlePoisons && Maps(s.lock, v);
    }
    if LocksPoison(s) {
      var p, v: int :| p in s.settlePoisons && p.key == s.lock.key && Poisoned(p, v) && Maps(s.lock, v);
      var i :| 0 <= i < |s.settlePoisons| && s.settlePoisons[i] == p;
      assert Within(v, at.begin, at.end);
      HitsMeans(p, at);
    }
  }

  /** On a non-empty ledger the exact verdict is unreadable exactly when the Lock proof or the ledger is; otherwise it is
      O exactly when a vertex the Lock maps is poisoned for the locked resource at its generation. */
  lemma LockedExactly(s: Scenario)
    requires s.settlePoisons != []
    ensures LockOutcome(s).verdict == R <==> !(ValidLedger(s.settlePoisons) && LockReadable(s.lock, s.vertexCount))
    ensures ValidLedger(s.settlePoisons) && LockReadable(s.lock, s.vertexCount) ==>
              var o := LockOutcome(s);
              && (o.verdict == O <==> LocksPoison(s))
              && o.exactKey == Some(s.lock.key) && o.flags == Some(s.lock.flags) && o.physical == Some(PhysicalOf(s.lock.key))
              && o.interval == Some(Interval(s.lock.offsetBytes / s.lock.vertexStride,
                                             s.lock.offsetBytes / s.lock.vertexStride + s.vertexCount))
  {
    hide LockReadable, ValidateLockProof, ExactHit, LocksPoison, ValidLedger;
    LockCheckMeans(s.lock, s.vertexCount);
    if ValidLedger(s.settlePoisons) && LockReadable(s.lock, s.vertexCount) {
      ExactHitMeans(s);
    }
  }

  // When the two may be compared

  /** Nothing moved between entry and settlement, the call ran through, and both sides can be read. */
  predicate Quiet(s: Scenario) {
    && s.entryPoisons != [] && multiset(s.entryPoisons) == multiset(s.settlePoisons)
    && s.poisonGeneration.entry == s.poisonGeneration.settle
    && s.resetRequested.entry == s.resetRequested.settle == s.resetCompleted.entry == s.resetCompleted.settle
    && s.retirementGeneration.entry == s.retirementGeneration.settle
    && !s.reentry && s.cpuKernelNormalReturn && s.outerCallSucceeded
  }

  /** The Lock went where the snapshot said. */
  predicate AsPredicted(s: Scenario)
    requires SnapshotReadable(s)
  {
    && s.lock.key.nativeDevice == s.gx.nativeDevice && s.lock.key.outputFormat == s.gx.outputFormat
    && s.lock.key.comVertexBuffer == s.gx.vertexBuffers[s.gx.outputFormat]
    && s.lock.offsetBytes == PredictedBegin(s) * s.lock.vertexStride
  }

  lemma TargetsMeans(s: Scenario)
    requires s.entryPoisons != [] && s.settlePoisons != [] && SnapshotReadable(s)
    requires ValidLedger(s.settlePoisons) && LockReadable(s.lock, s.vertexCount)
    ensures TargetsMatch(OldGxOutcome(s), LockOutcome(s)) <==> AsPredicted(s)
  {
    PredictedExactly(s);
    LockedExactly(s);
    var stride: nat := s.lock.vertexStride;
    EndsInRing(s.lock.offsetBytes, s.vertexCount, stride);
    QuotientOf(PredictedBegin(s), stride, s.lock.offsetBytes);
    hide SnapshotReadable, LockReadable, OldGxOutcome, LockOutcome;
  }

  lemma QuotientOf(k: nat, d: nat, x: nat)
    requires d > 0 && x / d * d == x
    ensures x / d == k <==> x == k * d
  {
    if x == k * d {
      AtMostQuotient(k, d, x);
      if x / d > k { StridesApart(k, x / d, d); }
    }
  }

  /** The cohort of the comparison in the scenario's fields. */
  lemma EligibleExactly(s: Scenario)
    ensures ClassifyCase(s).eligible <==>
              && Quiet(s) && SnapshotReadable(s) && ValidLedger(s.settlePoisons) && LockReadable(s.lock, s.vertexCount)
              && AsPredicted(s)
  {
    EligibleMeans(s);
    hide OldGxOutcome, LockOutcome, ValidLedger, LockReadable, AsPredicted, TargetsMatch, Settle;
    if multiset(s.entryPoisons) == multiset(s.settlePoisons) {
      assert |multiset(s.entryPoisons)| == |multiset(s.settlePoisons)|;
    }
    if s.entryPoisons != [] {
      PredictedExactly(s);
    }
    if s.settlePoisons != [] {
      LockedExactly(s);
    }
    if s.entryPoisons != [] && s.settlePoisons != [] && SnapshotReadable(s) && ValidLedger(s.settlePoisons)
       && LockReadable(s.lock, s.vertexCount)
    {
      TargetsMeans(s);
    }
  }

  // Which settlement a case gets

  /** What each settlement says happened. */
  predicate Applies(s: Scenario, settlement: Settlement) {
    var sameContent := multiset(s.entryPoisons) == multiset(s.settlePoisons);
    var sameGeneration := s.poisonGeneration.entry == s.poisonGeneration.settle;
    var wasReset := !(s.resetRequested.entry == s.resetRequested.settle == s.resetCompleted.entry == s.resetCompleted.settle);
    match settlement
    case MutationGenerationViolation => !sameContent && sameGeneration
    case ResetGenerationViolation => wasReset && sameGeneration
    case Reset => wasReset
    case PoisonMutation => !sameGeneration
    case Retirement => s.retirementGeneration.entry != s.retirementGeneration.settle
    case NoPoisonFastPath => s.entryPoisons == []
    case Reentry => s.reentry
    case NoNormalReturn => !s.cpuKernelNormalReturn
    case OuterFailure => !s.outerCallSucceeded
    case OldReadFailure => OldGxOutcome(s).verdict == R
    case LockProofFailure => LockOutcome(s).verdict == R
    case TargetDrift => !TargetsMatch(OldGxOutcome(s), LockOutcome(s))
    case Eligible => true
  }

  lemma SettlementFound(s: Scenario, other: Settlement)
    ensures Applies(s, ClassifyCase(s).settlement)
    ensures LockShadowAggregate.Rank(other) < LockShadowAggregate.Rank(ClassifyCase(s).settlement) ==> !Applies(s, other)
  {
    hide OldGxOutcome, LockOutcome, TargetsMatch;
  }

  /** A case settles as the first of the listed settlements that applies to it. */
  lemma SettlesFirst(s: Scenario, settlement: Settlement)
    ensures ClassifyCase(s).settlement == settlement <==>
              && Applies(s, settlement)
              && forall other :: LockShadowAggregate.Rank(other) < LockShadowAggregate.Rank(settlement) ==> !Applies(s, other)
  {
    hide Applies, ClassifyCase;
    forall other
      ensures LockShadowAggregate.Rank(other) < LockShadowAggregate.Rank(ClassifyCase(s).settlement) ==> !Applies(s, other)
    {
      SettlementFound(s, other);
    }
    SettlementFound(s, settlement);
    assert SETTLEMENTS[LockShadowAggregate.Rank(settlement)] == settlement;
  }

  /** A case is strict exactly when it is eligible and every poison that the prediction hits is one of the locked resource
      at its generation; the other flags of a case say what they are named after. */
  lemma CaseFlags(s: Scenario)
    ensures var c := ClassifyCase(s);
      && (c.eligible <==> c.settlement == Eligible)
      && (c.strict <==> c.eligible && forall p, v: int | p in s.entryPoisons && PredictedAt(s, p, v) :: p.key == s.lock.key)
      && (c.mutationViolation <==> Applies(s, MutationGenerationViolation))
      && (c.resetViolation <==> Applies(s, ResetGenerationViolation))
  {
    EligibleExactly(s);
    if ClassifyCase(s).eligible {
      StrictMeans(s);
    }
  }

  lemma StrictMeans(s: Scenario)
    requires ClassifyCase(s).eligible && SnapshotReadable(s) && s.entryPoisons != []
    ensures StrictExactIdentity(s, OldGxOutcome(s), LockOutcome(s)) <==>
              forall p, v: int | p in s.entryPoisons && PredictedAt(s, p, v) :: p.key == s.lock.key
  {
    EligibleExactly(s);
    PredictedExactly(s);
    assert multiset(s.settlePoisons) == multiset(s.entryPoisons) && |multiset(s.settlePoisons)| > 0;
    LockedExactly(s);
    EligibleMeans(s);
    hide OldGxOutcome, LockOutcome, ClassifyCase, LockReadable;
    var at := Interval(PredictedBegin(s), PredictedBegin(s) + s.vertexCount);
    forall i | 0 <= i < |s.entryPoisons|
      ensures Hits(s.entryPoisons[i], at) <==> exists v: int :: Poisoned(s.entryPoisons[i], v) && Within(v, at.begin, at.end)
    {
      HitsMeans(s.entryPoisons[i], at);
    }
    forall p, v: int | p in s.entryPoisons
      ensures PredictedAt(s, p, v) <==> OnTarget(s, p) && Poisoned(p, v) && Within(v, at.begin, at.end)
    {
    }
  }
}
