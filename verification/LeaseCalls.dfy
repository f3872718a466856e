/** The calls of the lease protocol, one by one: which access is accepted and what a refusal blames, that a consumer bit
    is used once, that only a queue or a reset retires a lease, and that every counter counts its calls. */
module LeaseCalls {
  import opened Wrappers
  import opened LeaseProtocol
  import opened LeaseInvariant
  import opened LeaseSafety
  import opened LeaseLedger

  // Registering a lease

  /** Not empty, shorter than 2^32 bytes, and inside the first 2^32. */
  predicate Addressable(offset: int, length: int) {
    0 < length < 0x1_0000_0000 && 0 <= offset && offset + length <= 0x1_0000_0000
  }

  /** In a reachable state a lease is registered exactly when its id is new and positive, its token positive, its request a
      non-empty set of known consumers, its ranges addressable, and its page known and not marked reusable. */
  lemma RegisteredIff(s: State, r: LeaseRequest)
    requires Inv(s)
    ensures AddLease(s, r).reply == Done <==>
              && r.leaseId > 0 && r.leaseId !in s.leases && r.token > 0 && r.requestedBits != {}
              && (forall b | b in r.requestedBits :: b < 4)
              && Addressable(r.ranges.staticOffset, r.ranges.staticLength)
              && Addressable(r.ranges.paletteOffset, r.ranges.paletteLength)
              && r.pageId in s.pages && !s.pages[r.pageId].reusable
    ensures r.pageId in s.pages ==> (AddLease(s, r).reply.Raised? ==> AddLease(s, r).reply == Raised(ValueError))
  {
    hide LeasesOk, TicketsOk;
    if r.pageId in s.pages {
      NoLeasesNoClaims(s, s.pages[r.pageId]);
    }
  }

  lemma NoLeasesNoClaims(s: State, p: Page)
    requires PageOk(s, p)
    ensures p.currentLeaseIds == [] ==> p.liveClaims == {}
  {
    if p.currentLeaseIds == [] {
      assert (set id | id in p.currentLeaseIds) == {};
    }
  }

  // Accepting an access

  /** An access is accepted exactly when it names one open consumer bit of a lease of the current generation and carries
      everything else the model knows about that lease. */
  lemma AcceptedIff(s: State, a: Access)
    requires Inv(s)
    ensures Validate(s, a) == None <==>
              && a.leaseId in s.leases && s.leases[a.leaseId].runtimeGeneration == s.runtimeGeneration
              && SingleKnownConsumer(a.consumerBit) && a.consumerBit <= s.leases[a.leaseId].openBits
              && a == s.leases[a.leaseId].AccessFor(a.consumerBit, s.runtimeGeneration)
  {
    if a.leaseId in s.leases {
      MintedAccess(s, a.leaseId, a.consumerBit);
      if Validate(s, a) == None {
        AcceptedAccess(s, a);
      }
    }
  }

  /** What each reason says is wrong with the access. */
  predicate Blamable(s: State, a: Access, why: Rejection) {
    var known := a.leaseId in s.leases;
    match why
    case LeaseIdentityMismatch => !known
    case UnknownConsumer => !SingleKnownConsumer(a.consumerBit)
    case NotRequested => known && s.leases[a.leaseId].requestedBits * a.consumerBit == {}
    case DuplicateSettlement => known && s.leases[a.leaseId].openBits * a.consumerBit == {}
    case GenerationMismatch => known && !(a.runtimeGeneration == s.runtimeGeneration == s.leases[a.leaseId].runtimeGeneration)
    case EpochMismatch =>
      known && !(a.mapEpoch == s.leases[a.leaseId].mapEpoch == s.mapEpoch
                 && a.deviceEpoch == s.leases[a.leaseId].deviceEpoch == s.deviceEpoch)
    case TokenMismatch => known && a.token != s.leases[a.leaseId].token
    case PageIdentityMismatch =>
      known && (a.pageId, a.pageGeneration) != (s.leases[a.leaseId].pageId, s.leases[a.leaseId].pageGeneration)
    case RangeMismatch => known && a.ranges != s.leases[a.leaseId].ranges
    case _ => false
  }

  /** The order in which reasons are looked for; the reasons past 8 are not about an access. */
  function Rank(why: Rejection): nat {
    match why
    case LeaseIdentityMismatch => 0
    case UnknownConsumer => 1
    case NotRequested => 2
    case DuplicateSettlement => 3
    case GenerationMismatch => 4
    case EpochMismatch => 5
    case TokenMismatch => 6
    case PageIdentityMismatch => 7
    case RangeMismatch => 8
    case _ => 9
  }

  lemma ReasonFound(s: State, a: Access, other: Rejection)
    ensures match Validate(s, a)
      case Some(why) => Blamable(s, a, why) && (Rank(other) < Rank(why) ==> !Blamable(s, a, other))
      case None => !Blamable(s, a, other)
  {
  }

  /** A refusal gives the first reason in this order that is true of the access; an access is accepted when none is. */
  lemma BlamesTheFirst(s: State, a: Access, why: Rejection)
    ensures Validate(s, a) == Some(why) <==>
              Blamable(s, a, why) && forall other :: Rank(other) < Rank(why) ==> !Blamable(s, a, other)
    ensures Validate(s, a) == None <==> forall other :: !Blamable(s, a, other)
  {
    hide Validate, Blamable;
    forall other ensures Validate(s, a).None? ==> !Blamable(s, a, other)
                 ensures Validate(s, a).Some? && Rank(other) < Rank(Validate(s, a).value) ==> !Blamable(s, a, other) {
      ReasonFound(s, a, other);
    }
    ReasonFound(s, a, why);
    BlamableHasRank(s, a, why);
    if Validate(s, a).Some? {
      BlamableHasRank(s, a, Validate(s, a).value);
    }
  }

  lemma BlamableHasRank(s: State, a: Access, why: Rejection)
    ensures Blamable(s, a, why) ==> Rank(why) <= 8
  {
  }

  /** Right after a lease is registered, the accesses accepted for it are exactly those that repeat the request, for one
      requested bit, in the current generation and epochs and at the page's generation. */
  lemma RequestIsItsAccess(s: State, r: LeaseRequest, a: Access)
    requires Inv(s) && AddLease(s, r).reply == Done && a.leaseId == r.leaseId
    ensures r.pageId in s.pages
    ensures Validate(AddLease(s, r).state, a) == None <==>
              && SingleKnownConsumer(a.consumerBit) && a.consumerBit <= r.requestedBits
              && a == Access(r.leaseId, a.consumerBit, s.runtimeGeneration, s.mapEpoch, s.deviceEpoch, r.token, r.pageId,
                             s.pages[r.pageId].generation, r.ranges)
  {
    hide AddLease, Inv, Validate;
    RegisteredLease(s, r);
    AddLeaseInv(s, r);
    AcceptedIff(AddLease(s, r).state, a);
  }

  /** And after a reset, those of a new lease are in the next generation and in the epochs the reset was given. */
  lemma RequestAfterReset(s: State, mapEpoch: Option<int>, deviceEpoch: Option<int>, r: LeaseRequest, a: Access)
    requires Inv(s) && Reset(s, mapEpoch, deviceEpoch).reply == Done
    requires var t := Reset(s, mapEpoch, deviceEpoch).state; AddLease(t, r).reply == Done && a.leaseId == r.leaseId
    ensures Validate(AddLease(Reset(s, mapEpoch, deviceEpoch).state, r).state, a) == None ==>
              && a.runtimeGeneration == s.runtimeGeneration + 1
              && a.mapEpoch == (match mapEpoch case Some(e) => e case None => s.mapEpoch)
              && a.deviceEpoch == (match deviceEpoch case Some(e) => e case None => s.deviceEpoch)
  {
    hide AddLease, Inv, Validate, CancelAll;
    ResetInv(s, mapEpoch, deviceEpoch);
    RequestIsItsAccess(Reset(s, mapEpoch, deviceEpoch).state, r, a);
  }

  // A bit is used once

  predicate Uses(op: Op, a: Access) {
    (op.OpBegin? && op.access == a) || (op.OpSettle? && op.access == a)
  }

  lemma UsedBitCloses(s: State, op: Op, a: Access)
    requires Validate(s, a) == None && Uses(op, a)
    ensures a.leaseId in Step(s, op).state.leases && Step(s, op).state.leases[a.leaseId].openBits !! a.consumerBit
  {
    assert a.leaseId in s.leases;
    hide Validate;
  }

  /** Once an access has been used, by a submission or by settling without one, no access to the same bit of that lease
      is accepted again, over any continuation. */
  lemma BitIsUsedOnce(s: State, op: Op, a: Access, ops: seq<Op>, again: Access)
    requires Inv(s) && Enabled(s, op) && Uses(op, a) && Validate(s, a) == None
    requires Possible(Step(s, op).state, ops)
    requires again.leaseId == a.leaseId && again.consumerBit == a.consumerBit
    ensures Validate(Run(Step(s, op).state, ops), again).Some?
  {
    hide Inv, Step, Validate, Run, Possible;
    var t := Step(s, op).state;
    UsedBitCloses(s, op, a);
    StepInv(s, op);
    RunInv(t, ops);
    RunContinues(t, ops, a.leaseId);
    AcceptedIff(Run(t, ops), again);
  }

  // Retiring

  /** Some call of the run queued this lease, or reset the runtime. */
  predicate QueuedBy(s: State, ops: seq<Op>, id: int)
    decreases |ops|
  {
    ops != [] &&
    (|| (Step(s, ops[0]).reply == Done && (ops[0] == OpQueue(id) || ops[0].OpReset?))
     || QueuedBy(Step(s, ops[0]).state, ops[1..], id))
  }

  lemma QueueQueues(s: State, id: int)
    requires QueueRetirement(s, id).reply == Done
    ensures id in QueueRetirement(s, id).state.leases && QueueRetirement(s, id).state.leases[id].retirementQueued
  {
  }

  lemma ResetQueues(s: State, m: Option<int>, d: Option<int>, id: int)
    requires LeasesOk(s) && Reset(s, m, d).reply == Done && id in s.leases
    ensures id in Reset(s, m, d).state.leases && Reset(s, m, d).state.leases[id].retirementQueued
  {
    hide FencesComplete, LeaseOk;
    assert Placed(s, s.leases[id]);
  }

  lemma OthersQueueNothing(s: State, op: Op, id: int)
    requires id in s.leases && id in Step(s, op).state.leases
    requires !(Step(s, op).reply == Done && (op == OpQueue(id) || op.OpReset?))
    ensures Step(s, op).state.leases[id].retirementQueued ==> s.leases[id].retirementQueued
  {
    hide RequestMalformed, Validate, Absorb, Eligible, ReleasePages, UnsafeReuse, PageBlockers, Bump;
  }

  lemma StepQueues(s: State, op: Op, id: int)
    requires Inv(s) && id in s.leases
    ensures id in Step(s, op).state.leases
    ensures Step(s, op).state.leases[id].retirementQueued <==>
              s.leases[id].retirementQueued || (Step(s, op).reply == Done && (op == OpQueue(id) || op.OpReset?))
  {
    hide Eligible, LeaseOk, Placed, PagesOk, TicketsOk, QueueRetirement, Reset, AddPage, AddLease, Begin, Commit,
      SettleWithoutGpu, Poll, ReopenPage;
    StepContinues(s, op);
    if Step(s, op).reply == Done && op == OpQueue(id) {
      QueueQueues(s, id);
    } else if Step(s, op).reply == Done && op.OpReset? {
      ResetQueues(s, op.nextMapEpoch, op.nextDeviceEpoch, id);
    } else {
      OthersQueueNothing(s, op, id);
    }
  }

  /** A lease waits to be retired exactly when it did at the start or a successful call queued it since, and so its page
      is let go only then. */
  lemma {:induction false} QueuedExactly(s: State, ops: seq<Op>, id: int)
    requires Inv(s) && Possible(s, ops) && id in s.leases
    ensures var t := Run(s, ops);
      && id in t.leases && (t.leases[id].retirementQueued <==> s.leases[id].retirementQueued || QueuedBy(s, ops, id))
      && (LetGo(t, s.leases[id].pageId, s.leases[id].pageGeneration) ==> s.leases[id].retirementQueued || QueuedBy(s, ops, id))
    decreases |ops|
  {
    hide Inv, Step, LetGo;
    if ops == [] {
      if LetGo(s, s.leases[id].pageId, s.leases[id].pageGeneration) {
        LetGoIsEligible(s, id);
      }
    } else {
      StepInv(s, ops[0]);
      StepQueues(s, ops[0], id);
      StepKeepsLeases(s, ops[0]);
      QueuedExactly(Step(s, ops[0]).state, ops[1..], id);
    }
  }

  /** A successful queue is all that was missing: a page whose one lease has nothing pending is freed by the next poll that
      completes its fences. */
  lemma QueueThenPollFrees(s: State, id: int, completed: seq<(string, int)>)
    requires Inv(s) && QueueRetirement(s, id).reply == Done && id in s.leases && s.leases[id].pageId in s.pages
    requires s.pages[s.leases[id].pageId].currentLeaseIds == [id] && s.leases[id].pendingTicketIds == map[]
    requires Absorb(s.lastCompleted, completed).1 && FencesComplete(s.leases[id], Absorb(s.lastCompleted, completed).0)
    ensures var t := Poll(QueueRetirement(s, id).state, completed).state;
      s.leases[id].pageId in t.pages && t.pages[s.leases[id].pageId].reusable
  {
    hide Inv, Poll, Absorb;
    QueueInv(s, id);
    PollReleasesQuietPage(QueueRetirement(s, id).state, completed, s.leases[id].pageId);
  }

  // Counters

  /** In how many steps of the run something was the case. */
  function Steps(s: State, ops: seq<Op>, hit: (State, Op) -> bool): nat
    decreases |ops|
  {
    if ops == [] then 0
    else (if hit(s, ops[0]) then 1 else 0) + Steps(Step(s, ops[0]).state, ops[1..], hit)
  }

  predicate IsPoll(s: State, op: Op) { op.OpPoll? }

  predicate IsIssue(s: State, op: Op) { Step(s, op).reply.Issued? }

  predicate IsReset(s: State, op: Op) { op.OpReset? && Step(s, op).reply == Done }

  /** A commit for an access of an earlier runtime generation. */
  predicate IsLateCommit(s: State, op: Op) {
    op.OpCommit? && Step(s, op).reply == Done && op.ticket.access.runtimeGeneration != s.runtimeGeneration
  }

  function IsDecline(why: Rejection): (State, Op) -> bool {
    (s: State, op: Op) => Step(s, op).reply == Declined(why)
  }

  function IsReopen(pageId: int): (State, Op) -> bool {
    (s: State, op: Op) => op == OpReopen(pageId) && Step(s, op).reply == Done
  }

  function One(b: bool): nat {
    if b then 1 else 0
  }

  lemma StepCountsCalls(s: State, op: Op)
    ensures Step(s, op).state.pollCount == s.pollCount + One(IsPoll(s, op))
    ensures Step(s, op).state.nextTicketId == s.nextTicketId + One(IsIssue(s, op))
  {
    hide RequestMalformed, Validate, CancelAll, Absorb, ReclaimAll, ReleasePages, UnsafeReuse, PageBlockers, Bump;
  }

  lemma StepCountsLate(s: State, op: Op)
    ensures Step(s, op).state.runtimeGeneration == s.runtimeGeneration + One(IsReset(s, op))
    ensures Step(s, op).state.postResetReceiptCommits == s.postResetReceiptCommits + One(IsLateCommit(s, op))
  {
    hide RequestMalformed, Validate, CancelAll, Absorb, ReclaimAll, ReleasePages, UnsafeReuse, PageBlockers, Bump;
  }

  lemma OthersDeclineNothing(s: State, op: Op)
    requires !Step(s, op).reply.Declined?
    ensures Step(s, op).state.rejections == s.rejections
  {
    hide RequestMalformed, Validate, CancelAll, Absorb, ReclaimAll, ReleasePages, UnsafeReuse, PageBlockers, Bump;
  }

  lemma StepCountsDeclines(s: State, op: Op, why: Rejection)
    ensures Count(Step(s, op).state.rejections, why) == Count(s.rejections, why) + One(IsDecline(why)(s, op))
  {
    hide Count, Step;
    if Step(s, op).reply.Declined? {
      DeclinedOnlyCounts(s, op, why);
    } else {
      OthersDeclineNothing(s, op);
    }
  }

  predicate SameGeneration(s: State, t: State, pageId: int)
    requires pageId in s.pages
  {
    && pageId in t.pages && t.pages[pageId].generation == s.pages[pageId].generation
    && t.pages[pageId].reuseCount == s.pages[pageId].reuseCount
  }

  lemma OthersKeepGenerations(s: State, op: Op, pageId: int)
    requires pageId in s.pages && !op.OpPoll? && !op.OpReopen?
    ensures SameGeneration(s, Step(s, op).state, pageId)
  {
    hide RequestMalformed, Validate, CancelAll, Bump;
  }

  lemma PollKeepsGenerations(s: State, completed: seq<(string, int)>, pageId: int)
    requires pageId in s.pages
    ensures SameGeneration(s, Poll(s, completed).state, pageId)
  {
    hide Absorb, ReclaimAll, Discharged, UnsafeReuse;
  }

  lemma StepCountsReopens(s: State, op: Op, pageId: int)
    requires pageId in s.pages
    ensures var t := Step(s, op).state;
      && pageId in t.pages
      && t.pages[pageId].generation == s.pages[pageId].generation + One(IsReopen(pageId)(s, op))
      && t.pages[pageId].reuseCount == s.pages[pageId].reuseCount + One(IsReopen(pageId)(s, op))
  {
    hide AddPage, AddLease, Begin, Commit, SettleWithoutGpu, QueueRetirement, Reset, Poll, PageBlockers;
    match op
    case OpPoll(c) => PollKeepsGenerations(s, c, pageId);
    case OpReopen(_) =>
    case _ => OthersKeepGenerations(s, op, pageId);
  }

  /** Over any run the counters are the numbers of the calls they are named after. */
  lemma {:induction false} CountersCount(s: State, ops: seq<Op>, why: Rejection)
    ensures var t := Run(s, ops);
      && t.pollCount == s.pollCount + Steps(s, ops, IsPoll)
      && t.nextTicketId == s.nextTicketId + Steps(s, ops, IsIssue)
      && t.runtimeGeneration == s.runtimeGeneration + Steps(s, ops, IsReset)
      && t.postResetReceiptCommits == s.postResetReceiptCommits + Steps(s, ops, IsLateCommit)
      && Count(t.rejections, why) == Count(s.rejections, why) + Steps(s, ops, IsDecline(why))
    decreases |ops|
  {
    hide Step, Count, IsPoll, IsIssue, IsReset, IsLateCommit, IsDecline;
    if ops != [] {
      StepCountsCalls(s, ops[0]);
      StepCountsLate(s, ops[0]);
      StepCountsDeclines(s, ops[0], why);
      CountersCount(Step(s, ops[0]).state, ops[1..], why);
    }
  }

  lemma {:induction false} ReopensCount(s: State, ops: seq<Op>, pageId: int)
    requires pageId in s.pages
    ensures var t := Run(s, ops);
      && pageId in t.pages
      && t.pages[pageId].generation == s.pages[pageId].generation + Steps(s, ops, IsReopen(pageId))
      && t.pages[pageId].reuseCount == s.pages[pageId].reuseCount + Steps(s, ops, IsReopen(pageId))
    decreases |ops|
  {
    hide Step, IsReopen;
    if ops != [] {
      StepCountsReopens(s, ops[0], pageId);
      ReopensCount(Step(s, ops[0]).state, ops[1..], pageId);
    }
  }

  /** A page's generation is one more than the number of times it was reopened. */
  lemma GenerationCountsReopens(s: State, pageId: int, ops: seq<Op>)
    requires AddPage(s, pageId).reply == Done
    ensures var t, reopened := Run(AddPage(s, pageId).state, ops), Steps(AddPage(s, pageId).state, ops, IsReopen(pageId));
      pageId in t.pages && t.pages[pageId].generation == 1 + reopened && t.pages[pageId].reuseCount == reopened
  {
    ReopensCount(AddPage(s, pageId).state, ops, pageId);
  }
}
