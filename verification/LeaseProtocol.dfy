/** The GPU-skin input-lease protocol as a transition system over values.

    The state is what InputLeaseModel holds between two calls; each operation maps a state
    and its arguments to the next state and the reply the caller sees. A submission ticket is
    a heap object with constant fields, so `==` on tickets is object identity, as in the source.
  */
module LeaseProtocol {
  import opened Wrappers

  /** A consumer mask is the set of its bit positions. */
  type Mask = set<nat>

  const MAIN: Mask := {0}
  const SHADOW: Mask := {1}
  const OUTLINE: Mask := {2}
  const PARITY: Mask := {3}
  const KNOWN_CONSUMERS: Mask := {0, 1, 2, 3}

  predicate SingleKnownConsumer(bit: Mask) {
    bit == MAIN || bit == SHADOW || bit == OUTLINE || bit == PARITY
  }

  /** The OR of a collection of masks. */
  function Flatten(masks: set<Mask>): Mask {
    set m, b | m in masks && b in m :: b
  }

  datatype RawReceipt = FenceReceipt(fence: string, value: int)

  /** A receipt names a fence and a positive value; the source refuses to construct any other. */
  type Receipt = r: RawReceipt | r.fence != "" && r.value > 0 witness FenceReceipt("f", 1)

  datatype Ranges = Ranges(staticOffset: int, staticLength: int, paletteOffset: int, paletteLength: int)

  /** What a caller presents to use a lease, and what a ticket remembers about that use. */
  datatype Access = Access(leaseId: int, consumerBit: Mask, runtimeGeneration: int, mapEpoch: int, deviceEpoch: int,
                           token: int, pageId: int, pageGeneration: int, ranges: Ranges)

  /** An opaque capability: commit accepts only the very object begin returned. */
  class SubmissionTicket {
    const ticketId: int
    const access: Access

    constructor (ticketId: int, access: Access)
      ensures this.ticketId == ticketId && this.access == access
    {
      this.ticketId := ticketId;
      this.access := access;
    }
  }

  datatype PendingSubmission = PendingSubmission(ticket: SubmissionTicket, irreversible: bool)

  datatype Lease = Lease(
    leaseId: int, runtimeGeneration: int, mapEpoch: int, deviceEpoch: int, token: int,
    pageId: int, pageGeneration: int, ranges: Ranges, requestedBits: Mask, producerReceipt: Option<Receipt>,
    openBits: Mask, pendingTicketIds: map<Mask, int>, gpuReceipts: map<Mask, Receipt>,
    noGpuBits: Mask, resetCancelledBits: Mask, retirementQueued: bool, reclaimed: bool)
  {
    function PendingBits(): Mask { Flatten(pendingTicketIds.Keys) }

    function GpuBits(): Mask { Flatten(gpuReceipts.Keys) }

    function TerminalBits(): Mask { GpuBits() + noGpuBits + resetCancelledBits }

    /** The access that names this lease exactly, for one consumer and one runtime generation. */
    function AccessFor(bit: Mask, generation: int): Access {
      Access(leaseId, bit, generation, mapEpoch, deviceEpoch, token, pageId, pageGeneration, ranges)
    }
  }

  datatype Page = Page(pageId: int, generation: int, currentLeaseIds: seq<int>, liveClaims: set<(int, int)>,
                       reusable: bool, reuseCount: int)

  datatype Rejection =
    | UnknownConsumer | NotRequested | LeaseIdentityMismatch | GenerationMismatch | EpochMismatch
    | TokenMismatch | RangeMismatch | PageIdentityMismatch | DuplicateSettlement | RetireWhileOpen
    | PageReopenUnsafe | StaleTicket | ForgedTicket | PendingIndexMismatch

  type Counters = map<Rejection, nat>

  function Count(counters: Counters, kind: Rejection): nat {
    if kind in counters then counters[kind] else 0
  }

  function Bump(counters: Counters, kind: Rejection): Counters {
    counters[kind := Count(counters, kind) + 1]
  }

  datatype State = State(
    runtimeGeneration: int, mapEpoch: int, deviceEpoch: int,
    pages: map<int, Page>, leases: map<int, Lease>, pendingSubmissions: map<int, PendingSubmission>,
    nextTicketId: int, pollCount: int, unsafeReuseCount: int, postResetReceiptCommits: int,
    lastCompleted: map<string, int>, rejections: Counters)

  datatype Error = ValueError | KeyError | AssertionError

  /** What the caller of an operation observes. */
  datatype Reply = Done | Issued(ticket: SubmissionTicket) | Declined(why: Rejection) | Raised(error: Error)

  datatype Outcome = Outcome(state: State, reply: Reply)

  function Decline(s: State, why: Rejection): Outcome {
    Outcome(s.(rejections := Bump(s.rejections, why)), Declined(why))
  }

  function Initial(mapEpoch: int, deviceEpoch: int): State {
    State(1, mapEpoch, deviceEpoch, map[], map[], map[], 1, 0, 0, 0, map[], map[])
  }

  // Registering pages and leases

  predicate ValidRange(offset: int, length: int) {
    0 <= offset <= 0xFFFFFFFF && 0 < length <= 0xFFFFFFFF && offset + length <= 0x1_0000_0000
  }

  function AddPage(s: State, pageId: int): Outcome {
    if pageId <= 0 || pageId in s.pages then
      Outcome(s, Raised(ValueError))
    else
      Outcome(s.(pages := s.pages[pageId := Page(pageId, 1, [], {}, false, 0)]), Done)
  }

  datatype LeaseRequest = LeaseRequest(leaseId: int, pageId: int, token: int, requestedBits: Mask,
                                       producerReceipt: Option<Receipt>, ranges: Ranges)

  function NewLease(s: State, r: LeaseRequest, pageGeneration: int): Lease {
    Lease(r.leaseId, s.runtimeGeneration, s.mapEpoch, s.deviceEpoch, r.token, r.pageId, pageGeneration, r.ranges,
          r.requestedBits, r.producerReceipt, r.requestedBits, map[], map[], {}, {}, false, false)
  }

  predicate RequestMalformed(s: State, r: LeaseRequest) {
    || r.leaseId <= 0
    || r.leaseId in s.leases
    || r.token <= 0
    || r.requestedBits == {}
    || !(r.requestedBits <= KNOWN_CONSUMERS)
    || !ValidRange(r.ranges.staticOffset, r.ranges.staticLength)
    || !ValidRange(r.ranges.paletteOffset, r.ranges.paletteLength)
  }

  function AddLease(s: State, r: LeaseRequest): Outcome {
    if RequestMalformed(s, r) then
      Outcome(s, Raised(ValueError))
    else if r.pageId !in s.pages then
      Outcome(s, Raised(KeyError))
    else
      var page := s.pages[r.pageId];
      if page.reusable || (page.liveClaims != {} && page.currentLeaseIds == []) then
        Outcome(s, Raised(ValueError))
      else
        Outcome(s.(leases := s.leases[r.leaseId := NewLease(s, r, page.generation)],
                   pages := s.pages[r.pageId := page.(currentLeaseIds := page.currentLeaseIds + [r.leaseId],
                                                      liveClaims := page.liveClaims + {(r.leaseId, page.generation)},
                                                      reusable := false)]),
                Done)
  }

  // Using a lease

  /** The first check an access fails, in the order the source tests them. */
  function Validate(s: State, a: Access): Option<Rejection> {
    if a.leaseId !in s.leases then Some(LeaseIdentityMismatch) else
    var lease := s.leases[a.leaseId];
    if !SingleKnownConsumer(a.consumerBit) then Some(UnknownConsumer)
    else if lease.requestedBits * a.consumerBit == {} then Some(NotRequested)
    else if lease.openBits * a.consumerBit == {} then Some(DuplicateSettlement)
    else if a.runtimeGeneration != s.runtimeGeneration || lease.runtimeGeneration != s.runtimeGeneration then
      Some(GenerationMismatch)
    else if a.mapEpoch != lease.mapEpoch || a.deviceEpoch != lease.deviceEpoch
         || a.mapEpoch != s.mapEpoch || a.deviceEpoch != s.deviceEpoch then
      Some(EpochMismatch)
    else if a.token != lease.token then Some(TokenMismatch)
    else if a.pageId != lease.pageId || a.pageGeneration != lease.pageGeneration then Some(PageIdentityMismatch)
    else if a.ranges != lease.ranges then Some(RangeMismatch)
    else None
  }

  /** `capability` is the object the call creates; it carries the next id and the access. */
  function Begin(s: State, a: Access, capability: SubmissionTicket): Outcome {
    match Validate(s, a)
    case Some(why) => Decline(s, why)
    case None =>
      var lease := s.leases[a.leaseId];
      Outcome(s.(nextTicketId := s.nextTicketId + 1,
                 pendingSubmissions := s.pendingSubmissions[s.nextTicketId := PendingSubmission(capability, true)],
                 leases := s.leases[a.leaseId :=
                   lease.(pendingTicketIds := lease.pendingTicketIds[a.consumerBit := s.nextTicketId],
                          openBits := lease.openBits - a.consumerBit)]),
              Issued(capability))
  }

  function Commit(s: State, ticket: SubmissionTicket, receipt: Receipt): Outcome {
    if ticket.ticketId !in s.pendingSubmissions then
      Decline(s, StaleTicket)
    else if s.pendingSubmissions[ticket.ticketId].ticket != ticket then
      Decline(s, ForgedTicket)
    else
      var a := ticket.access;
      if || a.leaseId !in s.leases
         || a.consumerBit !in s.leases[a.leaseId].pendingTicketIds
         || s.leases[a.leaseId].pendingTicketIds[a.consumerBit] != ticket.ticketId then
        Decline(s, PendingIndexMismatch)
      else
        var lease := s.leases[a.leaseId];
        var late := if a.runtimeGeneration != s.runtimeGeneration then 1 else 0;
        Outcome(s.(pendingSubmissions := s.pendingSubmissions - {ticket.ticketId},
                   leases := s.leases[a.leaseId :=
                     lease.(pendingTicketIds := lease.pendingTicketIds - {a.consumerBit},
                            gpuReceipts := lease.gpuReceipts[a.consumerBit := receipt])],
                   postResetReceiptCommits := s.postResetReceiptCommits + late),
                Done)
  }

  function SettleWithoutGpu(s: State, a: Access): Outcome {
    match Validate(s, a)
    case Some(why) => Decline(s, why)
    case None =>
      var lease := s.leases[a.leaseId];
      Outcome(s.(leases := s.leases[a.leaseId := lease.(noGpuBits := lease.noGpuBits + a.consumerBit,
                                                        openBits := lease.openBits - a.consumerBit)]),
              Done)
  }

  function QueueRetirement(s: State, leaseId: int): Outcome {
    if leaseId !in s.leases then
      Outcome(s, Raised(KeyError))
    else if s.leases[leaseId].openBits != {} then
      Decline(s, RetireWhileOpen)
    else
      Outcome(s.(leases := s.leases[leaseId := s.leases[leaseId].(retirementQueued := true)]), Done)
  }

  function CancelUnstarted(lease: Lease): Lease {
    if lease.reclaimed then lease
    else lease.(resetCancelledBits := lease.resetCancelledBits + lease.openBits, openBits := {},
                retirementQueued := true)
  }

  function Reset(s: State, nextMapEpoch: Option<int>, nextDeviceEpoch: Option<int>): Outcome {
    if (nextMapEpoch.Some? && nextMapEpoch.value <= 0) || (nextDeviceEpoch.Some? && nextDeviceEpoch.value <= 0) then
      Outcome(s, Raised(ValueError))
    else
      Outcome(s.(runtimeGeneration := s.runtimeGeneration + 1,
                 mapEpoch := if nextMapEpoch.Some? then nextMapEpoch.value else s.mapEpoch,
                 deviceEpoch := if nextDeviceEpoch.Some? then nextDeviceEpoch.value else s.deviceEpoch,
                 leases := CancelAll(s.leases)),
              Done)
  }

  function CancelAll(leases: map<int, Lease>): map<int, Lease> {
    map id | id in leases :: CancelUnstarted(leases[id])
  }

  // Releasing

  predicate ReceiptComplete(receipt: Receipt, completed: map<string, int>) {
    (if receipt.fence in completed then completed[receipt.fence] else 0) >= receipt.value
  }

  predicate FencesComplete(lease: Lease, completed: map<string, int>) {
    && (lease.producerReceipt.Some? ==> ReceiptComplete(lease.producerReceipt.value, completed))
    && forall bit | bit in lease.gpuReceipts :: ReceiptComplete(lease.gpuReceipts[bit], completed)
  }

  /** The allocator's own transition predicate. */
  predicate Eligible(lease: Lease, completed: map<string, int>) {
    && lease.retirementQueued
    && lease.openBits == {}
    && lease.pendingTicketIds == map[]
    && lease.TerminalBits() == lease.requestedBits
    && FencesComplete(lease, completed)
  }

  datatype Blocker =
    | RetirementNotQueued | ClassificationMismatch | ClassificationOverlap | PendingReceipt
    | MissingGlobalIndex(ticketId: int) | NotIrreversible(ticketId: int) | TicketIdentityMismatch(ticketId: int)
    | MissingLeaseIndex(ticketId: int) | ProducerFenceIncomplete | InvalidReceiptBit(bit: Mask)
    | ConsumerFenceIncomplete(bit: Mask)

  /** The separately written audit of one lease: it reads the raw ledger, never `reclaimed`. */
  function LeaseBlockers(s: State, lease: Lease): set<Blocker> {
    ClassificationBlockers(lease) + TicketBlockers(s, lease) + FenceBlockers(lease, s.lastCompleted)
  }

  function ClassificationBlockers(lease: Lease): set<Blocker> {
    var pending := lease.PendingBits();
    var terminal := lease.TerminalBits();
    (if !lease.retirementQueued then {RetirementNotQueued} else {})
     + (if lease.openBits + pending + terminal != lease.requestedBits then {ClassificationMismatch} else {})
     + (if lease.openBits * pending + lease.openBits * terminal + pending * terminal != {}
        then {ClassificationOverlap} else {})
     + (if pending != {} then {PendingReceipt} else {})
  }

  /** Lease to global index, then global index to lease; neither side is taken as the authority. */
  function TicketBlockers(s: State, lease: Lease): set<Blocker> {
    (set bit | bit in lease.pendingTicketIds && lease.pendingTicketIds[bit] !in s.pendingSubmissions
       :: MissingGlobalIndex(lease.pendingTicketIds[bit]))
     + (set bit | && bit in lease.pendingTicketIds
                  && lease.pendingTicketIds[bit] in s.pendingSubmissions
                  && !s.pendingSubmissions[lease.pendingTicketIds[bit]].irreversible
          :: NotIrreversible(lease.pendingTicketIds[bit]))
     + (set bit | && bit in lease.pendingTicketIds
                  && lease.pendingTicketIds[bit] in s.pendingSubmissions
                  && s.pendingSubmissions[lease.pendingTicketIds[bit]].ticket.access
                     != lease.AccessFor(bit, lease.runtimeGeneration)
          :: TicketIdentityMismatch(lease.pendingTicketIds[bit]))
     + (set id | && id in s.pendingSubmissions
                 && s.pendingSubmissions[id].ticket.access.leaseId == lease.leaseId
                 && !Indexes(lease, s.pendingSubmissions[id].ticket.access.consumerBit, id)
          :: MissingLeaseIndex(id))
  }

  function FenceBlockers(lease: Lease, completed: map<string, int>): set<Blocker> {
    (if lease.producerReceipt.Some? && !ReceiptComplete(lease.producerReceipt.value, completed)
     then {ProducerFenceIncomplete} else {})
     + (set bit | bit in lease.gpuReceipts && (lease.requestedBits * bit == {} || !SingleKnownConsumer(bit))
          :: InvalidReceiptBit(bit))
     + (set bit | bit in lease.gpuReceipts && !ReceiptComplete(lease.gpuReceipts[bit], completed)
          :: ConsumerFenceIncomplete(bit))
  }

  predicate Indexes(lease: Lease, bit: Mask, ticketId: int) {
    bit in lease.pendingTicketIds && lease.pendingTicketIds[bit] == ticketId
  }

  datatype PageBlocker =
    | CurrentLeaseIndexMismatch | LeaseBlocked(leaseId: int, reason: Blocker) | TicketPendingIndex(ticketId: int)

  function ScannedIds(s: State, page: Page): set<int> {
    set id | id in s.leases && s.leases[id].pageId == page.pageId && s.leases[id].pageGeneration == page.generation
  }

  /** The audit of a page: its lease index, each of its leases, and every pending ticket that names it. */
  function PageBlockers(s: State, page: Page): set<PageBlocker> {
    (if (set id | id in page.currentLeaseIds) != ScannedIds(s, page) then {CurrentLeaseIndexMismatch} else {})
     + (set id, why | id in ScannedIds(s, page) && why in LeaseBlockers(s, s.leases[id]) :: LeaseBlocked(id, why))
     + (set id | && id in s.pendingSubmissions
                 && s.pendingSubmissions[id].ticket.access.pageId == page.pageId
                 && s.pendingSubmissions[id].ticket.access.pageGeneration == page.generation
          :: TicketPendingIndex(s.pendingSubmissions[id].ticket.ticketId))
  }

  /** Fence values are absorbed one by one until one of them runs backwards. */
  function Absorb(last: map<string, int>, completed: seq<(string, int)>): (map<string, int>, bool)
    decreases |completed|
  {
    if completed == [] then (last, true) else
    var (fence, value) := completed[0];
    if value < (if fence in last then last[fence] else 0) then (last, false)
    else Absorb(last[fence := value], completed[1..])
  }

  function Reclaim(lease: Lease, completed: map<string, int>): Lease {
    if !lease.reclaimed && Eligible(lease, completed) then lease.(reclaimed := true) else lease
  }

  /** The claims that a poll discards from one page. */
  function Discharged(leases: map<int, Lease>, pageId: int, completed: map<string, int>): set<(int, int)> {
    set id | id in leases && leases[id].pageId == pageId && !leases[id].reclaimed && Eligible(leases[id], completed)
      :: (leases[id].leaseId, leases[id].pageGeneration)
  }

  function PageAfterPoll(leases: map<int, Lease>, page: Page, completed: map<string, int>): Page {
    var claims := page.liveClaims - Discharged(leases, page.pageId, completed);
    page.(liveClaims := claims, reusable := page.currentLeaseIds != [] && claims == {})
  }

  function ReclaimAll(leases: map<int, Lease>, completed: map<string, int>): map<int, Lease> {
    map id | id in leases :: Reclaim(leases[id], completed)
  }

  function ReleasePages(pages: map<int, Page>, leases: map<int, Lease>, completed: map<string, int>): map<int, Page> {
    map id | id in pages :: PageAfterPoll(leases, pages[id], completed)
  }

  function Released(s: State, completed: map<string, int>): State {
    s.(pollCount := s.pollCount + 1,
       lastCompleted := completed,
       leases := ReclaimAll(s.leases, completed),
       pages := ReleasePages(s.pages, s.leases, completed))
  }

  predicate UnsafeReuse(s: State) {
    exists id | id in s.pages :: s.pages[id].reusable && PageBlockers(s, s.pages[id]) != {}
  }

  function Poll(s: State, completed: seq<(string, int)>): Outcome {
    var (last, monotone) := Absorb(s.lastCompleted, completed);
    if !monotone then
      Outcome(s.(pollCount := s.pollCount + 1, lastCompleted := last), Raised(ValueError))
    else
      Audited(Released(s, last))
  }

  /** The safety assertion that closes every poll. */
  function Audited(s: State): Outcome {
    if UnsafeReuse(s) then Outcome(s.(unsafeReuseCount := s.unsafeReuseCount + 1), Raised(AssertionError))
    else Outcome(s, Done)
  }

  function ReopenPage(s: State, pageId: int): Outcome {
    if pageId !in s.pages then
      Outcome(s, Raised(KeyError))
    else
      var page := s.pages[pageId];
      if !page.reusable || page.liveClaims != {} || page.currentLeaseIds == [] || PageBlockers(s, page) != {} then
        Decline(s, PageReopenUnsafe)
      else
        Outcome(s.(pages := s.pages[pageId := page.(generation := page.generation + 1,
                                                    reuseCount := page.reuseCount + 1,
                                                    currentLeaseIds := [], liveClaims := {}, reusable := false)]),
                Done)
  }

  // Runs

  datatype Op =
    | OpAddPage(pageId: int)
    | OpAddLease(request: LeaseRequest)
    | OpBegin(access: Access, capability: SubmissionTicket)
    | OpCommit(ticket: SubmissionTicket, receipt: Receipt)
    | OpSettle(access: Access)
    | OpQueue(leaseId: int)
    | OpReset(nextMapEpoch: Option<int>, nextDeviceEpoch: Option<int>)
    | OpPoll(completed: seq<(string, int)>)
    | OpReopen(reopened: int)

  function Step(s: State, op: Op): Outcome {
    match op
    case OpAddPage(id) => AddPage(s, id)
    case OpAddLease(r) => AddLease(s, r)
    case OpBegin(a, capability) => Begin(s, a, capability)
    case OpCommit(t, r) => Commit(s, t, r)
    case OpSettle(a) => SettleWithoutGpu(s, a)
    case OpQueue(id) => QueueRetirement(s, id)
    case OpReset(m, d) => Reset(s, m, d)
    case OpPoll(c) => Poll(s, c)
    case OpReopen(id) => ReopenPage(s, id)
  }

  /** A begin hands out the ticket it has just constructed; nothing else restricts a caller. */
  predicate Enabled(s: State, op: Op) {
    op.OpBegin? ==> op.capability.ticketId == s.nextTicketId && op.capability.access == op.access
  }

  predicate Possible(s: State, ops: seq<Op>)
    decreases |ops|
  {
    ops == [] || (Enabled(s, ops[0]) && Possible(Step(s, ops[0]).state, ops[1..]))
  }

  function Run(s: State, ops: seq<Op>): State
    decreases |ops|
  {
    if ops == [] then s else Run(Step(s, ops[0]).state, ops[1..])
  }
}
