/** The life of one consumer of a lease: what each call makes of it, where it stands after any run, and when a lease whose
    consumers stand where they stand may be released. */
module LeaseLife {
  import opened Wrappers
  import opened LeaseProtocol
  import opened LeaseInvariant
  import opened LeaseSafety
  import opened LeaseLedger

  datatype Phase = NotAsked | Waiting | InFlight(ticketId: int) | Filed(receipt: Receipt) | WithoutGpu | Cancelled

  /** Where a consumer of this lease stands. */
  function PhaseOf(l: Lease, bit: Mask): Phase {
    if bit in l.pendingTicketIds then InFlight(l.pendingTicketIds[bit])
    else if bit in l.gpuReceipts then Filed(l.gpuReceipts[bit])
    else if bit <= l.openBits then Waiting
    else if bit <= l.noGpuBits then WithoutGpu
    else if bit <= l.resetCancelledBits then Cancelled
    else NotAsked
  }

  predicate For(a: Access, id: int, bit: Mask) {
    a.leaseId == id && a.consumerBit == bit
  }

  /** What a call makes of a consumer: a begin puts it in flight under the next ticket id, a commit files the receipt given,
      a settlement closes it without the GPU, and a reset cancels it if it was still waiting. Nothing else moves it. */
  function Moved(s: State, op: Op, id: int, bit: Mask, phase: Phase): Phase {
    match op
    case OpBegin(a, _) => if Step(s, op).reply.Issued? && For(a, id, bit) then InFlight(s.nextTicketId) else phase
    case OpCommit(ticket, receipt) =>
      if Step(s, op).reply == Done && For(ticket.access, id, bit) then Filed(receipt) else phase
    case OpSettle(a) => if Step(s, op).reply == Done && For(a, id, bit) then WithoutGpu else phase
    case OpReset(_, _) => if Step(s, op).reply == Done && phase == Waiting then Cancelled else phase
    case _ => phase
  }

  lemma Single(bit: Mask) returns (b: nat)
    requires SingleKnownConsumer(bit)
    ensures bit == {b} && b in KNOWN_CONSUMERS
  {
    b :| b in bit;
  }

  /** A waiting consumer has no ticket, no receipt and no settlement. */
  lemma OnlyWaiting(l: Lease, bit: Mask)
    requires LeaseOk(l) && SingleKnownConsumer(bit) && bit <= l.openBits
    ensures bit !in l.pendingTicketIds && bit !in l.gpuReceipts && !(bit <= l.noGpuBits)
  {
    hide Flatten;
    var b := Single(bit);
    assert b in l.openBits;
    if bit in l.pendingTicketIds {
      FlattenMember(l.pendingTicketIds.Keys, bit);
    }
    if bit in l.gpuReceipts {
      FlattenMember(l.gpuReceipts.Keys, bit);
    }
  }

  lemma BegunLease(l: Lease, used: Mask, ticketId: int, bit: Mask)
    requires LeaseOk(l) && SingleKnownConsumer(bit) && SingleKnownConsumer(used) && used <= l.openBits
    ensures var m := l.(pendingTicketIds := l.pendingTicketIds[used := ticketId], openBits := l.openBits - used);
      PhaseOf(m, bit) == if bit == used then InFlight(ticketId) else PhaseOf(l, bit)
  {
    hide LeaseOk;
    var b := Single(bit);
    var u := Single(used);
  }

  lemma CommittedLease(l: Lease, used: Mask, receipt: Receipt, bit: Mask)
    requires LeaseOk(l) && SingleKnownConsumer(bit) && used in l.pendingTicketIds
    ensures var m := l.(pendingTicketIds := l.pendingTicketIds - {used}, gpuReceipts := l.gpuReceipts[used := receipt]);
      PhaseOf(m, bit) == if bit == used then Filed(receipt) else PhaseOf(l, bit)
  {
    hide LeaseOk;
  }

  lemma SettledLease(l: Lease, used: Mask, bit: Mask)
    requires LeaseOk(l) && SingleKnownConsumer(bit) && SingleKnownConsumer(used) && used <= l.openBits
    ensures var m := l.(noGpuBits := l.noGpuBits + used, openBits := l.openBits - used);
      PhaseOf(m, bit) == if bit == used then WithoutGpu else PhaseOf(l, bit)
  {
    OnlyWaiting(l, used);
    var b := Single(bit);
    var u := Single(used);
    hide LeaseOk;
  }

  lemma CancelledLease(l: Lease, bit: Mask)
    requires LeaseOk(l) && SingleKnownConsumer(bit) && (l.reclaimed ==> l.openBits == {})
    ensures PhaseOf(CancelUnstarted(l), bit) == if PhaseOf(l, bit) == Waiting then Cancelled else PhaseOf(l, bit)
  {
    var b := Single(bit);
    if bit <= l.openBits {
      OnlyWaiting(l, bit);
    }
    hide LeaseOk;
  }

  predicate SameLedger(l: Lease, m: Lease) {
    && l.pendingTicketIds == m.pendingTicketIds && l.gpuReceipts == m.gpuReceipts && l.openBits == m.openBits
    && l.noGpuBits == m.noGpuBits && l.resetCancelledBits == m.resetCancelledBits
  }

  lemma SamePhase(l: Lease, m: Lease, bit: Mask)
    requires SameLedger(l, m)
    ensures PhaseOf(l, bit) == PhaseOf(m, bit)
  {
  }

  lemma BeginMoves(s: State, a: Access, c: SubmissionTicket, id: int, bit: Mask)
    requires Inv(s) && SingleKnownConsumer(bit) && id in s.leases
    ensures var t := Begin(s, a, c).state;
      && id in t.leases
      && PhaseOf(t.leases[id], bit) == Moved(s, OpBegin(a, c), id, bit, PhaseOf(s.leases[id], bit))
  {
    hide PhaseOf, LeaseOk, Placed, Validate, PagesOk, TicketsOk;
    if Validate(s, a).None? {
      AcceptedAccess(s, a);
      if a.leaseId == id {
        BegunLease(s.leases[id], a.consumerBit, s.nextTicketId, bit);
      }
    }
  }

  lemma CommitMoves(s: State, ticket: SubmissionTicket, receipt: Receipt, id: int, bit: Mask)
    requires LeasesOk(s) && SingleKnownConsumer(bit) && id in s.leases
    ensures var t := Commit(s, ticket, receipt).state;
      && id in t.leases
      && PhaseOf(t.leases[id], bit) == Moved(s, OpCommit(ticket, receipt), id, bit, PhaseOf(s.leases[id], bit))
  {
    hide PhaseOf, LeaseOk, Placed;
    if Commit(s, ticket, receipt).reply == Done && ticket.access.leaseId == id {
      CommittedLease(s.leases[id], ticket.access.consumerBit, receipt, bit);
    }
  }

  lemma SettleMoves(s: State, a: Access, id: int, bit: Mask)
    requires Inv(s) && SingleKnownConsumer(bit) && id in s.leases
    ensures var t := SettleWithoutGpu(s, a).state;
      && id in t.leases
      && PhaseOf(t.leases[id], bit) == Moved(s, OpSettle(a), id, bit, PhaseOf(s.leases[id], bit))
  {
    hide PhaseOf, LeaseOk, Placed, Validate, PagesOk, TicketsOk;
    if Validate(s, a).None? {
      AcceptedAccess(s, a);
      if a.leaseId == id {
        SettledLease(s.leases[id], a.consumerBit, bit);
      }
    }
  }

  lemma ResetMoves(s: State, m: Option<int>, d: Option<int>, id: int, bit: Mask)
    requires LeasesOk(s) && SingleKnownConsumer(bit) && id in s.leases
    ensures var t := Reset(s, m, d).state;
      && id in t.leases
      && PhaseOf(t.leases[id], bit) == Moved(s, OpReset(m, d), id, bit, PhaseOf(s.leases[id], bit))
  {
    hide PhaseOf, LeaseOk, CancelUnstarted, FencesComplete;
    assert Placed(s, s.leases[id]);
    CancelledLease(s.leases[id], bit);
  }

  predicate Moves(op: Op) {
    op.OpBegin? || op.OpCommit? || op.OpSettle? || op.OpReset?
  }

  lemma OthersKeepLedger(s: State, op: Op, id: int)
    requires id in s.leases && !Moves(op)
    ensures id in Step(s, op).state.leases && SameLedger(s.leases[id], Step(s, op).state.leases[id])
  {
    hide AddPage, AddLease, QueueRetirement, Poll, ReopenPage;
    match op
    case OpAddPage(p) => PagesKeepLedger(s, p, id);
    case OpAddLease(r) => NewLeaseKeepsLedger(s, r, id);
    case OpQueue(q) => QueueKeepsLedger(s, q, id);
    case OpPoll(c) => PollKeepsLedger(s, c, id);
    case OpReopen(p) => PagesKeepLedger(s, p, id);
    case _ =>
  }

  lemma PagesKeepLedger(s: State, pageId: int, id: int)
    ensures AddPage(s, pageId).state.leases == s.leases && ReopenPage(s, pageId).state.leases == s.leases
  {
    hide PageBlockers;
  }

  lemma NewLeaseKeepsLedger(s: State, r: LeaseRequest, id: int)
    requires id in s.leases
    ensures id in AddLease(s, r).state.leases && AddLease(s, r).state.leases[id] == s.leases[id]
  {
  }

  lemma QueueKeepsLedger(s: State, q: int, id: int)
    requires id in s.leases
    ensures var t := QueueRetirement(s, q).state; id in t.leases && SameLedger(s.leases[id], t.leases[id])
  {
  }

  lemma PollKeepsLedger(s: State, completed: seq<(string, int)>, id: int)
    requires id in s.leases
    ensures var t := Poll(s, completed).state; id in t.leases && SameLedger(s.leases[id], t.leases[id])
  {
    hide Absorb, Eligible, ReleasePages, UnsafeReuse;
  }

  lemma OthersMoveNothing(s: State, op: Op, id: int, bit: Mask)
    requires id in s.leases && !Moves(op)
    ensures id in Step(s, op).state.leases
    ensures PhaseOf(Step(s, op).state.leases[id], bit) == Moved(s, op, id, bit, PhaseOf(s.leases[id], bit))
  {
    hide Step, PhaseOf, SameLedger;
    OthersKeepLedger(s, op, id);
    SamePhase(s.leases[id], Step(s, op).state.leases[id], bit);
  }

  /** One call, one consumer. */
  lemma CallMoves(s: State, op: Op, id: int, bit: Mask)
    requires Inv(s) && SingleKnownConsumer(bit) && id in s.leases
    ensures id in Step(s, op).state.leases
    ensures PhaseOf(Step(s, op).state.leases[id], bit) == Moved(s, op, id, bit, PhaseOf(s.leases[id], bit))
  {
    hide LeasesOk, PagesOk, TicketsOk, PhaseOf, AddPage, AddLease, Begin, Commit, SettleWithoutGpu, QueueRetirement, Reset,
      Poll, ReopenPage;
    match op
    case OpBegin(a, c) => BeginMoves(s, a, c, id, bit);
    case OpCommit(t, r) => CommitMoves(s, t, r, id, bit);
    case OpSettle(a) => SettleMoves(s, a, id, bit);
    case OpReset(m, d) => ResetMoves(s, m, d, id, bit);
    case _ => OthersMoveNothing(s, op, id, bit);
  }

  function MovedBy(s: State, ops: seq<Op>, id: int, bit: Mask, phase: Phase): Phase
    decreases |ops|
  {
    if ops == [] then phase else MovedBy(Step(s, ops[0]).state, ops[1..], id, bit, Moved(s, ops[0], id, bit, phase))
  }

  /** After any run a consumer stands where the calls made of it, one after the other. */
  lemma {:induction false} RunMoves(s: State, ops: seq<Op>, id: int, bit: Mask)
    requires Inv(s) && Possible(s, ops) && SingleKnownConsumer(bit) && id in s.leases
    ensures id in Run(s, ops).leases
    ensures PhaseOf(Run(s, ops).leases[id], bit) == MovedBy(s, ops, id, bit, PhaseOf(s.leases[id], bit))
    decreases |ops|
  {
    hide Inv, Step, PhaseOf, Moved;
    if ops != [] {
      StepInv(s, ops[0]);
      CallMoves(s, ops[0], id, bit);
      RunMoves(Step(s, ops[0]).state, ops[1..], id, bit);
    }
  }

  /** From its registration on: each requested consumer begins waiting, every other is not asked for. */
  lemma LifeOfConsumer(s: State, r: LeaseRequest, ops: seq<Op>, bit: Mask)
    requires Inv(s) && AddLease(s, r).reply == Done && Possible(AddLease(s, r).state, ops) && SingleKnownConsumer(bit)
    ensures var added := AddLease(s, r).state; var t := Run(added, ops);
      && r.leaseId in t.leases
      && PhaseOf(t.leases[r.leaseId], bit) == MovedBy(added, ops, r.leaseId, bit,
                                                      if bit <= r.requestedBits then Waiting else NotAsked)
  {
    hide Inv, MovedBy, Run, Possible, RequestMalformed;
    var b := Single(bit);
    AddLeaseInv(s, r);
    RunMoves(AddLease(s, r).state, ops, r.leaseId, bit);
  }

  // When a lease may be released

  predicate Stood(completed: map<string, int>, r: Receipt) {
    r.fence in completed && completed[r.fence] >= r.value
  }

  /** The consumer is done with: cancelled, settled without the GPU, or filed under a fence that has got that far. */
  predicate Through(phase: Phase, completed: map<string, int>) {
    phase == Cancelled || phase == WithoutGpu || (phase.Filed? && Stood(completed, phase.receipt))
  }

  lemma StoodIsComplete(completed: map<string, int>, r: Receipt)
    ensures Stood(completed, r) <==> ReceiptComplete(r, completed)
  {
  }

  lemma KeyOfMember(keys: set<Mask>, bit: Mask, b: nat)
    requires KnownKeys(keys) && bit == {b} && b in Flatten(keys)
    ensures bit in keys
  {
    var m :| m in keys && b in m;
    var c := Single(m);
  }

  lemma ReleasableIsThrough(l: Lease, completed: map<string, int>, bit: Mask)
    requires LeaseOk(l) && Eligible(l, completed) && SingleKnownConsumer(bit) && bit <= l.requestedBits
    ensures Through(PhaseOf(l, bit), completed)
  {
    hide Flatten;
    var b := Single(bit);
    assert b in l.TerminalBits();
    if bit in l.gpuReceipts {
      StoodIsComplete(completed, l.gpuReceipts[bit]);
    } else if b in l.GpuBits() {
      KeyOfMember(l.gpuReceipts.Keys, bit, b);
    }
  }

  /** A consumer in flight or filed is one of the requested. */
  lemma KeysAreRequested(l: Lease, bit: Mask)
    requires LeaseOk(l) && (bit in l.pendingTicketIds || bit in l.gpuReceipts)
    ensures SingleKnownConsumer(bit) && bit <= l.requestedBits
  {
    hide Flatten;
    if bit in l.pendingTicketIds {
      FlattenMember(l.pendingTicketIds.Keys, bit);
    } else {
      FlattenMember(l.gpuReceipts.Keys, bit);
    }
  }

  lemma WaitingIsWaiting(l: Lease, b: nat)
    requires LeaseOk(l) && b in l.openBits
    ensures SingleKnownConsumer({b}) && {b} <= l.requestedBits && PhaseOf(l, {b}) == Waiting
  {
    assert b in KNOWN_CONSUMERS;
    OnlyWaiting(l, {b});
  }

  ghost predicate AllThrough(l: Lease, completed: map<string, int>) {
    forall bit | SingleKnownConsumer(bit) && bit <= l.requestedBits :: Through(PhaseOf(l, bit), completed)
  }

  lemma AllThroughSettled(l: Lease, completed: map<string, int>)
    requires LeaseOk(l) && AllThrough(l, completed)
    ensures l.openBits == {} && l.pendingTicketIds == map[]
    ensures forall bit | bit in l.gpuReceipts :: ReceiptComplete(l.gpuReceipts[bit], completed)
  {
    hide LeaseOk;
    forall b ensures b !in l.openBits {
      if b in l.openBits {
        WaitingIsWaiting(l, b);
      }
    }
    forall bit ensures bit !in l.pendingTicketIds {
      if bit in l.pendingTicketIds {
        KeysAreRequested(l, bit);
      }
    }
    forall bit | bit in l.gpuReceipts ensures ReceiptComplete(l.gpuReceipts[bit], completed) {
      KeysAreRequested(l, bit);
      StoodIsComplete(completed, l.gpuReceipts[bit]);
    }
  }

  lemma ThroughIsReleasable(l: Lease, completed: map<string, int>)
    requires LeaseOk(l) && l.retirementQueued && AllThrough(l, completed)
    requires l.producerReceipt.Some? ==> Stood(completed, l.producerReceipt.value)
    ensures Eligible(l, completed)
  {
    AllThroughSettled(l, completed);
    hide AllThrough, PhaseOf;
    if l.producerReceipt.Some? {
      StoodIsComplete(completed, l.producerReceipt.value);
    }
  }

  /** A lease may be released exactly when it was queued, its producer's fence has got as far as it was given, and each
      requested consumer is done with. */
  lemma ReleasableIff(l: Lease, completed: map<string, int>)
    requires LeaseOk(l)
    ensures Eligible(l, completed) <==>
              && l.retirementQueued
              && (l.producerReceipt.Some? ==> Stood(completed, l.producerReceipt.value))
              && AllThrough(l, completed)
  {
    hide PhaseOf, LeaseOk, Through, Stood;
    if Eligible(l, completed) {
      forall bit | SingleKnownConsumer(bit) && bit <= l.requestedBits ensures Through(PhaseOf(l, bit), completed) {
        ReleasableIsThrough(l, completed, bit);
      }
    } else if l.retirementQueued && AllThrough(l, completed)
              && (l.producerReceipt.Some? ==> Stood(completed, l.producerReceipt.value)) {
      ThroughIsReleasable(l, completed);
    }
    if l.producerReceipt.Some? {
      StoodIsComplete(completed, l.producerReceipt.value);
    }
  }
}
