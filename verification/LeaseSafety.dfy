/** What the input-lease protocol guarantees over whole runs. */
module LeaseSafety {
  import opened Wrappers
  import opened LeaseProtocol
  import opened LeaseInvariant

  lemma {:induction false} RunInv(s: State, ops: seq<Op>)
    requires Inv(s) && Possible(s, ops)
    ensures Inv(Run(s, ops))
    decreases |ops|
  {
    if ops != [] {
      StepInv(s, ops[0]);
      RunInv(Step(s, ops[0]).state, ops[1..]);
    }
  }

  /** Whatever the callers did, the operational release predicate and the independent audit agree on
      every lease, no reusable page has a blocker, no poll has ever found one, and the branch for a
      disagreeing pending index has never been taken. */
  lemma ReuseIsSafe(mapEpoch: int, deviceEpoch: int, ops: seq<Op>)
    requires Possible(Initial(mapEpoch, deviceEpoch), ops)
    ensures var s := Run(Initial(mapEpoch, deviceEpoch), ops);
      && (forall id | id in s.leases ::
            LeaseBlockers(s, s.leases[id]) == {} <==> Eligible(s.leases[id], s.lastCompleted))
      && (forall id | id in s.pages && s.pages[id].reusable :: PageBlockers(s, s.pages[id]) == {})
      && s.unsafeReuseCount == 0
      && Count(s.rejections, PendingIndexMismatch) == 0
  {
    InitialInv(mapEpoch, deviceEpoch);
    RunInv(Initial(mapEpoch, deviceEpoch), ops);
    var s := Run(Initial(mapEpoch, deviceEpoch), ops);
    forall id | id in s.leases
      ensures LeaseBlockers(s, s.leases[id]) == {} <==> Eligible(s.leases[id], s.lastCompleted)
    {
      AuditAgrees(s, id);
    }
    forall id | id in s.pages && s.pages[id].reusable ensures PageBlockers(s, s.pages[id]) == {} {
      ReusablePageUnblocked(s, id);
    }
  }

  /** After any run, poll fails its safety assertion on no input, commit never meets a disagreeing index,
      and a page reopens exactly when it is marked reusable. */
  lemma NextCallIsSafe(mapEpoch: int, deviceEpoch: int, ops: seq<Op>, completed: seq<(string, int)>,
                       ticket: SubmissionTicket, receipt: Receipt, pageId: int)
    requires Possible(Initial(mapEpoch, deviceEpoch), ops)
    ensures var s := Run(Initial(mapEpoch, deviceEpoch), ops);
      && Poll(s, completed).reply != Raised(AssertionError)
      && Commit(s, ticket, receipt).reply != Declined(PendingIndexMismatch)
      && (pageId in s.pages ==> (ReopenPage(s, pageId).reply == Done <==> s.pages[pageId].reusable))
  {
    InitialInv(mapEpoch, deviceEpoch);
    RunInv(Initial(mapEpoch, deviceEpoch), ops);
    var s := Run(Initial(mapEpoch, deviceEpoch), ops);
    PollInv(s, completed);
    CommitInv(s, ticket, receipt);
    ReopenInv(s, pageId);
  }

  // Generations

  /** What no operation ever changes about a lease. */
  predicate SameLease(l: Lease, m: Lease) {
    && m.AccessFor({}, m.runtimeGeneration) == l.AccessFor({}, l.runtimeGeneration)
    && m.requestedBits == l.requestedBits && m.producerReceipt == l.producerReceipt
  }

  predicate KeepsLeases(s: State, t: State) {
    forall id | id in s.leases :: id in t.leases && SameLease(s.leases[id], t.leases[id])
  }

  lemma AddLeaseKeepsLeases(s: State, r: LeaseRequest)
    ensures KeepsLeases(s, AddLease(s, r).state)
  {
  }

  lemma BeginKeepsLeases(s: State, a: Access, capability: SubmissionTicket)
    ensures KeepsLeases(s, Begin(s, a, capability).state)
  {
  }

  lemma CommitKeepsLeases(s: State, ticket: SubmissionTicket, receipt: Receipt)
    ensures KeepsLeases(s, Commit(s, ticket, receipt).state)
  {
  }

  lemma SettleKeepsLeases(s: State, a: Access)
    ensures KeepsLeases(s, SettleWithoutGpu(s, a).state)
  {
  }

  lemma QueueKeepsLeases(s: State, leaseId: int)
    ensures KeepsLeases(s, QueueRetirement(s, leaseId).state)
  {
  }

  lemma ResetKeepsLeases(s: State, m: Option<int>, d: Option<int>)
    ensures KeepsLeases(s, Reset(s, m, d).state)
  {
  }

  lemma PollKeepsLeases(s: State, completed: seq<(string, int)>)
    ensures KeepsLeases(s, Poll(s, completed).state)
  {
    var (last, _) := Absorb(s.lastCompleted, completed);
    assert KeepsLeases(s, Released(s, last));
  }

  lemma PagesKeepLeases(s: State, pageId: int)
    ensures KeepsLeases(s, AddPage(s, pageId).state) && KeepsLeases(s, ReopenPage(s, pageId).state)
  {
  }

  lemma StepKeepsLeases(s: State, op: Op)
    ensures KeepsLeases(s, Step(s, op).state)
  {
    hide KeepsLeases, AddPage, AddLease, Begin, Commit, SettleWithoutGpu, QueueRetirement, Reset, Poll, ReopenPage;
    match op
    case OpAddPage(id) => PagesKeepLeases(s, id);
    case OpAddLease(r) => AddLeaseKeepsLeases(s, r);
    case OpBegin(a, c) => BeginKeepsLeases(s, a, c);
    case OpCommit(t, r) => CommitKeepsLeases(s, t, r);
    case OpSettle(a) => SettleKeepsLeases(s, a);
    case OpQueue(id) => QueueKeepsLeases(s, id);
    case OpReset(m, d) => ResetKeepsLeases(s, m, d);
    case OpPoll(c) => PollKeepsLeases(s, c);
    case OpReopen(id) => PagesKeepLeases(s, id);
  }

  lemma {:induction false} RunKeepsLeases(s: State, ops: seq<Op>, id: int)
    requires id in s.leases
    ensures id in Run(s, ops).leases && SameLease(s.leases[id], Run(s, ops).leases[id])
    decreases |ops|
  {
    if ops != [] {
      StepKeepsLeases(s, ops[0]);
      RunKeepsLeases(Step(s, ops[0]).state, ops[1..], id);
    }
  }

  /** Nothing that could still touch the page is outstanding for this lease. */
  predicate Settled(s: State, id: int)
    requires id in s.leases
  {
    var l := s.leases[id];
    && l.openBits == {}
    && l.pendingTicketIds == map[]
    && (forall k | k in s.pendingSubmissions :: s.pendingSubmissions[k].ticket.access.leaseId != id)
    && FencesComplete(l, s.lastCompleted)
    && l.TerminalBits() == l.requestedBits
  }

  /** The generation of a page moves past a lease only once that lease is settled: from any invariant state,
      over any continuation, resets included. */
  lemma GenerationWaitsForLease(s: State, ops: seq<Op>, id: int)
    requires Inv(s) && Possible(s, ops) && id in s.leases
    ensures var t := Run(s, ops);
      && id in t.leases && SameLease(s.leases[id], t.leases[id])
      && s.leases[id].pageId in t.pages
      && (t.pages[s.leases[id].pageId].generation > s.leases[id].pageGeneration ==> Settled(t, id))
  {
    RunInv(s, ops);
    RunKeepsLeases(s, ops, id);
    var t := Run(s, ops);
    assert Placed(t, t.leases[id]);
    assert forall k | k in t.pendingSubmissions :: TicketIndexed(t, k);
  }

  // Tickets

  /** Only begin and commit touch the pending tickets. */
  lemma OthersKeepTickets(s: State, op: Op)
    requires !op.OpBegin? && !op.OpCommit?
    ensures var o := Step(s, op);
      && o.state.pendingSubmissions == s.pendingSubmissions && o.state.nextTicketId == s.nextTicketId
      && !o.reply.Issued?
  {
    hide RequestMalformed, Validate, CancelAll, Absorb, ReclaimAll, ReleasePages, UnsafeReuse, PageBlockers, Bump;
  }

  lemma BeginSpends(s: State, a: Access, capability: SubmissionTicket, id: int)
    requires id < s.nextTicketId && id !in s.pendingSubmissions
    ensures var t := Begin(s, a, capability).state; id < t.nextTicketId && id !in t.pendingSubmissions
  {
  }

  lemma CommitSpends(s: State, ticket: SubmissionTicket, receipt: Receipt, id: int)
    requires id < s.nextTicketId && id !in s.pendingSubmissions
    ensures var t := Commit(s, ticket, receipt).state; id < t.nextTicketId && id !in t.pendingSubmissions
  {
  }

  lemma StepSpends(s: State, op: Op, id: int)
    requires Enabled(s, op)
    requires id < s.nextTicketId && id !in s.pendingSubmissions
    ensures var t := Step(s, op).state; id < t.nextTicketId && id !in t.pendingSubmissions
  {
    hide AddPage, AddLease, Begin, Commit, SettleWithoutGpu, QueueRetirement, Reset, Poll, ReopenPage;
    match op
    case OpBegin(a, c) => BeginSpends(s, a, c, id);
    case OpCommit(t, r) => CommitSpends(s, t, r, id);
    case _ => OthersKeepTickets(s, op);
  }

  lemma {:induction false} SpentForGood(s: State, ops: seq<Op>, id: int)
    requires Possible(s, ops)
    requires id < s.nextTicketId && id !in s.pendingSubmissions
    ensures id < Run(s, ops).nextTicketId && id !in Run(s, ops).pendingSubmissions
    decreases |ops|
  {
    if ops != [] {
      StepSpends(s, ops[0], id);
      SpentForGood(Step(s, ops[0]).state, ops[1..], id);
    }
  }

  /** A ticket commits at most once: after a successful commit no run makes its id acceptable again. */
  lemma CommitsAtMostOnce(s: State, ticket: SubmissionTicket, receipt: Receipt, ops: seq<Op>,
                          again: SubmissionTicket, second: Receipt)
    requires Inv(s) && Commit(s, ticket, receipt).reply == Done
    requires Possible(Commit(s, ticket, receipt).state, ops)
    requires again.ticketId == ticket.ticketId
    ensures Commit(Run(Commit(s, ticket, receipt).state, ops), again, second).reply == Declined(StaleTicket)
  {
    assert TicketIndexed(s, ticket.ticketId);
    SpentForGood(Commit(s, ticket, receipt).state, ops, ticket.ticketId);
  }

  predicate NeverCommits(ops: seq<Op>, ticket: SubmissionTicket) {
    forall op | op in ops :: op.OpCommit? ==> op.ticket != ticket
  }

  predicate Held(s: State, ticket: SubmissionTicket) {
    ticket.ticketId in s.pendingSubmissions && s.pendingSubmissions[ticket.ticketId].ticket == ticket
  }

  lemma BeginHolds(s: State, a: Access, capability: SubmissionTicket, ticket: SubmissionTicket)
    requires Inv(s) && Held(s, ticket)
    ensures Held(Begin(s, a, capability).state, ticket)
  {
    assert TicketIndexed(s, ticket.ticketId);
  }

  lemma CommitHolds(s: State, other: SubmissionTicket, receipt: Receipt, ticket: SubmissionTicket)
    requires Held(s, ticket) && other != ticket
    ensures Held(Commit(s, other, receipt).state, ticket)
  {
  }

  lemma StepHolds(s: State, op: Op, ticket: SubmissionTicket)
    requires Inv(s) && Held(s, ticket)
    requires op.OpCommit? ==> op.ticket != ticket
    ensures Held(Step(s, op).state, ticket)
  {
    hide Inv, AddPage, AddLease, Begin, Commit, SettleWithoutGpu, QueueRetirement, Reset, Poll, ReopenPage;
    match op
    case OpBegin(a, c) => BeginHolds(s, a, c, ticket);
    case OpCommit(t, r) => CommitHolds(s, t, r, ticket);
    case _ => OthersKeepTickets(s, op);
  }

  /** A ticket that has been issued stays committable, through resets, polls and forgery attempts alike,
      until it is itself committed; and no other object is ever accepted in its place. */
  lemma {:induction false} TicketStaysGood(s: State, ops: seq<Op>, ticket: SubmissionTicket, receipt: Receipt,
                                           forged: SubmissionTicket)
    requires Inv(s) && Possible(s, ops) && Held(s, ticket) && NeverCommits(ops, ticket)
    requires forged != ticket && forged.ticketId == ticket.ticketId
    ensures Commit(Run(s, ops), ticket, receipt).reply == Done
    ensures Commit(Run(s, ops), forged, receipt).reply == Declined(ForgedTicket)
    decreases |ops|
  {
    if ops == [] {
      assert TicketIndexed(s, ticket.ticketId);
    } else {
      StepInv(s, ops[0]);
      StepHolds(s, ops[0], ticket);
      TicketStaysGood(Step(s, ops[0]).state, ops[1..], ticket, receipt, forged);
    }
  }

  function Issues(s: State, ops: seq<Op>): nat
    decreases |ops|
  {
    if ops == [] then 0
    else (if Step(s, ops[0]).reply.Issued? then 1 else 0) + Issues(Step(s, ops[0]).state, ops[1..])
  }

  function Commits(s: State, ops: seq<Op>): nat
    decreases |ops|
  {
    if ops == [] then 0
    else (if ops[0].OpCommit? && Step(s, ops[0]).reply == Done then 1 else 0)
         + Commits(Step(s, ops[0]).state, ops[1..])
  }

  lemma BeginAddsTicket(s: State, a: Access, capability: SubmissionTicket)
    requires Inv(s)
    ensures var o := Begin(s, a, capability);
      |o.state.pendingSubmissions| == |s.pendingSubmissions| + (if o.reply.Issued? then 1 else 0)
  {
    assert forall id | id in s.pendingSubmissions :: TicketIndexed(s, id);
    assert s.nextTicketId !in s.pendingSubmissions;
  }

  lemma CommitRemovesTicket(s: State, ticket: SubmissionTicket, receipt: Receipt)
    ensures var o := Commit(s, ticket, receipt);
      |o.state.pendingSubmissions| + (if o.reply == Done then 1 else 0) == |s.pendingSubmissions|
  {
    var o := Commit(s, ticket, receipt);
    if o.reply == Done {
      assert o.state.pendingSubmissions.Keys == s.pendingSubmissions.Keys - {ticket.ticketId};
      assert |o.state.pendingSubmissions.Keys| == |s.pendingSubmissions.Keys| - 1;
    }
  }

  lemma CommitIssuesNothing(s: State, ticket: SubmissionTicket, receipt: Receipt)
    ensures !Commit(s, ticket, receipt).reply.Issued?
  {
  }

  lemma StepTicketBalance(s: State, op: Op)
    requires Inv(s)
    ensures |Step(s, op).state.pendingSubmissions| + (if op.OpCommit? && Step(s, op).reply == Done then 1 else 0)
            == |s.pendingSubmissions| + (if Step(s, op).reply.Issued? then 1 else 0)
  {
    hide Inv, AddPage, AddLease, Begin, Commit, SettleWithoutGpu, QueueRetirement, Reset, Poll, ReopenPage;
    match op
    case OpBegin(a, capability) => BeginAddsTicket(s, a, capability);
    case OpCommit(ticket, receipt) =>
      CommitRemovesTicket(s, ticket, receipt);
      CommitIssuesNothing(s, ticket, receipt);
    case _ => OthersKeepTickets(s, op);
  }

  /** Tickets are conserved: issued tickets are either committed or still pending. */
  lemma {:induction false} TicketBalance(s: State, ops: seq<Op>)
    requires Inv(s) && Possible(s, ops)
    ensures |Run(s, ops).pendingSubmissions| + Commits(s, ops) == |s.pendingSubmissions| + Issues(s, ops)
    decreases |ops|
  {
    if ops != [] {
      StepInv(s, ops[0]);
      StepTicketBalance(s, ops[0]);
      TicketBalance(Step(s, ops[0]).state, ops[1..]);
    }
  }

  // Resets

  lemma StepKeepsGeneration(s: State, op: Op)
    ensures Step(s, op).state.runtimeGeneration >= s.runtimeGeneration
  {
    hide RequestMalformed, Validate, CancelAll, Absorb, ReclaimAll, ReleasePages, UnsafeReuse, PageBlockers, Bump;
  }

  lemma {:induction false} RunKeepsGeneration(s: State, ops: seq<Op>)
    ensures Run(s, ops).runtimeGeneration >= s.runtimeGeneration
    decreases |ops|
  {
    if ops != [] {
      StepKeepsGeneration(s, ops[0]);
      RunKeepsGeneration(Step(s, ops[0]).state, ops[1..]);
    }
  }

  /** After a reset no lease that existed before it can begin or settle a consumer, ever. */
  lemma ResetEndsEarlierLeases(s: State, mapEpoch: Option<int>, deviceEpoch: Option<int>, ops: seq<Op>, a: Access,
                               capability: SubmissionTicket)
    requires Inv(s) && a.leaseId in s.leases
    requires Reset(s, mapEpoch, deviceEpoch).reply == Done
    requires Possible(Reset(s, mapEpoch, deviceEpoch).state, ops)
    ensures var t := Run(Reset(s, mapEpoch, deviceEpoch).state, ops);
      Begin(t, a, capability).reply.Declined? && SettleWithoutGpu(t, a).reply.Declined?
  {
    hide Inv, Reset, Begin, SettleWithoutGpu, Possible, Run;
    var r := Reset(s, mapEpoch, deviceEpoch).state;
    ResetAdvances(s, mapEpoch, deviceEpoch, a.leaseId);
    ResetInv(s, mapEpoch, deviceEpoch);
    RunInv(r, ops);
    RunKeepsLeases(r, ops, a.leaseId);
    RunKeepsGeneration(r, ops);
    EarlierLeaseDeclined(Run(r, ops), a, capability);
  }

  lemma ResetAdvances(s: State, mapEpoch: Option<int>, deviceEpoch: Option<int>, id: int)
    requires Inv(s) && id in s.leases && Reset(s, mapEpoch, deviceEpoch).reply == Done
    ensures var r := Reset(s, mapEpoch, deviceEpoch).state;
      id in r.leases && r.leases[id].runtimeGeneration < r.runtimeGeneration
  {
    hide LeaseOk, PagesOk, TicketsOk, Eligible;
    assert Placed(s, s.leases[id]);
  }

  lemma EarlierLeaseDeclined(t: State, a: Access, capability: SubmissionTicket)
    requires Inv(t) && a.leaseId in t.leases && t.leases[a.leaseId].runtimeGeneration < t.runtimeGeneration
    ensures Begin(t, a, capability).reply.Declined? && SettleWithoutGpu(t, a).reply.Declined?
  {
    hide LeaseOk, PagesOk, TicketsOk, Eligible;
    assert Placed(t, t.leases[a.leaseId]);
    assert Validate(t, a).Some?;
  }

  /** The access the model itself mints is good exactly for an open consumer of a current lease. */
  lemma MintedAccess(s: State, id: int, bit: Mask)
    requires Inv(s) && id in s.leases
    ensures Validate(s, s.leases[id].AccessFor(bit, s.runtimeGeneration)) == None
            <==> SingleKnownConsumer(bit) && bit <= s.leases[id].openBits
                 && s.leases[id].runtimeGeneration == s.runtimeGeneration
  {
    var l := s.leases[id];
    assert Placed(s, l);
    if bit <= l.openBits && SingleKnownConsumer(bit) {
      assert l.openBits * bit == bit == l.requestedBits * bit;
    }
  }

  // Progress

  /** A poll decides: afterwards a page is reusable exactly when it has leases and each of them may be released. */
  lemma PollDecides(s: State, completed: seq<(string, int)>, pageId: int)
    requires Inv(s) && pageId in s.pages && Poll(s, completed).reply == Done
    ensures var t := Poll(s, completed).state;
      && pageId in t.pages
      && (t.pages[pageId].reusable
          <==> t.pages[pageId].currentLeaseIds != [] && PageBlockers(t, t.pages[pageId]) == {})
  {
    PollInv(s, completed);
    var (next, _) := Absorb(s.lastCompleted, completed);
    var t := Released(s, next);
    PageAuditAgrees(t, pageId);
    var p := t.pages[pageId];
    if p.reusable {
      ReusablePageUnblocked(t, pageId);
    }
  }

  lemma QuietLeaseEligible(l: Lease, completed: map<string, int>)
    requires LeaseOk(l) && l.retirementQueued && l.pendingTicketIds == map[] && FencesComplete(l, completed)
    ensures Eligible(l, completed)
  {
    assert l.PendingBits() == {};
    assert l.TerminalBits() == l.requestedBits;
  }

  /** One poll is enough: queued leases with nothing open or pending, whose fences the poll completes,
      make their page reusable, whatever happened before. */
  lemma PollReleasesQuietPage(s: State, completed: seq<(string, int)>, pageId: int)
    requires Inv(s) && pageId in s.pages && s.pages[pageId].currentLeaseIds != []
    requires Absorb(s.lastCompleted, completed).1
    requires forall id | id in s.leases && id in s.pages[pageId].currentLeaseIds ::
      && s.leases[id].retirementQueued
      && s.leases[id].pendingTicketIds == map[]
      && FencesComplete(s.leases[id], Absorb(s.lastCompleted, completed).0)
    ensures Poll(s, completed).reply == Done
    ensures pageId in Poll(s, completed).state.pages && Poll(s, completed).state.pages[pageId].reusable
  {
    hide Poll, Absorb, FencesComplete, LeaseOk, Placed, TicketsOk, Count;
    PollInv(s, completed);
    var next := Absorb(s.lastCompleted, completed).0;
    forall id | id in ScannedIds(s, s.pages[pageId]) ensures Eligible(s.leases[id], next) {
      assert id in (set x | x in s.pages[pageId].currentLeaseIds);
      QuietLeaseEligible(s.leases[id], next);
    }
    EveryLeaseReclaimed(s, next, pageId);
  }

  lemma EveryLeaseReclaimed(s: State, next: map<string, int>, pageId: int)
    requires pageId in s.pages && PageOk(Released(s, next), Released(s, next).pages[pageId])
    requires s.pages[pageId].currentLeaseIds != []
    requires forall id | id in ScannedIds(s, s.pages[pageId]) :: Eligible(s.leases[id], next)
    ensures Released(s, next).pages[pageId].reusable
  {
    hide Eligible;
    var t := Released(s, next);
    SameScan(s, t, s.pages[pageId], t.pages[pageId]);
    assert Unreclaimed(t, t.pages[pageId]) == {};
  }

  // Rejections

  /** A declined operation changes its own counter, by one, and nothing else. */
  lemma DeclinedOnlyCounts(s: State, op: Op, other: Rejection)
    requires Step(s, op).reply.Declined?
    ensures var t, why := Step(s, op).state, Step(s, op).reply.why;
      && t == s.(rejections := t.rejections)
      && Count(t.rejections, why) == Count(s.rejections, why) + 1
      && (other != why ==> Count(t.rejections, other) == Count(s.rejections, other))
  {
    hide AddPage, AddLease, Begin, Commit, SettleWithoutGpu, QueueRetirement, Reset, Poll, ReopenPage, Decline;
    DeclinedByDecline(s, op);
    DeclineCounts(s, Step(s, op).reply.why, other);
  }

  lemma DeclinedByDecline(s: State, op: Op)
    requires Step(s, op).reply.Declined?
    ensures Step(s, op) == Decline(s, Step(s, op).reply.why)
  {
    hide Validate, Bump, PageBlockers, CancelAll, Released, RequestMalformed, UnsafeReuse;
  }

  lemma DeclineCounts(s: State, why: Rejection, other: Rejection)
    ensures var t := Decline(s, why).state;
      && t == s.(rejections := t.rejections)
      && Count(t.rejections, why) == Count(s.rejections, why) + 1
      && (other != why ==> Count(t.rejections, other) == Count(s.rejections, other))
  {
  }

  /** An operation that raises leaves the state alone, except that a poll has by then counted itself and
      absorbed the fence values before the one that ran backwards. */
  lemma RaisedChangesNothing(s: State, op: Op)
    requires Inv(s) && Step(s, op).reply.Raised?
    ensures var t := Step(s, op).state;
      if op.OpPoll? then
        t == s.(pollCount := s.pollCount + 1, lastCompleted := t.lastCompleted) && Advances(s.lastCompleted, t.lastCompleted)
      else t == s
  {
    if op.OpPoll? {
      PollInv(s, op.completed);
      AbsorbAdvances(s.lastCompleted, op.completed);
    }
  }
}
