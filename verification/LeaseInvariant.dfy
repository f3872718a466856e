/** The invariant of the input-lease protocol, and that every operation keeps it. */
module LeaseInvariant {
  import opened Wrappers
  import opened LeaseProtocol

  // Masks

  predicate KnownKeys(keys: set<Mask>) {
    forall k | k in keys :: SingleKnownConsumer(k)
  }

  lemma FlattenInsert(keys: set<Mask>, bit: Mask)
    ensures Flatten(keys + {bit}) == Flatten(keys) + bit
  {
  }

  lemma FlattenRemove(keys: set<Mask>, bit: Mask)
    requires KnownKeys(keys) && SingleKnownConsumer(bit)
    ensures Flatten(keys - {bit}) == Flatten(keys) - bit
  {
    forall b | b in Flatten(keys) - bit ensures b in Flatten(keys - {bit}) {
      var m :| m in keys && b in m;
      assert m in keys - {bit};
    }
  }

  lemma FlattenEmpty(keys: set<Mask>)
    requires KnownKeys(keys)
    ensures Flatten(keys) == {} <==> keys == {}
  {
    if k :| k in keys {
      var b :| b in k;
      assert b in Flatten(keys);
    }
  }

  lemma FlattenMember(keys: set<Mask>, bit: Mask)
    requires bit in keys
    ensures bit <= Flatten(keys)
  {
  }

  // The invariant

  /** Open, pending, GPU-settled, CPU-settled and cancelled consumers partition the request. */
  predicate Partitioned(l: Lease) {
    && l.openBits !! l.PendingBits() !! l.GpuBits() !! l.noGpuBits !! l.resetCancelledBits
    && l.openBits + l.PendingBits() + l.GpuBits() + l.noGpuBits + l.resetCancelledBits == l.requestedBits
  }

  predicate LeaseOk(l: Lease) {
    && l.leaseId > 0
    && l.requestedBits != {} && l.requestedBits <= KNOWN_CONSUMERS
    && KnownKeys(l.pendingTicketIds.Keys) && KnownKeys(l.gpuReceipts.Keys)
    && Partitioned(l)
    && (l.retirementQueued ==> l.openBits == {})
  }

  /** How a lease stands to its page, to the runtime generation and to the completed fences. */
  predicate Placed(s: State, l: Lease) {
    && l.pageId in s.pages
    && l.pageGeneration <= s.pages[l.pageId].generation
    && (l.pageGeneration < s.pages[l.pageId].generation ==> l.reclaimed)
    && (l.reclaimed ==> Eligible(l, s.lastCompleted))
    && l.runtimeGeneration <= s.runtimeGeneration
    && (l.runtimeGeneration < s.runtimeGeneration ==> l.retirementQueued)
    && (l.runtimeGeneration == s.runtimeGeneration ==> l.mapEpoch == s.mapEpoch && l.deviceEpoch == s.deviceEpoch)
  }

  predicate LeasesOk(s: State) {
    forall id | id in s.leases :: s.leases[id].leaseId == id && LeaseOk(s.leases[id]) && Placed(s, s.leases[id])
  }

  function Unreclaimed(s: State, p: Page): set<(int, int)> {
    set id | id in ScannedIds(s, p) && !s.leases[id].reclaimed :: (id, p.generation)
  }

  predicate PageOk(s: State, p: Page) {
    && p.pageId > 0 && p.generation >= 1
    && (set id | id in p.currentLeaseIds) == ScannedIds(s, p)
    && p.liveClaims == Unreclaimed(s, p)
    && (p.reusable <==> p.currentLeaseIds != [] && p.liveClaims == {})
  }

  predicate PagesOk(s: State) {
    forall id | id in s.pages :: s.pages[id].pageId == id && PageOk(s, s.pages[id])
  }

  /** One entry of the global index agrees with the lease it names, and the other way round. */
  predicate TicketIndexed(s: State, id: int)
    requires id in s.pendingSubmissions
  {
    var ticket := s.pendingSubmissions[id].ticket;
    var a := ticket.access;
    && ticket.ticketId == id && s.pendingSubmissions[id].irreversible
    && id < s.nextTicketId
    && a.leaseId in s.leases
    && Indexes(s.leases[a.leaseId], a.consumerBit, id)
    && a == s.leases[a.leaseId].AccessFor(a.consumerBit, s.leases[a.leaseId].runtimeGeneration)
  }

  predicate LeaseIndexed(s: State, l: Lease) {
    forall bit | bit in l.pendingTicketIds ::
      && l.pendingTicketIds[bit] in s.pendingSubmissions
      && s.pendingSubmissions[l.pendingTicketIds[bit]].ticket.access.leaseId == l.leaseId
      && s.pendingSubmissions[l.pendingTicketIds[bit]].ticket.access.consumerBit == bit
  }

  /** The two pending indexes are inverse to each other. */
  predicate TicketsOk(s: State) {
    && (forall id | id in s.pendingSubmissions :: TicketIndexed(s, id))
    && (forall id | id in s.leases :: LeaseIndexed(s, s.leases[id]))
  }

  predicate Inv(s: State) {
    && LeasesOk(s) && PagesOk(s) && TicketsOk(s)
    && s.unsafeReuseCount == 0
    && Count(s.rejections, PendingIndexMismatch) == 0
  }

  lemma InitialInv(mapEpoch: int, deviceEpoch: int)
    ensures Inv(Initial(mapEpoch, deviceEpoch))
  {
  }

  // Counters do not matter to the invariant, except the one that must stay zero.

  lemma DeclineInv(s: State, why: Rejection)
    requires Inv(s) && why != PendingIndexMismatch
    ensures Inv(Decline(s, why).state)
  {
    var t := Decline(s, why).state;
    forall id | id in t.pages ensures PageOk(t, t.pages[id]) {
      SamePage(s, t, t.pages[id]);
    }
    forall id | id in t.pendingSubmissions ensures TicketIndexed(t, id) {
      assert TicketIndexed(s, id);
    }
  }

  /** A page is judged only by the placement and the reclaimed flags of the leases. */
  lemma SamePage(s: State, t: State, p: Page)
    requires SamePlaces(s, t)
    requires PageOk(s, p)
    ensures PageOk(t, p)
  {
    SameScan(s, t, p, p);
    assert Unreclaimed(s, p) == Unreclaimed(t, p);
  }

  predicate SamePlaces(s: State, t: State) {
    && (forall id | id in t.leases :: id in s.leases) && (forall id | id in s.leases :: id in t.leases)
    && forall id | id in s.leases ::
         && s.leases[id].pageId == t.leases[id].pageId
         && s.leases[id].pageGeneration == t.leases[id].pageGeneration
         && (s.leases[id].reclaimed <==> t.leases[id].reclaimed)
  }

  lemma SameScan(s: State, t: State, p: Page, q: Page)
    requires forall id :: id in s.leases <==> id in t.leases
    requires forall id | id in s.leases ::
      && s.leases[id].pageId == t.leases[id].pageId && s.leases[id].pageGeneration == t.leases[id].pageGeneration
    requires p.pageId == q.pageId && p.generation == q.generation
    ensures ScannedIds(s, p) == ScannedIds(t, q)
  {
    forall id ensures id in ScannedIds(s, p) <==> id in ScannedIds(t, q) {
    }
  }

  lemma AddPageInv(s: State, pageId: int)
    requires Inv(s)
    ensures Inv(AddPage(s, pageId).state)
  {
    var t := AddPage(s, pageId).state;
    AddPageTickets(s, pageId);
    AddPageLeases(s, pageId);
    hide TicketsOk, LeasesOk, PageOk, Count;
    forall id | id in t.pages ensures t.pages[id].pageId == id && PageOk(t, t.pages[id]) {
      AddPagePage(s, pageId, id);
    }
  }

  lemma AddPageTickets(s: State, pageId: int)
    requires Inv(s)
    ensures TicketsOk(AddPage(s, pageId).state)
  {
    SameTicketsInv(s, AddPage(s, pageId).state);
  }

  lemma AddPageLeases(s: State, pageId: int)
    requires LeasesOk(s)
    ensures LeasesOk(AddPage(s, pageId).state)
  {
    hide LeaseOk, Eligible;
    var t := AddPage(s, pageId).state;
    forall id | id in t.leases ensures Placed(t, t.leases[id]) {
      assert Placed(s, s.leases[id]);
    }
  }

  lemma AddPagePage(s: State, pageId: int, id: int)
    requires LeasesOk(s) && PagesOk(s) && id in AddPage(s, pageId).state.pages
    ensures var t := AddPage(s, pageId).state; t.pages[id].pageId == id && PageOk(t, t.pages[id])
  {
    hide LeaseOk, Eligible;
    var t := AddPage(s, pageId).state;
    if id in s.pages {
      SamePage(s, t, t.pages[id]);
    } else {
      assert forall k | k in s.leases :: Placed(s, s.leases[k]);
      assert ScannedIds(t, t.pages[id]) == {};
    }
  }

  lemma AddLeaseInv(s: State, r: LeaseRequest)
    requires Inv(s)
    ensures Inv(AddLease(s, r).state)
  {
    if AddLease(s, r).reply == Done {
      var t := AddLease(s, r).state;
      AddLeasePlaced(s, r);
      AddLeaseTickets(s, r);
      forall id | id in t.pages ensures t.pages[id].pageId == id && PageOk(t, t.pages[id]) {
        AddLeasePage(s, r, id);
      }
    }
  }

  lemma AddLeasePlaced(s: State, r: LeaseRequest)
    requires Inv(s) && AddLease(s, r).reply == Done
    ensures LeasesOk(AddLease(s, r).state)
  {
    var t := AddLease(s, r).state;
    assert Flatten({}) == {};
    forall id | id in t.leases
      ensures t.leases[id].leaseId == id && LeaseOk(t.leases[id]) && Placed(t, t.leases[id])
    {
      if id in s.leases { assert Placed(s, s.leases[id]); }
    }
  }

  lemma AddLeaseTickets(s: State, r: LeaseRequest)
    requires Inv(s) && AddLease(s, r).reply == Done
    ensures TicketsOk(AddLease(s, r).state)
  {
    var t := AddLease(s, r).state;
    forall id | id in t.pendingSubmissions ensures TicketIndexed(t, id) {
      assert TicketIndexed(s, id);
    }
    forall id | id in t.leases ensures LeaseIndexed(t, t.leases[id]) {
      if id in s.leases { assert LeaseIndexed(s, s.leases[id]); }
    }
  }

  lemma AddLeasePage(s: State, r: LeaseRequest, pageId: int)
    requires PagesOk(s) && AddLease(s, r).reply == Done && pageId in s.pages
    ensures var t := AddLease(s, r).state;
            t.pages[pageId].pageId == pageId && PageOk(t, t.pages[pageId])
  {
    var t := AddLease(s, r).state;
    var p, q := s.pages[pageId], t.pages[pageId];
    if pageId == r.pageId {
      assert ScannedIds(t, q) == ScannedIds(s, p) + {r.leaseId};
      assert Unreclaimed(t, q) == Unreclaimed(s, p) + {(r.leaseId, p.generation)};
      assert (set x | x in q.currentLeaseIds) == (set x | x in p.currentLeaseIds) + {r.leaseId};
      assert (r.leaseId, p.generation) in q.liveClaims;
    } else {
      assert ScannedIds(t, p) == ScannedIds(s, p);
      assert Unreclaimed(t, p) == Unreclaimed(s, p);
    }
  }

  // Operations that replace one lease and leave its placement alone

  predicate Resettled(l: Lease, m: Lease) {
    m == l.(openBits := m.openBits, pendingTicketIds := m.pendingTicketIds, gpuReceipts := m.gpuReceipts,
            noGpuBits := m.noGpuBits)
  }

  lemma ReplaceLeaseInv(s: State, t: State, leaseId: int)
    requires Inv(s) && leaseId in s.leases && leaseId in t.leases
    requires t.leases == s.leases[leaseId := t.leases[leaseId]]
    requires Resettled(s.leases[leaseId], t.leases[leaseId])
    requires !s.leases[leaseId].reclaimed
    requires LeaseOk(t.leases[leaseId])
    requires t.pages == s.pages && t.lastCompleted == s.lastCompleted
    requires t.runtimeGeneration == s.runtimeGeneration && t.mapEpoch == s.mapEpoch && t.deviceEpoch == s.deviceEpoch
    ensures LeasesOk(t) && PagesOk(t)
  {
    hide LeaseOk, Eligible, PageOk, TicketsOk;
    forall id | id in t.leases
      ensures t.leases[id].leaseId == id && LeaseOk(t.leases[id]) && Placed(t, t.leases[id])
    {
      assert Placed(s, s.leases[id]);
    }
    forall id | id in t.pages ensures PageOk(t, t.pages[id]) {
      SamePage(s, t, t.pages[id]);
    }
  }

  lemma AcceptedBits(s: State, a: Access)
    requires LeasesOk(s) && Validate(s, a) == None
    ensures a.leaseId in s.leases && SingleKnownConsumer(a.consumerBit)
    ensures a.consumerBit <= s.leases[a.leaseId].openBits && !s.leases[a.leaseId].retirementQueued
  {
    hide Placed, Partitioned;
  }

  /** An accepted access names an open consumer of a lease that no poll has reclaimed. */
  lemma AcceptedAccess(s: State, a: Access)
    requires Inv(s) && Validate(s, a) == None
    ensures a.leaseId in s.leases && SingleKnownConsumer(a.consumerBit)
    ensures var l := s.leases[a.leaseId];
            a.consumerBit <= l.openBits && !l.retirementQueued && !l.reclaimed
    ensures a == s.leases[a.leaseId].AccessFor(a.consumerBit, s.runtimeGeneration)
    ensures s.leases[a.leaseId].runtimeGeneration == s.runtimeGeneration
  {
  }

  lemma ValidateBlames(s: State, a: Access)
    ensures Validate(s, a) != Some(PendingIndexMismatch)
  {
  }

  lemma BeginInv(s: State, a: Access, capability: SubmissionTicket)
    requires Inv(s)
    requires capability.ticketId == s.nextTicketId && capability.access == a
    ensures Inv(Begin(s, a, capability).state)
  {
    hide Validate, TicketsOk, LeasesOk, PagesOk;
    if Validate(s, a).Some? {
      ValidateBlames(s, a);
      DeclineInv(s, Validate(s, a).value);
    } else {
      BeginLease(s, a, capability);
      AcceptedAccess(s, a);
      ReplaceLeaseInv(s, Begin(s, a, capability).state, a.leaseId);
      BeginTickets(s, a, capability);
      BeginIndexes(s, a, capability);
    }
  }

  lemma BeginLease(s: State, a: Access, capability: SubmissionTicket)
    requires LeasesOk(s) && Validate(s, a) == None
    ensures LeaseOk(Begin(s, a, capability).state.leases[a.leaseId])
  {
    AcceptedBits(s, a);
    hide Validate, LeaseOk, Placed;
    BegunOk(s.leases[a.leaseId], a.consumerBit, s.nextTicketId);
  }

  lemma BegunOk(l: Lease, bit: Mask, id: int)
    requires LeaseOk(l) && SingleKnownConsumer(bit) && bit <= l.openBits && !l.retirementQueued
    ensures LeaseOk(l.(pendingTicketIds := l.pendingTicketIds[bit := id], openBits := l.openBits - bit))
  {
    hide Flatten;
    var m := l.(pendingTicketIds := l.pendingTicketIds[bit := id], openBits := l.openBits - bit);
    assert m.pendingTicketIds.Keys == l.pendingTicketIds.Keys + {bit};
    FlattenInsert(l.pendingTicketIds.Keys, bit);
  }

  /** The access is for an open bit, so its lease has no ticket for it yet. */
  lemma NoTicketYet(s: State, a: Access)
    requires Inv(s) && Validate(s, a) == None
    ensures a.consumerBit !in s.leases[a.leaseId].pendingTicketIds && s.nextTicketId !in s.pendingSubmissions
  {
    var l := s.leases[a.leaseId];
    if a.consumerBit in l.pendingTicketIds {
      FlattenMember(l.pendingTicketIds.Keys, a.consumerBit);
    }
    assert forall id | id in s.pendingSubmissions :: TicketIndexed(s, id);
  }

  lemma BeginTickets(s: State, a: Access, capability: SubmissionTicket)
    requires Inv(s) && Validate(s, a) == None
    requires capability.ticketId == s.nextTicketId && capability.access == a
    ensures var t := Begin(s, a, capability).state; forall id | id in t.pendingSubmissions :: TicketIndexed(t, id)
  {
    hide Validate, LeaseOk, Placed, PagesOk;
    AcceptedAccess(s, a);
    NoTicketYet(s, a);
    var t := Begin(s, a, capability).state;
    forall id | id in t.pendingSubmissions ensures TicketIndexed(t, id) {
      if id != s.nextTicketId { assert TicketIndexed(s, id); }
    }
  }

  lemma BeginIndexes(s: State, a: Access, capability: SubmissionTicket)
    requires Inv(s) && Validate(s, a) == None
    requires capability.ticketId == s.nextTicketId && capability.access == a
    ensures var t := Begin(s, a, capability).state;
      (forall id | id in t.pendingSubmissions :: TicketIndexed(t, id)) ==> TicketsOk(t)
  {
    hide Validate, LeaseOk, Placed, PagesOk, TicketIndexed;
    AcceptedBits(s, a);
    NoTicketYet(s, a);
    var t := Begin(s, a, capability).state;
    forall id | id in t.leases ensures LeaseIndexed(t, t.leases[id]) {
      assert LeaseIndexed(s, s.leases[id]);
    }
  }

  lemma CommitInv(s: State, ticket: SubmissionTicket, receipt: Receipt)
    requires Inv(s)
    ensures Inv(Commit(s, ticket, receipt).state)
    ensures Commit(s, ticket, receipt).reply != Declined(PendingIndexMismatch)
  {
    hide LeasesOk, PagesOk, TicketsOk, Count;
    if ticket.ticketId !in s.pendingSubmissions {
      DeclineInv(s, StaleTicket);
    } else if s.pendingSubmissions[ticket.ticketId].ticket != ticket {
      DeclineInv(s, ForgedTicket);
    } else {
      CommitLease(s, ticket, receipt);
      ReplaceLeaseInv(s, Commit(s, ticket, receipt).state, ticket.access.leaseId);
      CommitTickets(s, ticket, receipt);
    }
  }

  lemma CommitLease(s: State, ticket: SubmissionTicket, receipt: Receipt)
    requires Inv(s) && ticket.ticketId in s.pendingSubmissions
    requires s.pendingSubmissions[ticket.ticketId].ticket == ticket
    ensures ticket.access.leaseId in s.leases && !s.leases[ticket.access.leaseId].reclaimed
    ensures Indexes(s.leases[ticket.access.leaseId], ticket.access.consumerBit, ticket.ticketId)
    ensures Commit(s, ticket, receipt).reply == Done
    ensures LeaseOk(Commit(s, ticket, receipt).state.leases[ticket.access.leaseId])
  {
    hide LeaseOk, LeaseIndexed, PagesOk, Count;
    assert TicketIndexed(s, ticket.ticketId);
    var l := s.leases[ticket.access.leaseId];
    assert Placed(s, l);
    CommittedOk(l, ticket.access.consumerBit, receipt);
  }

  lemma CommittedOk(l: Lease, bit: Mask, receipt: Receipt)
    requires LeaseOk(l) && bit in l.pendingTicketIds
    ensures LeaseOk(l.(pendingTicketIds := l.pendingTicketIds - {bit}, gpuReceipts := l.gpuReceipts[bit := receipt]))
  {
    hide Flatten;
    var m := l.(pendingTicketIds := l.pendingTicketIds - {bit}, gpuReceipts := l.gpuReceipts[bit := receipt]);
    assert m.pendingTicketIds.Keys == l.pendingTicketIds.Keys - {bit};
    assert m.gpuReceipts.Keys == l.gpuReceipts.Keys + {bit};
    FlattenRemove(l.pendingTicketIds.Keys, bit);
    FlattenInsert(l.gpuReceipts.Keys, bit);
    FlattenMember(l.pendingTicketIds.Keys, bit);
  }

  lemma CommitTickets(s: State, ticket: SubmissionTicket, receipt: Receipt)
    requires Inv(s) && ticket.ticketId in s.pendingSubmissions
    requires s.pendingSubmissions[ticket.ticketId].ticket == ticket
    ensures TicketsOk(Commit(s, ticket, receipt).state)
  {
    var id := ticket.ticketId;
    assert TicketIndexed(s, id);
    var t := Commit(s, ticket, receipt).state;
    forall k | k in t.pendingSubmissions ensures TicketIndexed(t, k) {
      assert TicketIndexed(s, k);
    }
    forall k | k in t.leases ensures LeaseIndexed(t, t.leases[k]) {
      assert LeaseIndexed(s, s.leases[k]);
      forall bit | bit in t.leases[k].pendingTicketIds ensures t.leases[k].pendingTicketIds[bit] != id {
      }
    }
  }

  lemma SettleInv(s: State, a: Access)
    requires Inv(s)
    ensures Inv(SettleWithoutGpu(s, a).state)
  {
    hide Validate, TicketsOk, LeasesOk, PagesOk;
    if Validate(s, a).Some? {
      ValidateBlames(s, a);
      DeclineInv(s, Validate(s, a).value);
    } else {
      SettleLease(s, a);
      AcceptedAccess(s, a);
      ReplaceLeaseInv(s, SettleWithoutGpu(s, a).state, a.leaseId);
      SettleTickets(s, a);
    }
  }

  lemma SettleLease(s: State, a: Access)
    requires LeasesOk(s) && Validate(s, a) == None
    ensures LeaseOk(SettleWithoutGpu(s, a).state.leases[a.leaseId])
  {
    AcceptedBits(s, a);
    hide Validate, LeaseOk, Placed;
    SettledOk(s.leases[a.leaseId], a.consumerBit);
  }

  lemma SettledOk(l: Lease, bit: Mask)
    requires LeaseOk(l) && bit <= l.openBits
    ensures LeaseOk(l.(noGpuBits := l.noGpuBits + bit, openBits := l.openBits - bit))
  {
    hide Flatten;
  }

  lemma SettleTickets(s: State, a: Access)
    requires TicketsOk(s) && Validate(s, a) == None
    ensures TicketsOk(SettleWithoutGpu(s, a).state)
  {
    SameTicketsInv(s, SettleWithoutGpu(s, a).state);
  }

  // Operations that touch many leases at once but move no ticket

  predicate SameTicketing(l: Lease, m: Lease) {
    && m.pendingTicketIds == l.pendingTicketIds
    && m.AccessFor({}, m.runtimeGeneration) == l.AccessFor({}, l.runtimeGeneration)
  }

  predicate SameTickets(s: State, t: State) {
    && t.pendingSubmissions == s.pendingSubmissions && t.nextTicketId == s.nextTicketId
    && t.leases.Keys == s.leases.Keys && forall id | id in s.leases :: SameTicketing(s.leases[id], t.leases[id])
  }

  lemma SameTicketsInv(s: State, t: State)
    requires TicketsOk(s) && SameTickets(s, t)
    ensures TicketsOk(t)
  {
    forall id | id in t.pendingSubmissions ensures TicketIndexed(t, id) {
      assert TicketIndexed(s, id);
    }
    forall id | id in t.leases ensures LeaseIndexed(t, t.leases[id]) {
      assert LeaseIndexed(s, s.leases[id]);
    }
  }

  lemma QueuePlaced(s: State, leaseId: int)
    requires LeasesOk(s) && leaseId in s.leases && s.leases[leaseId].openBits == {}
    ensures LeasesOk(QueueRetirement(s, leaseId).state)
  {
    var t := QueueRetirement(s, leaseId).state;
    forall id | id in t.leases
      ensures t.leases[id].leaseId == id && LeaseOk(t.leases[id]) && Placed(t, t.leases[id])
    {
      assert Placed(s, s.leases[id]);
    }
  }

  lemma QueueInv(s: State, leaseId: int)
    requires Inv(s)
    ensures Inv(QueueRetirement(s, leaseId).state)
  {
    var t := QueueRetirement(s, leaseId).state;
    if leaseId in s.leases {
      if s.leases[leaseId].openBits != {} {
        DeclineInv(s, RetireWhileOpen);
      } else {
        SameTicketsInv(s, t);
        QueuePlaced(s, leaseId);
        assert SamePlaces(s, t);
        forall id | id in t.pages ensures PageOk(t, t.pages[id]) {
          SamePage(s, t, t.pages[id]);
        }
      }
    }
  }

  lemma ResetInv(s: State, nextMapEpoch: Option<int>, nextDeviceEpoch: Option<int>)
    requires Inv(s)
    ensures Inv(Reset(s, nextMapEpoch, nextDeviceEpoch).state)
  {
    var t := Reset(s, nextMapEpoch, nextDeviceEpoch).state;
    if t != s {
      ResetTickets(s, nextMapEpoch, nextDeviceEpoch);
      ResetLeases(s, nextMapEpoch, nextDeviceEpoch);
      ResetPages(s, nextMapEpoch, nextDeviceEpoch);
      hide TicketsOk, LeasesOk, PagesOk, CancelAll;
    }
  }

  lemma ResetTickets(s: State, nextMapEpoch: Option<int>, nextDeviceEpoch: Option<int>)
    requires TicketsOk(s)
    ensures TicketsOk(Reset(s, nextMapEpoch, nextDeviceEpoch).state)
  {
    hide TicketsOk, CancelUnstarted, SameTicketing;
    forall id | id in s.leases
      ensures SameTicketing(s.leases[id], s.leases[id]) && SameTicketing(s.leases[id], CancelUnstarted(s.leases[id]))
    {
      CancelledTickets(s.leases[id]);
    }
    SameTicketsInv(s, Reset(s, nextMapEpoch, nextDeviceEpoch).state);
  }

  lemma CancelledTickets(l: Lease)
    ensures SameTicketing(l, l) && SameTicketing(l, CancelUnstarted(l))
  {
  }

  lemma ResetLeases(s: State, nextMapEpoch: Option<int>, nextDeviceEpoch: Option<int>)
    requires LeasesOk(s)
    ensures LeasesOk(Reset(s, nextMapEpoch, nextDeviceEpoch).state)
  {
    hide LeaseOk, Eligible;
    var t := Reset(s, nextMapEpoch, nextDeviceEpoch).state;
    forall id | id in t.leases
      ensures t.leases[id].leaseId == id && LeaseOk(t.leases[id]) && Placed(t, t.leases[id])
    {
      assert Placed(s, s.leases[id]);
      CancelledOk(s.leases[id], s.lastCompleted);
    }
  }

  lemma CancelledOk(l: Lease, completed: map<string, int>)
    requires LeaseOk(l)
    ensures LeaseOk(CancelUnstarted(l)) && (l.reclaimed ==> CancelUnstarted(l) == l)
    ensures !l.reclaimed ==> CancelUnstarted(l).retirementQueued
    ensures l.reclaimed && Eligible(l, completed) ==> l.retirementQueued
  {
    hide FencesComplete;
  }

  lemma ResetPages(s: State, nextMapEpoch: Option<int>, nextDeviceEpoch: Option<int>)
    requires PagesOk(s)
    ensures PagesOk(Reset(s, nextMapEpoch, nextDeviceEpoch).state)
  {
    hide PageOk;
    var t := Reset(s, nextMapEpoch, nextDeviceEpoch).state;
    forall id | id in t.pages ensures PageOk(t, t.pages[id]) {
      SamePage(s, t, t.pages[id]);
    }
  }

  // Polling

  predicate Advances(last: map<string, int>, next: map<string, int>) {
    forall f | f in last :: f in next && last[f] <= next[f]
  }

  lemma AbsorbAdvances(last: map<string, int>, completed: seq<(string, int)>)
    ensures Advances(last, Absorb(last, completed).0)
    decreases |completed|
  {
    if completed != [] {
      var (fence, value) := completed[0];
      if value >= (if fence in last then last[fence] else 0) {
        AbsorbAdvances(last[fence := value], completed[1..]);
      }
    }
  }

  /** Once eligible, a lease stays eligible as the fences advance. */
  lemma EligibleMonotone(l: Lease, last: map<string, int>, next: map<string, int>)
    requires Advances(last, next) && Eligible(l, last)
    ensures Eligible(l, next)
  {
    forall bit | bit in l.gpuReceipts ensures ReceiptComplete(l.gpuReceipts[bit], next) {
      assert ReceiptComplete(l.gpuReceipts[bit], last);
    }
  }

  lemma AdvanceInv(s: State, next: map<string, int>)
    requires Inv(s) && Advances(s.lastCompleted, next)
    ensures Inv(s.(pollCount := s.pollCount + 1, lastCompleted := next))
  {
    var t := s.(pollCount := s.pollCount + 1, lastCompleted := next);
    SameTicketsInv(s, t);
    forall id | id in t.leases ensures Placed(t, t.leases[id]) {
      assert Placed(s, s.leases[id]);
      if s.leases[id].reclaimed { EligibleMonotone(s.leases[id], s.lastCompleted, next); }
    }
    forall id | id in t.pages ensures PageOk(t, t.pages[id]) {
      SamePage(s, t, t.pages[id]);
    }
  }

  lemma ReleasedInv(s: State, next: map<string, int>)
    requires Inv(s) && Advances(s.lastCompleted, next)
    ensures Inv(Released(s, next))
  {
    var t := Released(s, next);
    ReleasedTickets(s, next);
    hide LeaseOk, Placed, PageOk, TicketsOk, Advances, ReclaimAll, PageAfterPoll;
    forall id | id in s.leases
      ensures t.leases[id].leaseId == id && LeaseOk(t.leases[id]) && Placed(t, t.leases[id])
    {
      ReleasedLease(s, next, id);
    }
    ReleasedKeys(s, next);
    forall id | id in t.pages ensures t.pages[id].pageId == id && PageOk(t, t.pages[id]) {
      ReleasedPage(s, next, id);
    }
  }

  lemma ReleasedKeys(s: State, next: map<string, int>)
    ensures Released(s, next).leases.Keys == s.leases.Keys && Released(s, next).pages.Keys == s.pages.Keys
  {
  }

  lemma ReleasedTickets(s: State, next: map<string, int>)
    requires Inv(s)
    ensures TicketsOk(Released(s, next))
  {
    hide TicketsOk;
    SameTicketsInv(s, Released(s, next));
  }

  lemma ReclaimedOk(l: Lease, completed: map<string, int>)
    requires LeaseOk(l) && (l.reclaimed ==> Eligible(l, completed))
    ensures LeaseOk(Reclaim(l, completed))
    ensures Reclaim(l, completed).reclaimed ==> Eligible(Reclaim(l, completed), completed)
  {
  }

  lemma ReleasedLease(s: State, next: map<string, int>, id: int)
    requires LeasesOk(s) && Advances(s.lastCompleted, next) && id in s.leases
    ensures var m := Released(s, next).leases[id]; m.leaseId == id && LeaseOk(m) && Placed(Released(s, next), m)
  {
    hide Advances, FencesComplete, LeaseOk, Eligible;
    assert Placed(s, s.leases[id]);
    if s.leases[id].reclaimed { EligibleMonotone(s.leases[id], s.lastCompleted, next); }
    ReclaimedOk(s.leases[id], next);
  }

  /** Polling gives up exactly the claims of the leases it reclaims. */
  lemma ReleasedClaims(s: State, next: map<string, int>, pageId: int)
    requires LeasesOk(s) && PagesOk(s) && pageId in s.pages
    ensures var t := Released(s, next);
      Unreclaimed(t, t.pages[pageId]) == Unreclaimed(s, s.pages[pageId]) - Discharged(s.leases, pageId, next)
  {
    hide Eligible, LeaseOk, Placed;
    var t := Released(s, next);
    var p, q, gone := s.pages[pageId], t.pages[pageId], Discharged(s.leases, pageId, next);
    SameScan(s, t, p, q);
    forall c | c in Unreclaimed(s, p) - gone ensures c in Unreclaimed(t, q) {
      var id :| id in ScannedIds(s, p) && !s.leases[id].reclaimed && c == (id, p.generation);
      assert Eligible(s.leases[id], next) ==> c in gone;
    }
    forall c | c in Unreclaimed(t, q) ensures c in Unreclaimed(s, p) - gone {
      var id :| id in ScannedIds(t, q) && !t.leases[id].reclaimed && c == (id, q.generation);
      assert !Eligible(s.leases[id], next);
    }
  }

  lemma ReleasedPage(s: State, next: map<string, int>, pageId: int)
    requires Inv(s) && pageId in s.pages
    ensures var q := Released(s, next).pages[pageId]; q.pageId == pageId && PageOk(Released(s, next), q)
  {
    ReleasedClaims(s, next, pageId);
    SameScan(s, Released(s, next), s.pages[pageId], Released(s, next).pages[pageId]);
    hide Unreclaimed, Discharged, ScannedIds, LeasesOk, TicketsOk;
  }

  // The audit

  lemma ClassificationAudit(l: Lease)
    requires LeaseOk(l)
    ensures ClassificationBlockers(l) == {} <==> l.retirementQueued && l.pendingTicketIds == map[]
  {
    FlattenEmpty(l.pendingTicketIds.Keys);
    if !l.retirementQueued {
      assert RetirementNotQueued in ClassificationBlockers(l);
    } else if l.PendingBits() != {} {
      assert PendingReceipt in ClassificationBlockers(l);
    } else {
      assert l.openBits + l.PendingBits() + l.TerminalBits() == l.requestedBits;
      assert l.openBits * l.PendingBits() + l.openBits * l.TerminalBits() + l.PendingBits() * l.TerminalBits() == {};
    }
  }

  lemma TicketAudit(s: State, id: int)
    requires TicketsOk(s) && id in s.leases && s.leases[id].leaseId == id
    ensures TicketBlockers(s, s.leases[id]) == {}
  {
    var l := s.leases[id];
    assert LeaseIndexed(s, l);
    forall bit | bit in l.pendingTicketIds
      ensures TicketIndexed(s, l.pendingTicketIds[bit])
    {
    }
    forall k | k in s.pendingSubmissions && s.pendingSubmissions[k].ticket.access.leaseId == id
      ensures Indexes(l, s.pendingSubmissions[k].ticket.access.consumerBit, k)
    {
      assert TicketIndexed(s, k);
    }
  }

  lemma FenceAudit(l: Lease, completed: map<string, int>)
    requires LeaseOk(l)
    ensures FenceBlockers(l, completed) == {} <==> FencesComplete(l, completed)
  {
    var found := FenceBlockers(l, completed);
    forall bit | bit in l.gpuReceipts ensures l.requestedBits * bit != {} {
      FlattenMember(l.gpuReceipts.Keys, bit);
      assert l.requestedBits * bit == bit;
    }
    if found == {} {
      forall bit | bit in l.gpuReceipts ensures ReceiptComplete(l.gpuReceipts[bit], completed) {
        assert !ReceiptComplete(l.gpuReceipts[bit], completed) ==> ConsumerFenceIncomplete(bit) in found;
      }
      assert ProducerFenceIncomplete !in found;
    }
  }

  /** In an invariant state the audit of a lease finds nothing exactly when the allocator may release it. */
  lemma AuditAgrees(s: State, id: int)
    requires Inv(s) && id in s.leases
    ensures LeaseBlockers(s, s.leases[id]) == {} <==> Eligible(s.leases[id], s.lastCompleted)
  {
    var l := s.leases[id];
    ClassificationAudit(l);
    TicketAudit(s, id);
    FenceAudit(l, s.lastCompleted);
    assert l.pendingTicketIds == map[] ==> l.PendingBits() == {};
  }

  /** The page audit comes back empty exactly when every current lease of the page may be released. */
  lemma PageAuditAgrees(s: State, pageId: int)
    requires Inv(s) && pageId in s.pages
    ensures PageBlockers(s, s.pages[pageId]) == {}
            <==> forall id | id in ScannedIds(s, s.pages[pageId]) :: Eligible(s.leases[id], s.lastCompleted)
  {
    hide LeaseBlockers, Eligible, LeaseOk, Placed, TicketIndexed, LeaseIndexed, Count;
    var p := s.pages[pageId];
    var found := PageBlockers(s, p);
    forall id | id in s.leases
      ensures LeaseBlockers(s, s.leases[id]) == {} <==> Eligible(s.leases[id], s.lastCompleted)
    {
      AuditAgrees(s, id);
    }
    if found == {} {
      forall id | id in ScannedIds(s, p) ensures Eligible(s.leases[id], s.lastCompleted) {
        assert forall why | why in LeaseBlockers(s, s.leases[id]) :: LeaseBlocked(id, why) in found;
      }
    }
    if forall id | id in ScannedIds(s, p) :: Eligible(s.leases[id], s.lastCompleted) {
      NoTicketNames(s, p);
      assert found == {};
    }
  }

  /** Once the leases of a page may all be released, no pending ticket names the page. */
  lemma NoTicketNames(s: State, p: Page)
    requires TicketsOk(s) && PageOk(s, p)
    requires forall id | id in ScannedIds(s, p) :: Eligible(s.leases[id], s.lastCompleted)
    ensures forall k | k in s.pendingSubmissions ::
              var a := s.pendingSubmissions[k].ticket.access; a.pageId != p.pageId || a.pageGeneration != p.generation
  {
    hide LeaseIndexed, FencesComplete, PageOk;
    forall k | k in s.pendingSubmissions
      ensures var a := s.pendingSubmissions[k].ticket.access; a.pageId != p.pageId || a.pageGeneration != p.generation
    {
      assert TicketIndexed(s, k);
      assert s.pendingSubmissions[k].ticket.access.leaseId !in ScannedIds(s, p);
    }
  }

  /** A page marked reusable has no blocker, in every invariant state. */
  lemma ReusablePageUnblocked(s: State, pageId: int)
    requires Inv(s) && pageId in s.pages && s.pages[pageId].reusable
    ensures PageBlockers(s, s.pages[pageId]) == {}
  {
    var p := s.pages[pageId];
    forall id | id in ScannedIds(s, p) ensures Eligible(s.leases[id], s.lastCompleted) {
      assert !s.leases[id].reclaimed ==> (id, p.generation) in Unreclaimed(s, p);
      assert Placed(s, s.leases[id]);
    }
    PageAuditAgrees(s, pageId);
  }

  lemma PollInv(s: State, completed: seq<(string, int)>)
    requires Inv(s)
    ensures Inv(Poll(s, completed).state)
    ensures Poll(s, completed).reply != Raised(AssertionError)
    ensures Poll(s, completed).reply == Done <==> Absorb(s.lastCompleted, completed).1
    ensures Poll(s, completed).reply == Done ==>
      Poll(s, completed).state == Released(s, Absorb(s.lastCompleted, completed).0)
  {
    AbsorbAdvances(s.lastCompleted, completed);
    var (next, monotone) := Absorb(s.lastCompleted, completed);
    if monotone {
      ReleasedInv(s, next);
      var t := Released(s, next);
      if UnsafeReuse(t) {
        var id :| id in t.pages && t.pages[id].reusable && PageBlockers(t, t.pages[id]) != {};
        ReusablePageUnblocked(t, id);
      }
    } else {
      AdvanceInv(s, next);
    }
  }

  lemma ReopenInv(s: State, pageId: int)
    requires Inv(s)
    ensures Inv(ReopenPage(s, pageId).state)
    ensures pageId in s.pages ==> (ReopenPage(s, pageId).reply == Done <==> s.pages[pageId].reusable)
  {
    if pageId in s.pages {
      var p := s.pages[pageId];
      if !p.reusable {
        DeclineInv(s, PageReopenUnsafe);
      } else {
        ReusablePageUnblocked(s, pageId);
        var t := ReopenPage(s, pageId).state;
        SameTicketsInv(s, t);
        forall id | id in t.leases ensures Placed(t, t.leases[id]) {
          assert Placed(s, s.leases[id]);
          assert id in ScannedIds(s, p) && !s.leases[id].reclaimed ==> (id, p.generation) in Unreclaimed(s, p);
        }
        forall id | id in t.pages ensures PageOk(t, t.pages[id]) {
          if id == pageId {
            forall k | k in t.leases ensures k !in ScannedIds(t, t.pages[id]) {
              assert Placed(s, s.leases[k]);
            }
            assert ScannedIds(t, t.pages[id]) == {};
          } else {
            SamePage(s, t, t.pages[id]);
          }
        }
      }
    }
  }

  /** Every operation keeps the invariant, whatever its arguments. */
  lemma StepInv(s: State, op: Op)
    requires Inv(s) && Enabled(s, op)
    ensures Inv(Step(s, op).state)
  {
    match op
    case OpAddPage(id) => AddPageInv(s, id);
    case OpAddLease(r) => AddLeaseInv(s, r);
    case OpBegin(a, capability) => BeginInv(s, a, capability);
    case OpCommit(t, r) => CommitInv(s, t, r);
    case OpSettle(a) => SettleInv(s, a);
    case OpQueue(id) => QueueInv(s, id);
    case OpReset(m, d) => ResetInv(s, m, d);
    case OpPoll(c) => PollInv(s, c);
    case OpReopen(id) => ReopenInv(s, id);
  }
}
