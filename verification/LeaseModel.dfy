/** InputLeaseModel as the source has it: mutable leases and pages reached through dictionaries, with
    tickets compared by identity. Each method is proved against the transition of LeaseProtocol, so whatever
    LeaseSafety proves of every run of transitions holds of every run of calls on the objects. */
module LeaseModel {
  import opened Wrappers
  import opened LeaseProtocol
  import opened LeasePolling

  class InputLease {
    const leaseId: int
    const runtimeGeneration: int
    const mapEpoch: int
    const deviceEpoch: int
    const token: int
    const pageId: int
    const pageGeneration: int
    const ranges: Ranges
    const requestedBits: Mask
    const producerReceipt: Option<Receipt>
    var openBits: Mask
    var pendingTicketIds: map<Mask, int>
    var gpuReceipts: map<Mask, Receipt>
    var noGpuBits: Mask
    var resetCancelledBits: Mask
    var retirementQueued: bool
    var reclaimed: bool

    constructor (r: LeaseRequest, runtimeGeneration: int, mapEpoch: int, deviceEpoch: int, pageGeneration: int)
      ensures leaseId == r.leaseId
      ensures Value() == Lease(r.leaseId, runtimeGeneration, mapEpoch, deviceEpoch, r.token, r.pageId, pageGeneration,
                               r.ranges, r.requestedBits, r.producerReceipt, r.requestedBits, map[], map[], {}, {},
                               false, false)
    {
      this.leaseId := r.leaseId;
      this.runtimeGeneration, this.mapEpoch, this.deviceEpoch := runtimeGeneration, mapEpoch, deviceEpoch;
      this.token, this.pageId, this.pageGeneration, this.ranges := r.token, r.pageId, pageGeneration, r.ranges;
      this.requestedBits, this.producerReceipt := r.requestedBits, r.producerReceipt;
      openBits := r.requestedBits;
      pendingTicketIds, gpuReceipts := map[], map[];
      noGpuBits, resetCancelledBits := {}, {};
      retirementQueued, reclaimed := false, false;
    }

    /** What a reset does to a lease that no poll has reclaimed. */
    method CancelUnstarted()
      modifies this
      ensures Value() == LeaseProtocol.CancelUnstarted(old(Value()))
    {
      if !reclaimed {
        resetCancelledBits := resetCancelledBits + openBits;
        openBits := {};
        retirementQueued := true;
      }
    }

    function Value(): Lease
      reads this
    {
      Lease(leaseId, runtimeGeneration, mapEpoch, deviceEpoch, token, pageId, pageGeneration, ranges, requestedBits,
            producerReceipt, openBits, pendingTicketIds, gpuReceipts, noGpuBits, resetCancelledBits,
            retirementQueued, reclaimed)
    }
  }

  class UploadPage {
    const pageId: int
    var generation: int
    var currentLeaseIds: seq<int>
    var liveClaims: set<(int, int)>
    var reusable: bool
    var reuseCount: int

    constructor (pageId: int)
      ensures this.pageId == pageId && Value() == Page(pageId, 1, [], {}, false, 0)
    {
      this.pageId := pageId;
      generation, currentLeaseIds, liveClaims, reusable, reuseCount := 1, [], {}, false, 0;
    }

    function Value(): Page
      reads this
    {
      Page(pageId, generation, currentLeaseIds, liveClaims, reusable, reuseCount)
    }
  }

  class InputLeaseModel {
    var runtimeGeneration: int
    var mapEpoch: int
    var deviceEpoch: int
    var pages: map<int, UploadPage>
    var leases: map<int, InputLease>
    var pendingSubmissions: map<int, PendingSubmission>
    var nextTicketId: int
    var pollCount: int
    var unsafeReuseCount: int
    var postResetReceiptCommits: int
    var lastCompleted: map<string, int>
    var rejections: Counters

    function PageValues(): map<int, Page>
      reads this`pages, pages.Values
    {
      map id | id in pages :: pages[id].Value()
    }

    function LeaseValues(): map<int, Lease>
      reads this`leases, leases.Values
    {
      map id | id in leases :: leases[id].Value()
    }

    /** The snapshot of the whole model as a protocol state. */
    function Abs(): State
      reads this, pages.Values, leases.Values
    {
      State(runtimeGeneration, mapEpoch, deviceEpoch, PageValues(), LeaseValues(), pendingSubmissions, nextTicketId,
            pollCount, unsafeReuseCount, postResetReceiptCommits, lastCompleted, rejections)
    }

    /** Keys name the objects they map to, so distinct keys hold distinct objects, and every lease has its page.
        The protocol invariant of Abs() is kept by every transition (LeaseInvariant.StepInv). */
    ghost predicate Valid()
      reads this
    {
      && (forall id | id in pages :: pages[id].pageId == id)
      && (forall id | id in leases :: leases[id].leaseId == id && leases[id].pageId in pages)
    }

    twostate lemma OnlyLeaseChanged(id: int)
      requires Valid() && leases == old(leases) && pages == old(pages) && id in leases
      requires forall k | k in leases && k != id :: unchanged(leases[k])
      requires forall k | k in pages :: unchanged(pages[k])
      ensures LeaseValues() == old(LeaseValues())[id := leases[id].Value()] && PageValues() == old(PageValues())
    {
      forall k | k in leases ensures LeaseValues()[k] == old(LeaseValues())[id := leases[id].Value()][k] {
      }
      forall k | k in pages ensures PageValues()[k] == old(PageValues())[k] {
      }
    }

    twostate lemma OnlyPageChanged(id: int)
      requires Valid() && leases == old(leases) && pages == old(pages) && id in pages
      requires forall k | k in leases :: unchanged(leases[k])
      requires forall k | k in pages && k != id :: unchanged(pages[k])
      ensures PageValues() == old(PageValues())[id := pages[id].Value()] && LeaseValues() == old(LeaseValues())
    {
      forall k | k in leases ensures LeaseValues()[k] == old(LeaseValues())[k] {
      }
      forall k | k in pages ensures PageValues()[k] == old(PageValues())[id := pages[id].Value()][k] {
      }
    }

    ghost function Repr(): set<object>
      reads this
    {
      {this} + pages.Values + leases.Values
    }

    constructor (mapEpoch: int, deviceEpoch: int)
      requires mapEpoch > 0 && deviceEpoch > 0
      ensures Valid() && fresh(Repr()) && Abs() == Initial(mapEpoch, deviceEpoch)
    {
      runtimeGeneration := 1;
      this.mapEpoch, this.deviceEpoch := mapEpoch, deviceEpoch;
      pages, leases, pendingSubmissions := map[], map[], map[];
      nextTicketId := 1;
      pollCount, unsafeReuseCount, postResetReceiptCommits := 0, 0, 0;
      lastCompleted, rejections := map[], map[];
      new;
      assert Abs() == Initial(mapEpoch, deviceEpoch);
    }

    method AddPage(pageId: int) returns (reply: Reply)
      requires Valid()
      modifies this
      ensures Valid() && fresh(Repr() - old(Repr()))
      ensures Outcome(Abs(), reply) == LeaseProtocol.AddPage(old(Abs()), pageId)
    {
      ghost var before := Abs();
      if pageId <= 0 || pageId in pages {
        return Raised(ValueError);
      }
      var page := new UploadPage(pageId);
      pages := pages[pageId := page];
      assert PageValues() == before.pages[pageId := page.Value()];
      assert LeaseValues() == before.leases;
      return Done;
    }

    method AddLease(r: LeaseRequest) returns (reply: Reply)
      requires Valid()
      modifies this, pages.Values
      ensures Valid() && fresh(Repr() - old(Repr())) && pages == old(pages)
      ensures Outcome(Abs(), reply) == LeaseProtocol.AddLease(old(Abs()), r)
    {
      if || r.leaseId <= 0 || r.leaseId in leases || r.token <= 0
         || r.requestedBits == {} || !(r.requestedBits <= KNOWN_CONSUMERS)
         || !ValidRange(r.ranges.staticOffset, r.ranges.staticLength)
         || !ValidRange(r.ranges.paletteOffset, r.ranges.paletteLength) {
        return Raised(ValueError);
      }
      if r.pageId !in pages {
        return Raised(KeyError);
      }
      var page := pages[r.pageId];
      if page.reusable || (page.liveClaims != {} && page.currentLeaseIds == []) {
        return Raised(ValueError);
      }
      Register(r);
      return Done;
    }

    method Register(r: LeaseRequest)
      requires Valid() && r.pageId in pages && r.leaseId !in leases
      requires LeaseProtocol.AddLease(Abs(), r).reply == Done
      modifies this, pages[r.pageId]
      ensures Valid() && fresh(Repr() - old(Repr())) && pages == old(pages)
      ensures Abs() == LeaseProtocol.AddLease(old(Abs()), r).state
    {
      hide RequestMalformed, PageValues, LeaseValues;
      KeysOfValues();
      assert PageValues()[r.pageId] == pages[r.pageId].Value() by { ValueOfPage(r.pageId); }
      Enroll(r, pages[r.pageId].generation);
      Claim(r.pageId, r.leaseId);
    }

    lemma ValueOfPage(pageId: int)
      requires pageId in pages
      ensures pageId in PageValues() && PageValues()[pageId] == pages[pageId].Value()
    {
    }

    method Enroll(r: LeaseRequest, pageGeneration: int)
      requires Valid() && r.pageId in pages && r.leaseId !in leases
      modifies this`leases
      ensures Valid() && r.leaseId in leases && leases == old(leases)[r.leaseId := leases[r.leaseId]]
      ensures fresh(leases[r.leaseId])
      ensures Abs() == old(Abs()).(leases := old(LeaseValues())[r.leaseId := NewLease(old(Abs()), r, pageGeneration)])
    {
      ghost var before := Abs();
      var lease := new InputLease(r, runtimeGeneration, mapEpoch, deviceEpoch, pageGeneration);
      leases := leases[r.leaseId := lease];
      assert LeaseValues() == before.leases[r.leaseId := lease.Value()];
      assert PageValues() == before.pages;
    }

    method Claim(pageId: int, leaseId: int)
      requires Valid() && pageId in pages
      modifies pages[pageId]
      ensures unchanged(this)
      ensures Abs() == old(Abs()).(pages := old(PageValues())[pageId := old(pages[pageId].Value()).(
        currentLeaseIds := old(pages[pageId].currentLeaseIds) + [leaseId],
        liveClaims := old(pages[pageId].liveClaims) + {(leaseId, old(pages[pageId].generation))},
        reusable := false)])
    {
      var page := pages[pageId];
      page.currentLeaseIds := page.currentLeaseIds + [leaseId];
      page.liveClaims := page.liveClaims + {(leaseId, page.generation)};
      page.reusable := false;
      OnlyPageChanged(pageId);
    }

    method Reject(why: Rejection)
      requires Valid()
      modifies this`rejections
      ensures Valid() && Abs() == Decline(old(Abs()), why).state
    {
      rejections := Bump(rejections, why);
    }

    /** Counts the first failed check, if there is one. */
    method ValidateOpenAccess(a: Access) returns (failed: Option<Rejection>)
      requires Valid()
      modifies this`rejections
      ensures Valid()
      ensures failed == Validate(old(Abs()), a)
      ensures Abs() == if failed.Some? then Decline(old(Abs()), failed.value).state else old(Abs())
    {
      failed := None;
      if a.leaseId !in leases {
        failed := Some(LeaseIdentityMismatch);
      } else {
        var lease := leases[a.leaseId];
        if !SingleKnownConsumer(a.consumerBit) {
          failed := Some(UnknownConsumer);
        } else if lease.requestedBits * a.consumerBit == {} {
          failed := Some(NotRequested);
        } else if lease.openBits * a.consumerBit == {} {
          failed := Some(DuplicateSettlement);
        } else if a.runtimeGeneration != runtimeGeneration || lease.runtimeGeneration != runtimeGeneration {
          failed := Some(GenerationMismatch);
        } else if || a.mapEpoch != lease.mapEpoch || a.deviceEpoch != lease.deviceEpoch
                  || a.mapEpoch != mapEpoch || a.deviceEpoch != deviceEpoch {
          failed := Some(EpochMismatch);
        } else if a.token != lease.token {
          failed := Some(TokenMismatch);
        } else if a.pageId != lease.pageId || a.pageGeneration != lease.pageGeneration {
          failed := Some(PageIdentityMismatch);
        } else if a.ranges != lease.ranges {
          failed := Some(RangeMismatch);
        }
      }
      if failed.Some? {
        Reject(failed.value);
      }
    }

    method HoldFor(leaseId: int, bit: Mask, ticketId: int)
      requires Valid() && leaseId in leases
      modifies leases[leaseId]
      ensures unchanged(this)
      ensures Abs() == old(Abs()).(leases := old(LeaseValues())[leaseId :=
        old(leases[leaseId].Value()).(pendingTicketIds := old(leases[leaseId].pendingTicketIds)[bit := ticketId],
                                      openBits := old(leases[leaseId].openBits) - bit)])
    {
      var lease := leases[leaseId];
      lease.pendingTicketIds := lease.pendingTicketIds[bit := ticketId];
      lease.openBits := lease.openBits - bit;
      OnlyLeaseChanged(leaseId);
    }

    method Attach(leaseId: int, bit: Mask, receipt: Receipt)
      requires Valid() && leaseId in leases
      modifies leases[leaseId]
      ensures unchanged(this)
      ensures Abs() == old(Abs()).(leases := old(LeaseValues())[leaseId :=
        old(leases[leaseId].Value()).(pendingTicketIds := old(leases[leaseId].pendingTicketIds) - {bit},
                                      gpuReceipts := old(leases[leaseId].gpuReceipts)[bit := receipt])])
    {
      var lease := leases[leaseId];
      lease.pendingTicketIds := lease.pendingTicketIds - {bit};
      lease.gpuReceipts := lease.gpuReceipts[bit := receipt];
      OnlyLeaseChanged(leaseId);
    }

    method BeginGpuSubmission(a: Access) returns (reply: Reply)
      requires Valid()
      modifies this, leases.Values
      ensures Valid() && leases == old(leases) && pages == old(pages)
      ensures reply.Issued? ==>
        && fresh(reply.ticket)
        && reply.ticket.ticketId == old(nextTicketId) && reply.ticket.access == a
        && Outcome(Abs(), reply) == Begin(old(Abs()), a, reply.ticket)
      ensures !reply.Issued? ==>
        && Validate(old(Abs()), a).Some?
        && Outcome(Abs(), reply) == Decline(old(Abs()), Validate(old(Abs()), a).value)
    {
      var failed := ValidateOpenAccess(a);
      if failed.Some? {
        return Declined(failed.value);
      }
      var ticket := Enter(a);
      return Issued(ticket);
    }

    static lemma AcceptedLease(s: State, a: Access)
      requires Validate(s, a) == None
      ensures a.leaseId in s.leases
    {
    }

    /** The irreversible step, once the access has passed every check. */
    method Enter(a: Access) returns (ticket: SubmissionTicket)
      requires Valid() && Validate(Abs(), a) == None
      modifies this, leases[a.leaseId]
      ensures Valid() && leases == old(leases) && pages == old(pages)
      ensures fresh(ticket) && ticket.ticketId == old(nextTicketId) && ticket.access == a
      ensures Abs() == Begin(old(Abs()), a, ticket).state
    {
      hide Validate, PageValues, LeaseValues;
      AcceptedLease(Abs(), a);
      KeysOfValues();
      ticket := NewTicket(a);
      HoldFor(a.leaseId, a.consumerBit, ticket.ticketId);
    }

    lemma KeysOfValues()
      requires Valid()
      ensures LeaseValues().Keys == leases.Keys && PageValues().Keys == pages.Keys
      ensures forall id | id in leases ::
                LeaseValues()[id] == leases[id].Value() && LeaseValues()[id].pageId in PageValues()
    {
    }

    method NewTicket(a: Access) returns (ticket: SubmissionTicket)
      modifies this`nextTicketId, this`pendingSubmissions
      ensures fresh(ticket) && ticket.ticketId == old(nextTicketId) && ticket.access == a
      ensures Abs() == old(Abs()).(nextTicketId := old(nextTicketId) + 1,
        pendingSubmissions := old(pendingSubmissions)[old(nextTicketId) := PendingSubmission(ticket, true)])
    {
      hide PageValues, LeaseValues;
      var ticketId := nextTicketId;
      nextTicketId := nextTicketId + 1;
      ticket := new SubmissionTicket(ticketId, a);
      pendingSubmissions := pendingSubmissions[ticketId := PendingSubmission(ticket, true)];
    }

    method CommitGpuSubmission(ticket: SubmissionTicket, receipt: Receipt) returns (reply: Reply)
      requires Valid()
      modifies this, leases.Values
      ensures Valid() && leases == old(leases) && pages == old(pages)
      ensures Outcome(Abs(), reply) == Commit(old(Abs()), ticket, receipt)
    {
      if ticket.ticketId !in pendingSubmissions {
        Reject(StaleTicket);
        return Declined(StaleTicket);
      }
      if pendingSubmissions[ticket.ticketId].ticket != ticket {
        Reject(ForgedTicket);
        return Declined(ForgedTicket);
      }
      var a := ticket.access;
      if || a.leaseId !in leases
         || a.consumerBit !in leases[a.leaseId].pendingTicketIds
         || leases[a.leaseId].pendingTicketIds[a.consumerBit] != ticket.ticketId {
        Reject(PendingIndexMismatch);
        return Declined(PendingIndexMismatch);
      }
      Settle(ticket, receipt);
      return Done;
    }

    /** Takes a genuine ticket out of both indexes and attaches its receipt. */
    method Settle(ticket: SubmissionTicket, receipt: Receipt)
      requires Valid() && Commit(Abs(), ticket, receipt).reply == Done
      modifies this, leases[ticket.access.leaseId]
      ensures Valid() && leases == old(leases) && pages == old(pages)
      ensures Abs() == Commit(old(Abs()), ticket, receipt).state
    {
      hide PageValues, LeaseValues;
      KeysOfValues();
      TakeTicket(ticket);
      Attach(ticket.access.leaseId, ticket.access.consumerBit, receipt);
    }

    method TakeTicket(ticket: SubmissionTicket)
      modifies this`pendingSubmissions, this`postResetReceiptCommits
      ensures Abs() == old(Abs()).(pendingSubmissions := old(pendingSubmissions) - {ticket.ticketId},
        postResetReceiptCommits := old(postResetReceiptCommits)
                                   + if ticket.access.runtimeGeneration != runtimeGeneration then 1 else 0)
    {
      hide PageValues, LeaseValues;
      pendingSubmissions := pendingSubmissions - {ticket.ticketId};
      if ticket.access.runtimeGeneration != runtimeGeneration {
        postResetReceiptCommits := postResetReceiptCommits + 1;
      }
    }

    method SettleWithoutGpu(a: Access) returns (reply: Reply)
      requires Valid()
      modifies this, leases.Values
      ensures Valid() && leases == old(leases) && pages == old(pages)
      ensures Outcome(Abs(), reply) == LeaseProtocol.SettleWithoutGpu(old(Abs()), a)
    {
      hide Validate;
      var failed := ValidateOpenAccess(a);
      if failed.Some? {
        return Declined(failed.value);
      }
      AcceptedLease(Abs(), a);
      var lease := leases[a.leaseId];
      lease.noGpuBits := lease.noGpuBits + a.consumerBit;
      lease.openBits := lease.openBits - a.consumerBit;
      OnlyLeaseChanged(a.leaseId);
      return Done;
    }

    method QueueRetirement(leaseId: int) returns (reply: Reply)
      requires Valid()
      modifies this, leases.Values
      ensures Valid() && leases == old(leases) && pages == old(pages)
      ensures Outcome(Abs(), reply) == LeaseProtocol.QueueRetirement(old(Abs()), leaseId)
    {
      if leaseId !in leases {
        return Raised(KeyError);
      }
      var lease := leases[leaseId];
      if lease.openBits != {} {
        Reject(RetireWhileOpen);
        return Declined(RetireWhileOpen);
      }
      lease.retirementQueued := true;
      OnlyLeaseChanged(leaseId);
      return Done;
    }

    method Reset(nextMapEpoch: Option<int>, nextDeviceEpoch: Option<int>) returns (reply: Reply)
      requires Valid()
      modifies this, leases.Values
      ensures Valid() && leases == old(leases) && pages == old(pages)
      ensures Outcome(Abs(), reply) == LeaseProtocol.Reset(old(Abs()), nextMapEpoch, nextDeviceEpoch)
    {
      if nextMapEpoch.Some? && nextMapEpoch.value <= 0 {
        return Raised(ValueError);
      }
      if nextDeviceEpoch.Some? && nextDeviceEpoch.value <= 0 {
        return Raised(ValueError);
      }
      EnterGeneration(nextMapEpoch, nextDeviceEpoch);
      CancelLeases();
      return Done;
    }

    method EnterGeneration(nextMapEpoch: Option<int>, nextDeviceEpoch: Option<int>)
      modifies this`runtimeGeneration, this`mapEpoch, this`deviceEpoch
      ensures Abs() == old(Abs()).(
        runtimeGeneration := old(runtimeGeneration) + 1,
        mapEpoch := if nextMapEpoch.Some? then nextMapEpoch.value else old(mapEpoch),
        deviceEpoch := if nextDeviceEpoch.Some? then nextDeviceEpoch.value else old(deviceEpoch))
    {
      hide PageValues, LeaseValues;
      runtimeGeneration := runtimeGeneration + 1;
      if nextMapEpoch.Some? {
        mapEpoch := nextMapEpoch.value;
      }
      if nextDeviceEpoch.Some? {
        deviceEpoch := nextDeviceEpoch.value;
      }
    }

    method CancelLeases()
      requires Valid()
      modifies leases.Values
      ensures Valid() && unchanged(this)
      ensures Abs() == old(Abs()).(leases := CancelAll(old(LeaseValues())))
    {
      hide CancelledIn, CancelAll;
      var order := Listed(leases.Keys);
      CancelInOrder(order);
      AllLeasesVisited(old(LeaseValues()), lastCompleted, order);
    }

    method CancelInOrder(order: seq<int>)
      requires Valid()
      requires forall i | 0 <= i < |order| :: order[i] in leases && order[i] !in order[..i]
      modifies leases.Values
      ensures Valid() && unchanged(this) && PageValues() == old(PageValues())
      ensures LeaseValues() == CancelledIn(old(LeaseValues()), order)
    {
      hide CancelledIn, LeaseProtocol.CancelUnstarted, PageValues;
      ghost var start := LeaseValues();
      assert forall id | id in leases :: id in start;
      NothingVisited(Abs(), lastCompleted);
      for i := 0 to |order|
        invariant Valid() && unchanged(this)
        invariant LeaseValues() == CancelledIn(start, order[..i]) && PageValues() == old(PageValues())
      {
        VisitLease(start, lastCompleted, order[..i], order[i]);
        assert order[..i + 1] == order[..i] + [order[i]];
        CancelLease(order[i]);
      }
      assert order[..|order|] == order;
    }

    method CancelLease(id: int)
      requires Valid() && id in leases
      modifies leases[id]
      ensures unchanged(this) && PageValues() == old(PageValues())
      ensures LeaseValues() == old(LeaseValues())[id := LeaseProtocol.CancelUnstarted(old(LeaseValues())[id])]
    {
      leases[id].CancelUnstarted();
      OnlyLeaseChanged(id);
    }

    method Poll(completed: seq<(string, int)>) returns (reply: Reply)
      requires Valid()
      modifies this, leases.Values, pages.Values
      ensures Valid() && leases == old(leases) && pages == old(pages)
      ensures Outcome(Abs(), reply) == LeaseProtocol.Poll(old(Abs()), completed)
    {
      hide Audited, ReclaimAll, ReleasePages, Absorb;
      pollCount := pollCount + 1;
      var monotone := AbsorbFences(completed);
      if monotone {
        reply := ReleaseAndAudit();
      } else {
        reply := Raised(ValueError);
      }
    }

    method ReleaseAndAudit() returns (reply: Reply)
      requires Valid()
      modifies this`unsafeReuseCount, leases.Values, pages.Values
      ensures Valid() && leases == old(leases) && pages == old(pages)
      ensures Outcome(Abs(), reply)
        == Audited(old(Abs()).(leases := ReclaimAll(old(LeaseValues()), lastCompleted),
                               pages := ReleasePages(old(PageValues()), old(LeaseValues()), lastCompleted)))
    {
      ReleaseAll();
      reply := AssertNoUnsafeReuse();
    }

    method ReleaseAll()
      requires Valid()
      modifies leases.Values, pages.Values
      ensures Valid() && unchanged(this)
      ensures Abs() == old(Abs()).(leases := ReclaimAll(old(LeaseValues()), lastCompleted),
                                   pages := ReleasePages(old(PageValues()), old(LeaseValues()), lastCompleted))
    {
      hide ReclaimedIn, DroppedIn, MarkedIn, ReclaimAll, ReleasePages;
      ghost var start := Abs();
      var leaseOrder := Listed(leases.Keys);
      var pageOrder := Listed(pages.Keys);
      ReleaseLeases(start, leaseOrder);
      MarkReusable(pageOrder);
      AllLeasesVisited(start.leases, lastCompleted, leaseOrder);
      AllPagesVisited(start, lastCompleted, leaseOrder, pageOrder);
    }

    method AbsorbFences(completed: seq<(string, int)>) returns (monotone: bool)
      modifies this`lastCompleted
      ensures (lastCompleted, monotone) == Absorb(old(lastCompleted), completed)
      ensures Abs() == old(Abs()).(lastCompleted := lastCompleted)
    {
      for i := 0 to |completed|
        invariant Absorb(old(lastCompleted), completed) == Absorb(lastCompleted, completed[i..])
      {
        var (fence, value) := completed[i];
        assert completed[i..][0] == completed[i] && completed[i..][1..] == completed[i + 1..];
        if value < (if fence in lastCompleted then lastCompleted[fence] else 0) {
          return false;
        }
        lastCompleted := lastCompleted[fence := value];
      }
      return true;
    }

    method ReleaseLeases(ghost start: State, order: seq<int>)
      requires Valid() && LeaseValues() == start.leases && PageValues() == start.pages
      requires forall i | 0 <= i < |order| :: order[i] in leases && order[i] !in order[..i]
      modifies leases.Values, pages.Values
      ensures Valid() && unchanged(this)
      ensures LeaseValues() == ReclaimedIn(start.leases, lastCompleted, order)
      ensures PageValues() == DroppedIn(start, lastCompleted, order)
    {
      hide ReclaimedIn, DroppedIn, Reclaim, WithoutClaim, PageValues, LeaseValues;
      KeysOfValues();
      assert forall id | id in leases :: id in start.leases && start.leases[id].pageId in start.pages;
      NothingVisited(start, lastCompleted);
      for i := 0 to |order|
        invariant Valid() && unchanged(this)
        invariant LeaseValues() == ReclaimedIn(start.leases, lastCompleted, order[..i])
        invariant PageValues() == DroppedIn(start, lastCompleted, order[..i])
      {
        assert order[..i + 1] == order[..i] + [order[i]];
        VisitLease(start.leases, lastCompleted, order[..i], order[i]);
        DropClaim(start, lastCompleted, order[..i], order[i]);
        ReleaseLease(order[i]);
      }
      assert order[..|order|] == order;
    }

    method ReleaseLease(id: int)
      requires Valid() && id in leases
      modifies leases[id], pages[leases[id].pageId]
      ensures unchanged(this)
      ensures var l := old(LeaseValues()[id]);
        && LeaseValues() == old(LeaseValues())[id := Reclaim(l, lastCompleted)]
        && l.pageId in old(PageValues()) && PageValues() == WithoutClaim(old(PageValues()), l, lastCompleted)
    {
      var lease := leases[id];
      if !lease.reclaimed && Eligible(lease.Value(), lastCompleted) {
        lease.reclaimed := true;
        OnlyLeaseChanged(id);
        var page := pages[lease.pageId];
        label discarding:
        page.liveClaims := page.liveClaims - {(lease.leaseId, lease.pageGeneration)};
        OnlyPageChanged@discarding(lease.pageId);
      }
    }

    method MarkPage(id: int)
      requires Valid() && id in pages
      modifies pages[id]
      ensures unchanged(this) && LeaseValues() == old(LeaseValues())
      ensures PageValues() == old(PageValues())[id := Marked(old(pages[id].Value()))]
    {
      var page := pages[id];
      page.reusable := page.currentLeaseIds != [] && page.liveClaims == {};
      OnlyPageChanged(id);
    }

    lemma PagesByValue(start: map<int, Page>, done: seq<int>, id: int)
      requires id in pages && PageValues() == MarkedIn(start, done) && id !in done && id in start
      ensures pages[id].Value() == start[id]
    {
      assert pages[id].Value() == PageValues()[id];
    }

    method MarkReusable(order: seq<int>)
      requires Valid()
      requires forall i | 0 <= i < |order| :: order[i] in pages && order[i] !in order[..i]
      modifies pages.Values
      ensures Valid() && unchanged(this) && LeaseValues() == old(LeaseValues())
      ensures PageValues() == MarkedIn(old(PageValues()), order)
    {
      hide MarkedIn, Marked, LeaseValues;
      ghost var start := PageValues();
      assert forall id | id in pages :: id in start;
      assert MarkedIn(start, []) == start by { NothingVisited(Abs(), lastCompleted); }
      for i := 0 to |order|
        invariant Valid() && unchanged(this)
        invariant LeaseValues() == old(LeaseValues()) && PageValues() == MarkedIn(start, order[..i])
      {
        assert order[..i + 1] == order[..i] + [order[i]];
        VisitPage(start, order[..i], order[i]);
        PagesByValue(start, order[..i], order[i]);
        MarkPage(order[i]);
      }
      assert order[..|order|] == order;
    }

    /** Audits every reusable page and stops at the first that has a blocker. */
    method AssertNoUnsafeReuse() returns (reply: Reply)
      modifies this`unsafeReuseCount
      ensures Outcome(Abs(), reply) == Audited(old(Abs()))
    {
      hide UnsafeReuse, PageBlockers;
      var s := Abs();
      var unsafe := FirstUnsafePage(s);
      if unsafe {
        unsafeReuseCount := unsafeReuseCount + 1;
        return Raised(AssertionError);
      }
      return Done;
    }

    static method FirstUnsafePage(s: State) returns (unsafe: bool)
      ensures unsafe == UnsafeReuse(s)
    {
      var order := Listed(s.pages.Keys);
      for i := 0 to |order|
        invariant forall j | 0 <= j < i :: s.pages[order[j]].reusable ==> PageBlockers(s, s.pages[order[j]]) == {}
      {
        var id := order[i];
        assert id in order;
        if s.pages[id].reusable && PageBlockers(s, s.pages[id]) != {} {
          return true;
        }
      }
      return false;
    }

    method ReopenPage(pageId: int) returns (reply: Reply)
      requires Valid()
      modifies this, pages.Values
      ensures Valid() && leases == old(leases) && pages == old(pages)
      ensures Outcome(Abs(), reply) == LeaseProtocol.ReopenPage(old(Abs()), pageId)
    {
      hide PageBlockers;
      if pageId !in pages {
        return Raised(KeyError);
      }
      var page := pages[pageId];
      var blockers := PageBlockers(Abs(), page.Value());
      if !page.reusable || page.liveClaims != {} || page.currentLeaseIds == [] || blockers != {} {
        Reject(PageReopenUnsafe);
        return Declined(PageReopenUnsafe);
      }
      page.generation := page.generation + 1;
      page.reuseCount := page.reuseCount + 1;
      page.currentLeaseIds := [];
      page.liveClaims := {};
      page.reusable := false;
      OnlyPageChanged(pageId);
      return Done;
    }
  }
}
