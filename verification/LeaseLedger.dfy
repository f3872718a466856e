/** What the arguments of a call mean for the rest of the run: the receipt that was committed is the one waited for, a bit
    is used once, a lease goes when it was queued, and every counter counts the calls it is named after. */
module LeaseLedger {
  import opened Wrappers
  import opened LeaseProtocol
  import opened LeaseInvariant
  import opened LeaseSafety

  // A ledger only grows

  /** Whatever m is now, l was once: same lease, settled bits and receipts still settled, nothing opened again. */
  predicate Continues(l: Lease, m: Lease) {
    && SameLease(l, m) && m.openBits <= l.openBits
    && l.noGpuBits <= m.noGpuBits && l.resetCancelledBits <= m.resetCancelledBits
    && (forall bit | bit in l.gpuReceipts :: bit in m.gpuReceipts && m.gpuReceipts[bit] == l.gpuReceipts[bit])
    && (l.retirementQueued ==> m.retirementQueued)
  }

  predicate AllContinue(s: State, t: State) {
    forall id | id in s.leases :: id in t.leases && Continues(s.leases[id], t.leases[id])
  }

  lemma NewLeaseContinues(s: State, r: LeaseRequest)
    ensures AllContinue(s, AddLease(s, r).state)
  {
  }

  lemma BeginContinues(s: State, a: Access, capability: SubmissionTicket)
    ensures AllContinue(s, Begin(s, a, capability).state)
  {
  }

  lemma SettleContinues(s: State, a: Access)
    ensures AllContinue(s, SettleWithoutGpu(s, a).state)
  {
  }

  lemma QueueContinues(s: State, id: int)
    ensures AllContinue(s, QueueRetirement(s, id).state)
  {
    hide Continues;
    forall k | k in s.leases
      ensures Continues(s.leases[k], s.leases[k]) && Continues(s.leases[k], s.leases[k].(retirementQueued := true))
    {
      QueuedContinues(s.leases[k]);
    }
  }

  lemma QueuedContinues(l: Lease)
    ensures Continues(l, l) && Continues(l, l.(retirementQueued := true))
  {
  }

  lemma ResetContinues(s: State, m: Option<int>, d: Option<int>)
    ensures AllContinue(s, Reset(s, m, d).state)
  {
    hide Continues, CancelUnstarted;
    forall k | k in s.leases
      ensures Continues(s.leases[k], s.leases[k]) && Continues(s.leases[k], CancelUnstarted(s.leases[k]))
    {
      CancelledContinues(s.leases[k]);
    }
  }

  lemma CancelledContinues(l: Lease)
    ensures Continues(l, l) && Continues(l, CancelUnstarted(l))
  {
  }

  lemma PollContinues(s: State, completed: seq<(string, int)>)
    ensures AllContinue(s, Poll(s, completed).state)
  {
    hide Absorb, Reclaim, ReleasePages, UnsafeReuse, Continues;
    var last := Absorb(s.lastCompleted, completed).0;
    forall k | k in s.leases
      ensures Continues(s.leases[k], s.leases[k]) && Continues(s.leases[k], Reclaim(s.leases[k], last))
    {
      ReclaimedContinues(s.leases[k], last);
    }
  }

  lemma ReclaimedContinues(l: Lease, completed: map<string, int>)
    ensures Continues(l, l) && Continues(l, Reclaim(l, completed))
  {
    hide Eligible;
  }

  lemma PagesContinue(s: State, id: int)
    ensures AllContinue(s, AddPage(s, id).state) && AllContinue(s, ReopenPage(s, id).state)
  {
    hide PageBlockers;
  }

  /** A pending bit has no receipt yet. */
  lemma PendingHasNoReceipt(l: Lease, bit: Mask)
    requires LeaseOk(l) && bit in l.pendingTicketIds
    ensures bit !in l.gpuReceipts
  {
    hide Flatten;
    FlattenMember(l.pendingTicketIds.Keys, bit);
    var b :| b in bit;
    assert b !in l.GpuBits();
    if bit in l.gpuReceipts {
      FlattenMember(l.gpuReceipts.Keys, bit);
    }
  }

  lemma CommitContinues(s: State, ticket: SubmissionTicket, receipt: Receipt)
    requires LeasesOk(s)
    ensures AllContinue(s, Commit(s, ticket, receipt).state)
  {
    hide LeaseOk, Placed;
    if Commit(s, ticket, receipt).reply == Done {
      PendingHasNoReceipt(s.leases[ticket.access.leaseId], ticket.access.consumerBit);
    }
  }

  lemma StepContinues(s: State, op: Op)
    requires LeasesOk(s)
    ensures AllContinue(s, Step(s, op).state)
  {
    hide LeasesOk, AllContinue, AddPage, AddLease, Begin, Commit, SettleWithoutGpu, QueueRetirement, Reset, Poll, ReopenPage;
    match op
    case OpAddPage(id) => PagesContinue(s, id);
    case OpAddLease(r) => NewLeaseContinues(s, r);
    case OpBegin(a, c) => BeginContinues(s, a, c);
    case OpCommit(t, r) => CommitContinues(s, t, r);
    case OpSettle(a) => SettleContinues(s, a);
    case OpQueue(id) => QueueContinues(s, id);
    case OpReset(m, d) => ResetContinues(s, m, d);
    case OpPoll(c) => PollContinues(s, c);
    case OpReopen(id) => PagesContinue(s, id);
  }

  lemma ContinuesOn(l: Lease, m: Lease, n: Lease)
    requires Continues(l, m) && Continues(m, n)
    ensures Continues(l, n)
  {
  }

  lemma {:induction false} RunContinues(s: State, ops: seq<Op>, id: int)
    requires Inv(s) && Possible(s, ops) && id in s.leases
    ensures id in Run(s, ops).leases && Continues(s.leases[id], Run(s, ops).leases[id])
    decreases |ops|
  {
    hide Continues, LeasesOk, PagesOk, TicketsOk, Step;
    if ops == [] {
      ContinuesItself(s.leases[id]);
    } else {
      var next := Step(s, ops[0]).state;
      StepInv(s, ops[0]);
      StepContinues(s, ops[0]);
      RunContinues(next, ops[1..], id);
      ContinuesOn(s.leases[id], next.leases[id], Run(s, ops).leases[id]);
    }
  }

  lemma ContinuesItself(l: Lease)
    ensures Continues(l, l)
  {
  }

  // The page waits for the very receipt that was committed

  /** The page has moved past this generation, or may. */
  predicate LetGo(t: State, pageId: int, generation: int) {
    && pageId in t.pages
    && (t.pages[pageId].generation > generation || (t.pages[pageId].generation == generation && t.pages[pageId].reusable))
  }

  predicate Reached(t: State, r: Receipt) {
    r.fence in t.lastCompleted && t.lastCompleted[r.fence] >= r.value
  }

  lemma LetGoIsEligible(t: State, id: int)
    requires Inv(t) && id in t.leases && LetGo(t, t.leases[id].pageId, t.leases[id].pageGeneration)
    ensures Eligible(t.leases[id], t.lastCompleted)
  {
    hide Eligible, LeaseOk;
    var l := t.leases[id];
    assert Placed(t, l);
    var p := t.pages[l.pageId];
    assert p.generation == l.pageGeneration ==> id in ScannedIds(t, p);
    assert !l.reclaimed && p.generation == l.pageGeneration ==> (id, p.generation) in Unreclaimed(t, p);
  }

  /** A commit that succeeds files this receipt under the ticket's bit and touches no other lease, bit or receipt. */
  lemma CommitFiles(s: State, ticket: SubmissionTicket, receipt: Receipt)
    requires Inv(s) && Commit(s, ticket, receipt).reply == Done
    ensures var t, a := Commit(s, ticket, receipt).state, ticket.access;
      && t.pages == s.pages && t.leases.Keys == s.leases.Keys && a.leaseId in s.leases
      && (forall id | id in s.leases && id != a.leaseId :: t.leases[id] == s.leases[id])
      && var l, m := s.leases[a.leaseId], t.leases[a.leaseId];
        && a.consumerBit !in l.gpuReceipts && a.consumerBit in l.pendingTicketIds && l.pageId == a.pageId
        && l.pageGeneration == a.pageGeneration
        && m == l.(gpuReceipts := m.gpuReceipts, pendingTicketIds := m.pendingTicketIds)
        && m.gpuReceipts.Keys == l.gpuReceipts.Keys + {a.consumerBit} && m.gpuReceipts[a.consumerBit] == receipt
        && (forall bit | bit in l.gpuReceipts :: m.gpuReceipts[bit] == l.gpuReceipts[bit])
        && m.pendingTicketIds.Keys == l.pendingTicketIds.Keys - {a.consumerBit}
        && (forall bit | bit in m.pendingTicketIds :: m.pendingTicketIds[bit] == l.pendingTicketIds[bit])
  {
    hide LeaseOk, Placed, PagesOk, LeaseIndexed, Count;
    assert TicketIndexed(s, ticket.ticketId);
    PendingHasNoReceipt(s.leases[ticket.access.leaseId], ticket.access.consumerBit);
  }

  lemma ReceiptReached(l: Lease, bit: Mask, t: State)
    requires FencesComplete(l, t.lastCompleted) && bit in l.gpuReceipts
    ensures Reached(t, l.gpuReceipts[bit])
  {
    assert ReceiptComplete(l.gpuReceipts[bit], t.lastCompleted);
  }

  /** After a commit with this receipt, over any continuation, resets included: the page is let go only once the fence the
      caller named has reached the value the caller named. */
  lemma CommittedFenceGates(s: State, ticket: SubmissionTicket, receipt: Receipt, ops: seq<Op>)
    requires Inv(s) && Commit(s, ticket, receipt).reply == Done && Possible(Commit(s, ticket, receipt).state, ops)
    ensures var t := Run(Commit(s, ticket, receipt).state, ops);
      LetGo(t, ticket.access.pageId, ticket.access.pageGeneration) ==> Reached(t, receipt)
  {
    hide Commit, Inv, Run, Possible, Reached, FencesComplete, LetGo;
    var c := Commit(s, ticket, receipt).state;
    CommitFiles(s, ticket, receipt);
    CommitInv(s, ticket, receipt);
    var id := ticket.access.leaseId;
    RunInv(c, ops);
    RunContinues(c, ops, id);
    var t := Run(c, ops);
    if LetGo(t, ticket.access.pageId, ticket.access.pageGeneration) {
      LetGoIsEligible(t, id);
      ReceiptReached(t.leases[id], ticket.access.consumerBit, t);
    }
  }

  lemma RegisteredLease(s: State, r: LeaseRequest)
    requires AddLease(s, r).reply == Done
    ensures r.pageId in s.pages && r.leaseId !in s.leases
    ensures var t := AddLease(s, r).state;
      && t.leases == s.leases[r.leaseId := NewLease(s, r, s.pages[r.pageId].generation)]
      && t.runtimeGeneration == s.runtimeGeneration && t.mapEpoch == s.mapEpoch && t.deviceEpoch == s.deviceEpoch
  {
  }

  /** The same for the producer's receipt a lease was registered with. */
  lemma ProducerFenceGates(s: State, r: LeaseRequest, ops: seq<Op>)
    requires Inv(s) && AddLease(s, r).reply == Done && r.producerReceipt.Some?
    requires Possible(AddLease(s, r).state, ops)
    ensures r.pageId in s.pages
    ensures var t := Run(AddLease(s, r).state, ops);
      LetGo(t, r.pageId, s.pages[r.pageId].generation) ==> Reached(t, r.producerReceipt.value)
  {
    hide AddLease, Inv, Run, Possible, LetGo;
    RegisteredLease(s, r);
    AddLeaseInv(s, r);
    var c := AddLease(s, r).state;
    RunInv(c, ops);
    RunContinues(c, ops, r.leaseId);
    var t := Run(c, ops);
    if LetGo(t, r.pageId, s.pages[r.pageId].generation) {
      LetGoIsEligible(t, r.leaseId);
      assert ReceiptComplete(t.leases[r.leaseId].producerReceipt.value, t.lastCompleted);
    }
  }

  // Completed values are reported values

  predicate Reports(completed: seq<(string, int)>, fence: string, value: int) {
    exists k | 0 <= k < |completed| :: completed[k].0 == fence && completed[k].1 >= value
  }

  predicate SomePollReports(ops: seq<Op>, fence: string, value: int) {
    exists k | 0 <= k < |ops| :: ops[k].OpPoll? && Reports(ops[k].completed, fence, value)
  }

  lemma {:induction false} AbsorbedWasReported(last: map<string, int>, completed: seq<(string, int)>, fence: string,
                                               value: int)
    requires var next := Absorb(last, completed).0; fence in next && next[fence] >= value
    ensures (fence in last && last[fence] >= value) || Reports(completed, fence, value)
    decreases |completed|
  {
    if completed != [] {
      var (f, v) := completed[0];
      if v >= (if f in last then last[f] else 0) {
        AbsorbedWasReported(last[f := v], completed[1..], fence, value);
        if Reports(completed[1..], fence, value) {
          var k :| 0 <= k < |completed[1..]| && completed[1..][k].0 == fence && completed[1..][k].1 >= value;
          assert completed[k + 1] == completed[1..][k];
        } else if f == fence && v >= value {
          assert completed[0].0 == fence;
        }
      }
    }
  }

  lemma OnlyPollCompletes(s: State, op: Op)
    ensures if op.OpPoll? then Step(s, op).state.lastCompleted == Absorb(s.lastCompleted, op.completed).0
            else Step(s, op).state.lastCompleted == s.lastCompleted
  {
    hide RequestMalformed, Validate, CancelAll, Absorb, ReclaimAll, ReleasePages, UnsafeReuse, PageBlockers, Bump;
  }

  lemma {:induction false} CompletedWasReported(s: State, ops: seq<Op>, fence: string, value: int)
    requires fence in Run(s, ops).lastCompleted && Run(s, ops).lastCompleted[fence] >= value
    ensures (fence in s.lastCompleted && s.lastCompleted[fence] >= value) || SomePollReports(ops, fence, value)
    decreases |ops|
  {
    hide Step;
    if ops != [] {
      var next := Step(s, ops[0]).state;
      CompletedWasReported(next, ops[1..], fence, value);
      OnlyPollCompletes(s, ops[0]);
      if SomePollReports(ops[1..], fence, value) {
        var k :| 0 <= k < |ops[1..]| && ops[1..][k].OpPoll? && Reports(ops[1..][k].completed, fence, value);
        assert ops[k + 1] == ops[1..][k];
      } else if ops[0].OpPoll? {
        AbsorbedWasReported(s.lastCompleted, ops[0].completed, fence, value);
        assert Reports(ops[0].completed, fence, value) ==> SomePollReports(ops, fence, value);
      }
    }
  }

  /** From the calls alone: a page on which some consumer's work was committed with fence f at value v is let go only
      after some poll has reported f at v or beyond. */
  lemma ReleaseWaitsForReport(mapEpoch: int, deviceEpoch: int, before: seq<Op>, ticket: SubmissionTicket,
                              receipt: Receipt, after: seq<Op>)
    requires Possible(Initial(mapEpoch, deviceEpoch), before)
    requires var s := Run(Initial(mapEpoch, deviceEpoch), before);
      Commit(s, ticket, receipt).reply == Done && Possible(Commit(s, ticket, receipt).state, after)
    ensures var t := Run(Commit(Run(Initial(mapEpoch, deviceEpoch), before), ticket, receipt).state, after);
      LetGo(t, ticket.access.pageId, ticket.access.pageGeneration) ==>
        SomePollReports(before, receipt.fence, receipt.value) || SomePollReports(after, receipt.fence, receipt.value)
  {
    hide Inv, Run, Possible, LetGo, SomePollReports;
    var first := Initial(mapEpoch, deviceEpoch);
    InitialInv(mapEpoch, deviceEpoch);
    RunInv(first, before);
    var s := Run(first, before);
    var c := Commit(s, ticket, receipt).state;
    CommittedFenceGates(s, ticket, receipt, after);
    if LetGo(Run(c, after), ticket.access.pageId, ticket.access.pageGeneration) {
      CompletedWasReported(c, after, receipt.fence, receipt.value);
      OnlyPollCompletes(s, OpCommit(ticket, receipt));
      if receipt.fence in s.lastCompleted && s.lastCompleted[receipt.fence] >= receipt.value {
        CompletedWasReported(first, before, receipt.fence, receipt.value);
      }
    }
  }

  // What a poll absorbs

  /** The last value reported for a fence. */
  function LastReport(completed: seq<(string, int)>, fence: string): Option<int> {
    if completed == [] then None
    else
      var n := |completed| - 1;
      if completed[n].0 == fence then Some(completed[n].1) else LastReport(completed[..n], fence)
  }

  /** What the fence stands at after these reports; a fence never heard of stands at 0. */
  function Standing(last: map<string, int>, completed: seq<(string, int)>, fence: string): int {
    var reported := LastReport(completed, fence);
    if reported.Some? then reported.value else if fence in last then last[fence] else 0
  }

  predicate NeverBackwards(last: map<string, int>, completed: seq<(string, int)>) {
    forall i | 0 <= i < |completed| :: completed[i].1 >= Standing(last, completed[..i], completed[i].0)
  }

  lemma {:induction false} AbsorbOneMore(last: map<string, int>, completed: seq<(string, int)>, report: (string, int))
    ensures var (next, ok) := Absorb(last, completed);
      Absorb(last, completed + [report]) ==
        if ok && report.1 >= (if report.0 in next then next[report.0] else 0) then (next[report.0 := report.1], true)
        else (next, false)
    decreases |completed|
  {
    if completed == [] {
      assert (completed + [report])[1..] == [];
    } else {
      assert (completed + [report])[1..] == completed[1..] + [report];
      var (f, v) := completed[0];
      if v >= (if f in last then last[f] else 0) {
        AbsorbOneMore(last[f := v], completed[1..], report);
      }
    }
  }

  /** A poll succeeds exactly when no report falls below what its fence stood at, and then every fence stands at its last
      report, or where it stood before. */
  lemma {:induction false} AbsorbMeans(last: map<string, int>, completed: seq<(string, int)>, fence: string)
    ensures Absorb(last, completed).1 <==> NeverBackwards(last, completed)
    ensures Absorb(last, completed).1 ==>
              var next := Absorb(last, completed).0;
              && (fence in next <==> fence in last || LastReport(completed, fence).Some?)
              && (if fence in next then next[fence] else 0) == Standing(last, completed, fence)
    decreases |completed|
  {
    if completed != [] {
      var n := |completed| - 1;
      var earlier, report := completed[..n], completed[n];
      assert completed == earlier + [report];
      AbsorbMeans(last, earlier, fence);
      AbsorbMeans(last, earlier, report.0);
      AbsorbOneMore(last, earlier, report);
      NeverBackwardsNext(last, completed);
    }
  }

  lemma NeverBackwardsNext(last: map<string, int>, completed: seq<(string, int)>)
    requires completed != []
    ensures var n := |completed| - 1;
      NeverBackwards(last, completed)
      <==> NeverBackwards(last, completed[..n]) && completed[n].1 >= Standing(last, completed[..n], completed[n].0)
  {
    hide Standing;
    var n := |completed| - 1;
    forall i | 0 <= i < n ensures completed[..n][i] == completed[i] && completed[..n][..i] == completed[..i] {
    }
  }
}
