/** No reachable state wedges a page: a reset, a commit for every pending ticket and one poll release them all. */
module LeaseProgress {
  import opened Wrappers
  import opened LeaseProtocol
  import opened LeaseInvariant
  import opened LeaseSafety

  // Joining runs

  lemma {:induction false} RunsJoin(s: State, ops: seq<Op>, more: seq<Op>)
    requires Possible(s, ops) && Possible(Run(s, ops), more)
    ensures Possible(s, ops + more) && Run(s, ops + more) == Run(Run(s, ops), more)
    decreases |ops|
  {
    if ops == [] {
      assert ops + more == more;
    } else {
      RunsJoin(Step(s, ops[0]).state, ops[1..], more);
      assert (ops + more)[1..] == ops[1..] + more;
    }
  }

  lemma OneStep(s: State, op: Op)
    requires Enabled(s, op)
    ensures Possible(s, [op]) && Run(s, [op]) == Step(s, op).state
  {
    assert [op][1..] == [];
    assert Run(Step(s, op).state, []) == Step(s, op).state;
  }

  // A reset leaves nothing open

  /** Nothing is open any more and every lease waits to be retired. */
  predicate Quiet(s: State) {
    forall id | id in s.leases :: s.leases[id].openBits == {} && s.leases[id].retirementQueued
  }

  lemma ResetIsQuiet(s: State)
    requires Inv(s)
    ensures var r := Reset(s, None, None).state; Inv(r) && Quiet(r) && r.pages == s.pages
  {
    ResetInv(s, None, None);
    forall id | id in s.leases
      ensures CancelUnstarted(s.leases[id]).openBits == {} && CancelUnstarted(s.leases[id]).retirementQueued
    {
      assert Placed(s, s.leases[id]);
    }
  }

  // Committing every ticket

  lemma CommitOne(s: State, id: int, receipt: Receipt)
    requires Inv(s) && Quiet(s) && id in s.pendingSubmissions
    ensures var t := Commit(s, s.pendingSubmissions[id].ticket, receipt).state;
      && Inv(t) && Quiet(t) && t.pages == s.pages && t.pendingSubmissions.Keys == s.pendingSubmissions.Keys - {id}
  {
    assert TicketIndexed(s, id);
    CommitInv(s, s.pendingSubmissions[id].ticket, receipt);
  }

  lemma SomeElement<T>(elements: set<T>) returns (x: T)
    requires elements != {}
    ensures x in elements
  {
    x :| x in elements;
  }

  lemma {:induction false} CommitEvery(s: State, receipt: Receipt) returns (ops: seq<Op>)
    requires Inv(s) && Quiet(s)
    ensures Possible(s, ops)
    ensures var t := Run(s, ops); Inv(t) && Quiet(t) && t.pages == s.pages && t.pendingSubmissions.Keys == {}
    decreases s.pendingSubmissions.Keys
  {
    if s.pendingSubmissions.Keys != {} {
      var id := SomeElement(s.pendingSubmissions.Keys);
      var op := OpCommit(s.pendingSubmissions[id].ticket, receipt);
      CommitOne(s, id, receipt);
      OneStep(s, op);
      var rest := CommitEvery(Step(s, op).state, receipt);
      RunsJoin(s, [op], rest);
      ops := [op] + rest;
    } else {
      ops := [];
    }
  }

  lemma NoTicketPending(s: State, id: int)
    requires Inv(s) && s.pendingSubmissions.Keys == {} && id in s.leases
    ensures s.leases[id].pendingTicketIds == map[]
  {
    assert LeaseIndexed(s, s.leases[id]);
    assert s.leases[id].pendingTicketIds.Keys == {};
  }

  // Completing every fence

  lemma {:induction false} UpperBound(values: set<int>) returns (v: int)
    ensures v >= 0 && forall x | x in values :: x <= v
    decreases values
  {
    if x :| x in values {
      var most := UpperBound(values - {x});
      v := if x > most then x else most;
      forall y | y in values ensures y <= v {
        assert y != x ==> y in values - {x};
      }
    } else {
      v := 0;
    }
  }

  predicate Below(last: map<string, int>, v: int) {
    forall f | f in last :: last[f] <= v
  }

  /** Fence values that raise each of these fences to v are absorbed. */
  lemma {:induction false} CompleteFences(last: map<string, int>, fences: set<string>, v: int)
    returns (completed: seq<(string, int)>)
    requires v >= 0 && Below(last, v)
    ensures Absorb(last, completed).1
    ensures forall f | f in fences :: f in Absorb(last, completed).0 && Absorb(last, completed).0[f] >= v
    decreases fences
  {
    if f :| f in fences {
      var rest := CompleteFences(last[f := v], fences - {f}, v);
      completed := [(f, v)] + rest;
      assert completed[1..] == rest;
      AbsorbAdvances(last[f := v], rest);
      assert f in last[f := v];
    } else {
      completed := [];
    }
  }

  function Receipts(l: Lease): set<Receipt> {
    (set bit | bit in l.gpuReceipts :: l.gpuReceipts[bit])
    + if l.producerReceipt.Some? then {l.producerReceipt.value} else {}
  }

  function AllReceipts(s: State): set<Receipt> {
    set id, r | id in s.leases && r in Receipts(s.leases[id]) :: r
  }

  lemma ReceiptsComplete(l: Lease, completed: map<string, int>, v: int)
    requires forall r | r in Receipts(l) :: r.value <= v && r.fence in completed && completed[r.fence] >= v
    ensures FencesComplete(l, completed)
  {
    forall bit | bit in l.gpuReceipts ensures ReceiptComplete(l.gpuReceipts[bit], completed) {
      assert l.gpuReceipts[bit] in Receipts(l);
    }
  }

  lemma CompleteEverything(s: State) returns (completed: seq<(string, int)>)
    ensures Absorb(s.lastCompleted, completed).1
    ensures forall id | id in s.leases :: FencesComplete(s.leases[id], Absorb(s.lastCompleted, completed).0)
  {
    var receipts, last := AllReceipts(s), s.lastCompleted;
    var values, fences := (set r | r in receipts :: r.value), (set r | r in receipts :: r.fence);
    var v := UpperBound(values + last.Values);
    assert forall f | f in last :: last[f] in last.Values;
    completed := CompleteFences(last, fences, v);
    forall id | id in s.leases ensures FencesComplete(s.leases[id], Absorb(last, completed).0) {
      forall r | r in Receipts(s.leases[id]) ensures r.value in values && r.fence in fences {
        assert r in receipts;
      }
      ReceiptsComplete(s.leases[id], Absorb(last, completed).0, v);
    }
  }

  // No page is wedged

  /** Every page that has leases may be reused, at the generation it had. */
  predicate Freed(s: State, t: State) {
    forall p | p in s.pages && s.pages[p].currentLeaseIds != [] ::
      p in t.pages && t.pages[p].reusable && t.pages[p].generation == s.pages[p].generation
  }

  lemma PollFrees(s: State) returns (completed: seq<(string, int)>)
    requires Inv(s) && Quiet(s) && s.pendingSubmissions.Keys == {}
    ensures Freed(s, Poll(s, completed).state)
  {
    completed := CompleteEverything(s);
    forall id | id in s.leases ensures s.leases[id].pendingTicketIds == map[] {
      NoTicketPending(s, id);
    }
    PollInv(s, completed);
    forall p | p in s.pages && s.pages[p].currentLeaseIds != []
      ensures p in Poll(s, completed).state.pages && Poll(s, completed).state.pages[p].reusable
    {
      PollReleasesQuietPage(s, completed, p);
    }
  }

  lemma FreedFrom(s: State) returns (ops: seq<Op>)
    requires Inv(s)
    ensures Possible(s, ops) && Freed(s, Run(s, ops))
  {
    var reset := OpReset(None, None);
    ResetIsQuiet(s);
    OneStep(s, reset);
    var quiet := Step(s, reset).state;
    var commits := CommitEvery(quiet, FenceReceipt("f", 1));
    RunsJoin(s, [reset], commits);
    var drained := Run(quiet, commits);
    var completed := PollFrees(drained);
    OneStep(drained, OpPoll(completed));
    RunsJoin(s, [reset] + commits, [OpPoll(completed)]);
    ops := [reset] + commits + [OpPoll(completed)];
  }

  /** After any run there is a continuation that makes every page with leases reusable: no state is a dead end. */
  lemma NoPageIsWedged(mapEpoch: int, deviceEpoch: int, ops: seq<Op>)
    requires Possible(Initial(mapEpoch, deviceEpoch), ops)
    ensures exists more ::
      && Possible(Initial(mapEpoch, deviceEpoch), ops + more)
      && Freed(Run(Initial(mapEpoch, deviceEpoch), ops), Run(Initial(mapEpoch, deviceEpoch), ops + more))
  {
    InitialInv(mapEpoch, deviceEpoch);
    RunInv(Initial(mapEpoch, deviceEpoch), ops);
    var more := FreedFrom(Run(Initial(mapEpoch, deviceEpoch), ops));
    RunsJoin(Initial(mapEpoch, deviceEpoch), ops, more);
  }
}
