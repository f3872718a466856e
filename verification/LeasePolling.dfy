/** The dictionary walks of reset and poll, over values: what has been done once the first keys are visited. */
module LeasePolling {
  import opened LeaseProtocol

  /** The keys of a dictionary, each once, in some order; nothing here depends on which. */
  method Listed<T>(keys: set<T>) returns (order: seq<T>)
    ensures forall k :: k in order <==> k in keys
    ensures forall i, j :: 0 <= i < j < |order| ==> order[i] != order[j]
  {
    order := [];
    var rest := keys;
    while rest != {}
      invariant forall k :: k in keys <==> k in order || k in rest
      invariant forall k | k in order :: k !in rest
      invariant forall i, j :: 0 <= i < j < |order| ==> order[i] != order[j]
      decreases |rest|
    {
      var k :| k in rest;
      order, rest := order + [k], rest - {k};
    }
  }

  function CancelledIn(start: map<int, Lease>, done: seq<int>): map<int, Lease> {
    map id | id in start :: if id in done then CancelUnstarted(start[id]) else start[id]
  }

  function ReclaimedIn(start: map<int, Lease>, completed: map<string, int>, done: seq<int>): map<int, Lease> {
    map id | id in start :: if id in done then Reclaim(start[id], completed) else start[id]
  }

  /** The claims given up by the visited leases. */
  function Dropped(leases: map<int, Lease>, pageId: int, completed: map<string, int>, done: seq<int>): set<(int, int)> {
    set id | && id in done && id in leases && leases[id].pageId == pageId && !leases[id].reclaimed
             && Eligible(leases[id], completed)
      :: (leases[id].leaseId, leases[id].pageGeneration)
  }

  function DroppedIn(s: State, completed: map<string, int>, done: seq<int>): map<int, Page> {
    map id | id in s.pages :: s.pages[id].(liveClaims :=
      s.pages[id].liveClaims - Dropped(s.leases, id, completed, done))
  }

  function Marked(p: Page): Page {
    p.(reusable := p.currentLeaseIds != [] && p.liveClaims == {})
  }

  function MarkedIn(start: map<int, Page>, done: seq<int>): map<int, Page> {
    map id | id in start :: if id in done then Marked(start[id]) else start[id]
  }

  lemma NothingVisited(s: State, completed: map<string, int>)
    ensures CancelledIn(s.leases, []) == s.leases == ReclaimedIn(s.leases, completed, [])
    ensures DroppedIn(s, completed, []) == s.pages == MarkedIn(s.pages, [])
  {
    forall p | p in s.pages ensures DroppedIn(s, completed, [])[p] == s.pages[p] {
      assert Dropped(s.leases, p, completed, []) == {};
    }
  }

  lemma VisitLease(start: map<int, Lease>, completed: map<string, int>, done: seq<int>, id: int)
    requires id in start && id !in done
    ensures id in CancelledIn(start, done) && CancelledIn(start, done)[id] == start[id]
    ensures id in ReclaimedIn(start, completed, done) && ReclaimedIn(start, completed, done)[id] == start[id]
    ensures CancelledIn(start, done + [id]) == CancelledIn(start, done)[id := CancelUnstarted(start[id])]
    ensures ReclaimedIn(start, completed, done + [id])
         == ReclaimedIn(start, completed, done)[id := Reclaim(start[id], completed)]
  {
  }

  lemma VisitPage(start: map<int, Page>, done: seq<int>, id: int)
    requires id in start && id !in done
    ensures id in MarkedIn(start, done) && MarkedIn(start, done)[id] == start[id]
    ensures MarkedIn(start, done + [id]) == MarkedIn(start, done)[id := Marked(start[id])]
  {
  }

  lemma DroppedStep(s: State, completed: map<string, int>, done: seq<int>, id: int, pageId: int)
    requires id in s.leases
    ensures var l := s.leases[id];
      Dropped(s.leases, pageId, completed, done + [id]) == Dropped(s.leases, pageId, completed, done)
        + if pageId == l.pageId && !l.reclaimed && Eligible(l, completed) then {(l.leaseId, l.pageGeneration)} else {}
  {
    assert forall k :: k in done + [id] <==> k in done || k == id;
  }

  /** The pages after one lease has been looked at: its claim goes if it may be released. */
  function WithoutClaim(pages: map<int, Page>, l: Lease, completed: map<string, int>): map<int, Page>
    requires l.pageId in pages
  {
    if !l.reclaimed && Eligible(l, completed)
    then pages[l.pageId := pages[l.pageId].(liveClaims := pages[l.pageId].liveClaims - {(l.leaseId, l.pageGeneration)})]
    else pages
  }

  lemma DropClaim(s: State, completed: map<string, int>, done: seq<int>, id: int)
    requires id in s.leases && s.leases[id].pageId in s.pages
    ensures s.leases[id].pageId in DroppedIn(s, completed, done)
    ensures DroppedIn(s, completed, done + [id]) == WithoutClaim(DroppedIn(s, completed, done), s.leases[id], completed)
  {
    hide Dropped, Eligible;
    var l, before := s.leases[id], DroppedIn(s, completed, done);
    forall p | p in s.pages
      ensures DroppedIn(s, completed, done + [id])[p] == WithoutClaim(before, l, completed)[p]
    {
      DroppedStep(s, completed, done, id, p);
    }
  }

  /** Walking all the leases and then all the pages is what the protocol describes in one piece. */
  lemma AllPagesVisited(s: State, completed: map<string, int>, leaseOrder: seq<int>, pageOrder: seq<int>)
    requires forall id | id in s.leases :: id in leaseOrder
    requires forall id | id in s.pages :: id in pageOrder && s.pages[id].pageId == id
    ensures MarkedIn(DroppedIn(s, completed, leaseOrder), pageOrder) == ReleasePages(s.pages, s.leases, completed)
  {
    forall p | p in s.pages
      ensures MarkedIn(DroppedIn(s, completed, leaseOrder), pageOrder)[p]
              == ReleasePages(s.pages, s.leases, completed)[p]
    {
      assert Dropped(s.leases, p, completed, leaseOrder) == Discharged(s.leases, p, completed);
    }
  }

  lemma AllLeasesVisited(leases: map<int, Lease>, completed: map<string, int>, order: seq<int>)
    requires forall id | id in leases :: id in order
    ensures CancelledIn(leases, order) == CancelAll(leases)
    ensures ReclaimedIn(leases, completed, order) == ReclaimAll(leases, completed)
  {
    forall k | k in leases
      ensures ReclaimedIn(leases, completed, order)[k] == ReclaimAll(leases, completed)[k]
      ensures CancelledIn(leases, order)[k] == CancelAll(leases)[k]
    {
    }
  }
}
