/** What the snapshot pool guarantees over whole runs. */
module SnapshotSafety {
  import opened Wrappers
  import opened SnapshotPool
  import opened SnapshotInvariant

  lemma {:induction false} RunInv(s: Pool, ops: seq<Op>)
    requires Inv(s)
    ensures Inv(Run(s, ops)) && (QuotasHold(s) ==> QuotasHold(Run(s, ops)))
    ensures Run(s, ops).cap == s.cap && Run(s, ops).quotas == s.quotas && Run(s, ops).pageSize == s.pageSize
    decreases |ops|
  {
    if ops != [] {
      StepKeepsShape(s, ops[0]);
      StepInv(s, ops[0]);
      RunInv(Step(s, ops[0]).pool, ops[1..]);
    }
  }

  /** After any sequence of operations on a new pool: every page, active or retired, is laid out without gap or
      overlap inside its capacity; identities are distinct and never reused; retired pages are unowned and in GPU
      use; active bytes respect the cap and every class quota; and created pages are active or reclaimed. */
  lemma PoolIsSafe(cap: int, pageSize: nat, grouped: bool, quotas: map<string, int>, ops: seq<Op>)
    requires pageSize > 0
    ensures var s := Run(Empty(cap, pageSize, grouped, quotas), ops);
      && Inv(s)
      && (cap >= 0 ==> Bytes(s.pages) <= cap)
      && (forall lifetime: string ::
            ClassBytes(s.pages, lifetime) <= AtLeastZero(if lifetime in quotas then quotas[lifetime] else cap))
      && s.created == |s.pages| + s.reclaimed
  {
    EmptyInv(cap, pageSize, grouped, quotas);
    RunInv(Empty(cap, pageSize, grouped, quotas), ops);
  }

  // An owned slice stays where it is

  /** The same bytes, with at least as many owners. */
  predicate StillThere(now: Slice, before: Slice) {
    now.(owners := before.owners) == before && now.owners >= before.owners
  }

  predicate Carries(p: Page, slice: Slice) {
    exists j | 0 <= j < |p.slices| :: StillThere(p.slices[j], slice)
  }

  predicate HasSlice(s: Pool, slice: Slice) {
    exists i | 0 <= i < |s.pages| :: Carries(s.pages[i], slice)
  }

  lemma CollectKeepsOwned(s: Pool, slice: Slice)
    requires Inv(s) && HasSlice(s, slice) && slice.owners > 0
    ensures HasSlice(Collect(s), slice)
  {
    var i :| 0 <= i < |s.pages| && Carries(s.pages[i], slice);
    KeptOk(s.pages);
    assert s.pages[i] in Kept(s.pages);
    var k :| 0 <= k < |Kept(s.pages)| && Kept(s.pages)[k] == s.pages[i];
    assert Carries(Collect(s).pages[k], slice);
  }

  lemma PlaceKeepsOwned(s: Pool, index: nat, requested: int, capacity: nat, slice: Slice)
    requires index < |s.pages| && HasSlice(s, slice)
    ensures HasSlice(Place(s, index, requested, capacity).pool, slice)
  {
    var t := Place(s, index, requested, capacity).pool;
    var i :| 0 <= i < |s.pages| && Carries(s.pages[i], slice);
    var j :| 0 <= j < |s.pages[i].slices| && StillThere(s.pages[i].slices[j], slice);
    assert t.pages[i].slices[j] == s.pages[i].slices[j];
    assert Carries(t.pages[i], slice);
  }

  lemma AllocateKeepsOwned(s: Pool, requested: int, lifetime: string, slice: Slice)
    requires Inv(s) && HasSlice(s, slice) && slice.owners > 0
    ensures HasSlice(Allocate(s, requested, lifetime).pool, slice)
  {
    if Align(requested).Some? {
      var capacity := Align(requested).value;
      var first := Fit(s, s.pages, lifetime, capacity);
      if first.Some? {
        PlaceKeepsOwned(s, first.value, requested, capacity, slice);
      } else {
        CollectKeepsOwned(s, slice);
        var c := Collect(s);
        var second := Fit(c, c.pages, lifetime, capacity);
        if second.Some? {
          PlaceKeepsOwned(c, second.value, requested, capacity, slice);
        } else {
          OpenPageKeepsOwned(c, requested, lifetime, capacity, slice);
        }
      }
    }
  }

  lemma OpenPageKeepsOwned(s: Pool, requested: int, lifetime: string, capacity: nat, slice: Slice)
    requires s.pageSize > 0 && HasSlice(s, slice)
    ensures HasSlice(OpenPage(s, requested, lifetime, capacity).pool, slice)
  {
    var bytes := PageBytes(s, capacity);
    var i :| 0 <= i < |s.pages| && Carries(s.pages[i], slice);
    if NoRoom(s, lifetime, bytes) {
      assert Carries(OpenPage(s, requested, lifetime, capacity).pool.pages[i], slice);
    } else {
      var a := AddPage(s, lifetime, bytes);
      assert Carries(a.pages[i], slice);
      PlaceKeepsOwned(a, |s.pages|, requested, capacity, slice);
    }
  }

  lemma ReownKeepsOwned(s: Pool, h: Handle, change: int, slice: Slice)
    requires HasSlice(s, slice) && (change >= 0 || !Names(h, slice))
    ensures HasSlice(s.(pages := ReownPages(s.pages, h, change)), slice)
  {
    var i :| 0 <= i < |s.pages| && Carries(s.pages[i], slice);
    var j :| 0 <= j < |s.pages[i].slices| && StillThere(s.pages[i].slices[j], slice);
    var t := s.(pages := ReownPages(s.pages, h, change));
    assert StillThere(t.pages[i].slices[j], slice);
    assert Carries(t.pages[i], slice);
  }

  lemma OtherKeepsOwned(s: Pool, op: Op, slice: Slice)
    requires s.pageSize > 0 && HasSlice(s, slice) && (op.OpSubmit? || op.OpComplete?)
    ensures HasSlice(Step(s, op).pool, slice)
  {
    var i :| 0 <= i < |s.pages| && Carries(s.pages[i], slice);
    assert Step(s, op).pool.pages[i].slices == s.pages[i].slices;
    assert Carries(Step(s, op).pool.pages[i], slice);
  }

  lemma StepKeepsOwned(s: Pool, op: Op, slice: Slice)
    requires Inv(s) && HasSlice(s, slice) && slice.owners > 0
    requires op.OpRelease? ==> !Names(op.handle, slice)
    ensures HasSlice(Step(s, op).pool, slice)
  {
    match op
    case OpAllocate(n, l) => AllocateKeepsOwned(s, n, l, slice);
    case OpAlias(h) => ReownKeepsOwned(s, h, 1, slice);
    case OpRelease(h) => ReownKeepsOwned(s, h, -1, slice);
    case OpCollect => CollectKeepsOwned(s, slice);
    case _ => OtherKeepsOwned(s, op, slice);
  }

  /** A slice with an owner keeps its page, its bytes and its owners through any run that does not release it. */
  lemma {:induction false} OwnedSliceStays(s: Pool, ops: seq<Op>, slice: Slice)
    requires Inv(s) && HasSlice(s, slice) && slice.owners > 0
    requires forall op | op in ops :: op.OpRelease? ==> !Names(op.handle, slice)
    ensures HasSlice(Run(s, ops), slice)
    decreases |ops|
  {
    if ops != [] {
      StepKeepsOwned(s, ops[0], slice);
      StepInv(s, ops[0]);
      OwnedSliceStays(Step(s, ops[0]).pool, ops[1..], slice);
    }
  }

  // A page the GPU still uses stays allocated

  predicate UsedBy(pages: seq<Page>, identity: int, use: int) {
    exists i | 0 <= i < |pages| :: pages[i].identity == identity && use in pages[i].gpuUses
  }

  predicate InGpuUse(s: Pool, identity: int, use: int) {
    UsedBy(s.pages + s.retired, identity, use)
  }

  lemma UsedByEither(a: seq<Page>, b: seq<Page>, identity: int, use: int)
    ensures UsedBy(a + b, identity, use) <==> UsedBy(a, identity, use) || UsedBy(b, identity, use)
  {
    forall i | 0 <= i < |a| ensures (a + b)[i] == a[i] {
    }
    forall i | 0 <= i < |b| ensures (a + b)[|a| + i] == b[i] {
    }
  }

  lemma CollectKeepsUse(s: Pool, identity: int, use: int)
    requires Inv(s) && InGpuUse(s, identity, use)
    ensures InGpuUse(Collect(s), identity, use)
  {
    var t := Collect(s);
    UsedByEither(s.pages, s.retired, identity, use);
    KeptOk(s.pages);
    if UsedBy(s.pages, identity, use) {
      var i :| 0 <= i < |s.pages| && s.pages[i].identity == identity && use in s.pages[i].gpuUses;
      assert s.pages[i] in Kept(s.pages) || s.pages[i] in Retained(s.pages);
      UsedByEither(s.retired, Retained(s.pages), identity, use);
    } else {
      UsedByEither(s.retired, Retained(s.pages), identity, use);
    }
    UsedByEither(t.pages, t.retired, identity, use);
  }

  /** Nothing but the page list matters to GPU use, and there only identities and uses. */
  lemma SameUses(s: Pool, t: Pool, identity: int, use: int)
    requires InGpuUse(s, identity, use) && t.retired == s.retired && |t.pages| >= |s.pages|
    requires forall i | 0 <= i < |s.pages| ::
      t.pages[i].identity == s.pages[i].identity && s.pages[i].gpuUses <= t.pages[i].gpuUses
    ensures InGpuUse(t, identity, use)
  {
    UsedByEither(s.pages, s.retired, identity, use);
    UsedByEither(t.pages, t.retired, identity, use);
  }

  lemma AllocateKeepsUse(s: Pool, requested: int, lifetime: string, identity: int, use: int)
    requires Inv(s) && InGpuUse(s, identity, use)
    ensures InGpuUse(Allocate(s, requested, lifetime).pool, identity, use)
  {
    hide InGpuUse, Align, NoRoom, PageBytes, Kept, Retained;
    var t := Allocate(s, requested, lifetime).pool;
    if Align(requested).Some? && Fit(s, s.pages, lifetime, Align(requested).value).None? {
      CollectKeepsUse(s, identity, use);
      SameUses(Collect(s), t, identity, use);
    } else {
      SameUses(s, t, identity, use);
    }
  }

  lemma CompleteKeepsUse(s: Pool, completion: int, identity: int, use: int)
    requires InGpuUse(s, identity, use) && completion < use
    ensures InGpuUse(Complete(s, completion), identity, use)
  {
    var t := Complete(s, completion);
    UsedByEither(s.pages, s.retired, identity, use);
    UsedByEither(t.pages, t.retired, identity, use);
    if UsedBy(s.pages, identity, use) {
      var i :| 0 <= i < |s.pages| && s.pages[i].identity == identity && use in s.pages[i].gpuUses;
      assert t.pages[i].identity == identity && use in t.pages[i].gpuUses;
    } else {
      var i :| 0 <= i < |s.retired| && s.retired[i].identity == identity && use in s.retired[i].gpuUses;
      var rest := OutstandingPages(s.retired, completion);
      SelectMembers(rest, (p: Page) => p.gpuUses != {});
      assert use in rest[i].gpuUses;
      assert rest[i] in t.retired;
    }
  }

  lemma StepKeepsUse(s: Pool, op: Op, identity: int, use: int)
    requires Inv(s) && InGpuUse(s, identity, use)
    requires op.OpComplete? ==> op.completion < use
    ensures InGpuUse(Step(s, op).pool, identity, use)
  {
    hide InGpuUse, Allocate, Complete, Collect;
    match op
    case OpAllocate(n, l) => AllocateKeepsUse(s, n, l, identity, use);
    case OpComplete(c) => CompleteKeepsUse(s, c, identity, use);
    case OpCollect => CollectKeepsUse(s, identity, use);
    case _ => SameUses(s, Step(s, op).pool, identity, use);
  }

  /** Until the GPU completes a use, the page it was submitted on stays allocated, active or retired. */
  lemma {:induction false} UsedPageStays(s: Pool, ops: seq<Op>, identity: int, use: int)
    requires Inv(s) && InGpuUse(s, identity, use)
    requires forall op | op in ops :: op.OpComplete? ==> op.completion < use
    ensures InGpuUse(Run(s, ops), identity, use)
    decreases |ops|
  {
    if ops != [] {
      StepKeepsUse(s, ops[0], identity, use);
      StepInv(s, ops[0]);
      UsedPageStays(Step(s, ops[0]).pool, ops[1..], identity, use);
    }
  }

  /** Completing the last use returns the backing of a retired page. */
  lemma CompletionReturnsBacking(s: Pool, completion: int)
    requires forall i | 0 <= i < |s.retired| :: forall u | u in s.retired[i].gpuUses :: u <= completion
    ensures Complete(s, completion).retired == []
  {
    var rest := OutstandingPages(s.retired, completion);
    forall i | 0 <= i < |rest| ensures rest[i].gpuUses == {} {
      assert forall u | u in s.retired[i].gpuUses :: u <= completion;
    }
    SelectNothing(rest, (p: Page) => p.gpuUses != {});
  }

  lemma {:induction false} SelectNothing(pages: seq<Page>, keep: Page -> bool)
    requires forall i | 0 <= i < |pages| :: !keep(pages[i])
    ensures Select(pages, keep) == []
  {
    if pages != [] {
      SelectNothing(pages[..|pages| - 1], keep);
    }
  }

  // What an allocation returns

  /** The slice lies behind every slice its page has ever held; no other page has that identity. */
  predicate Beyond(p: Page, slice: Slice) {
    p.identity == slice.page ==>
      forall j | 0 <= j < |p.slices| :: p.slices[j].offset + p.slices[j].capacity <= slice.offset
  }

  lemma SlicesBeforeTail(s: Pool, p: Page)
    requires PageOk(s, p)
    ensures forall j | 0 <= j < |p.slices| :: p.slices[j].offset + p.slices[j].capacity <= p.used
  {
    forall j | 0 <= j < |p.slices| ensures p.slices[j].offset + p.slices[j].capacity <= p.used {
      SliceEnd(p.slices, p.identity, j);
      ExtentOfPrefix(p.slices, j + 1);
    }
  }

  lemma PlacedIsFresh(s: Pool, index: nat, requested: int, capacity: nat)
    requires Inv(s) && index < |s.pages|
    ensures var slice := Place(s, index, requested, capacity).reply.slice;
      && slice.owners == 1 && HasSlice(Place(s, index, requested, capacity).pool, slice)
      && (forall i | 0 <= i < |s.pages| :: Beyond(s.pages[i], slice))
      && (forall i | 0 <= i < |s.retired| :: Beyond(s.retired[i], slice))
  {
    var o := Place(s, index, requested, capacity);
    SlicesBeforeTail(s, s.pages[index]);
    var n := |s.pages[index].slices|;
    assert StillThere(o.pool.pages[index].slices[n], o.reply.slice);
    assert Carries(o.pool.pages[index], o.reply.slice);
  }

  /** A granted slice holds the request, has one owner, and shares no byte with any slice ever placed in a page
      that is still allocated, active or retained for the GPU. */
  lemma GrantedIsFresh(s: Pool, requested: int, lifetime: string)
    requires Inv(s) && Allocate(s, requested, lifetime).reply.Granted?
    ensures var o := Allocate(s, requested, lifetime);
      var slice := o.reply.slice;
      && slice.requested == requested <= slice.capacity && slice.owners == 1
      && HasSlice(o.pool, slice)
      && (forall i | 0 <= i < |s.pages| :: Beyond(s.pages[i], slice))
      && (forall i | 0 <= i < |s.retired| :: Beyond(s.retired[i], slice))
  {
    var capacity := Align(requested).value;
    AlignedSlice(requested);
    if Fit(s, s.pages, lifetime, capacity).Some? {
      PlacedIsFresh(s, Fit(s, s.pages, lifetime, capacity).value, requested, capacity);
    } else {
      var c := Collect(s);
      CollectInv(s);
      RetryFindsNothing(s, lifetime, capacity);
      var a := AddPage(c, lifetime, PageBytes(c, capacity));
      PageBytesHold(c, capacity);
      AddPageInv(c, lifetime, PageBytes(c, capacity));
      PlacedIsFresh(a, |c.pages|, requested, capacity);
      forall i | 0 <= i < |s.pages| ensures s.pages[i].identity < s.nextPage {
        assert PageOk(s, s.pages[i]);
      }
    }
  }

  /** Collecting only removes pages, so the second look for a page never succeeds. */
  lemma RetryFindsNothing(s: Pool, lifetime: string, capacity: nat)
    requires Inv(s) && Fit(s, s.pages, lifetime, capacity).None?
    ensures Fit(Collect(s), Collect(s).pages, lifetime, capacity).None?
  {
    var c := Collect(s);
    KeptOk(s.pages);
    forall i | 0 <= i < |c.pages| ensures !Suits(c, c.pages[i], lifetime, capacity) {
      assert c.pages[i] in s.pages;
    }
  }

  /** A request is refused exactly when no active page of its kind has the room and, once every unowned page is
      gone, the cap or the quota has no room for the page it would need. */
  lemma RejectedExactly(s: Pool, requested: int, lifetime: string)
    requires Inv(s)
    ensures Allocate(s, requested, lifetime).reply.Rejected? <==>
      && Align(requested).Some?
      && var c, capacity := Collect(s), Align(requested).value;
        && (forall i | 0 <= i < |s.pages| ::
              (s.grouped && s.pages[i].lifetime != lifetime) || s.pages[i].used + capacity > s.pages[i].capacity)
        && (|| Bytes(c.pages) + PageBytes(s, capacity) > s.cap
            || ClassBytes(c.pages, lifetime) + PageBytes(s, capacity)
               > if lifetime in s.quotas then s.quotas[lifetime] else s.cap)
  {
    hide Align, Kept, Retained;
    if Align(requested).Some? {
      var capacity := Align(requested).value;
      if Fit(s, s.pages, lifetime, capacity).None? {
        RetryFindsNothing(s, lifetime, capacity);
      }
    }
  }
}
