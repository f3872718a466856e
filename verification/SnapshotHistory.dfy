/** The pool as a record of its calls: which GPU uses are outstanding, how many owners a slice has, and what the counters
    count, each in terms of the calls of the run. */
module SnapshotHistory {
  import opened Arithmetic
  import opened Wrappers
  import opened SnapshotPool
  import opened SnapshotInvariant
  import opened SnapshotSafety

  // GPU uses

  /** A submit that succeeds records its use on the page the slice names, and changes nothing else. */
  lemma SubmitRecords(s: Pool, h: Handle, completion: int)
    requires Inv(s)
    ensures var o := Submit(s, h, completion);
      && (o.reply == Done <==> completion > 0 && exists i | 0 <= i < |s.pages| :: s.pages[i].identity == h.page)
      && (o.reply != Done ==> o.pool == s)
      && (o.reply == Done ==>
            && o.pool == s.(pages := o.pool.pages) && |o.pool.pages| == |s.pages|
            && forall i | 0 <= i < |s.pages| ::
                 o.pool.pages[i] == if s.pages[i].identity == h.page
                                    then s.pages[i].(gpuUses := s.pages[i].gpuUses + {completion}) else s.pages[i])
  {
  }

  lemma SubmitUses(s: Pool, h: Handle, completion: int, identity: int, use: int)
    requires Inv(s) && Submit(s, h, completion).reply == Done
    ensures InGpuUse(Submit(s, h, completion).pool, identity, use)
            <==> InGpuUse(s, identity, use) || (identity == h.page && use == completion)
  {
    var t := Submit(s, h, completion).pool;
    SubmitRecords(s, h, completion);
    hide Submit, Inv;
    UsedByEither(s.pages, s.retired, identity, use);
    UsedByEither(t.pages, t.retired, identity, use);
    if UsedBy(s.pages, identity, use) {
      var i :| 0 <= i < |s.pages| && s.pages[i].identity == identity && use in s.pages[i].gpuUses;
      assert t.pages[i].identity == identity && use in t.pages[i].gpuUses;
    }
    if UsedBy(t.pages, identity, use) {
      var i :| 0 <= i < |t.pages| && t.pages[i].identity == identity && use in t.pages[i].gpuUses;
      assert use in s.pages[i].gpuUses || (identity == h.page && use == completion);
    }
    var k :| 0 <= k < |s.pages| && s.pages[k].identity == h.page;
    assert t.pages[k].identity == h.page && completion in t.pages[k].gpuUses;
  }

  lemma CompleteUses(s: Pool, completion: int, identity: int, use: int)
    requires Inv(s)
    ensures InGpuUse(Complete(s, completion), identity, use) <==> InGpuUse(s, identity, use) && use > completion
  {
    var t := Complete(s, completion);
    if InGpuUse(s, identity, use) && use > completion {
      CompleteKeepsUse(s, completion, identity, use);
    }
    UsedByEither(s.pages, s.retired, identity, use);
    UsedByEither(t.pages, t.retired, identity, use);
    SelectMembers(OutstandingPages(s.retired, completion), (p: Page) => p.gpuUses != {});
    hide Inv, Select;
    if UsedBy(t.pages, identity, use) {
      var i :| 0 <= i < |t.pages| && t.pages[i].identity == identity && use in t.pages[i].gpuUses;
      assert s.pages[i].identity == identity && use in s.pages[i].gpuUses;
    } else if UsedBy(t.retired, identity, use) {
      var i :| 0 <= i < |t.retired| && t.retired[i].identity == identity && use in t.retired[i].gpuUses;
      assert t.retired[i] in OutstandingPages(s.retired, completion);
      var k :| 0 <= k < |s.retired| && Outstanding(s.retired[k], completion) == t.retired[i];
      assert s.retired[k].identity == identity && use in s.retired[k].gpuUses;
    }
  }

  lemma CollectUses(s: Pool, identity: int, use: int)
    requires Inv(s)
    ensures InGpuUse(Collect(s), identity, use) <==> InGpuUse(s, identity, use)
  {
    var t := Collect(s);
    if InGpuUse(s, identity, use) {
      CollectKeepsUse(s, identity, use);
    }
    KeptOk(s.pages);
    hide Inv, Kept, Retained;
    UsedByEither(s.pages, s.retired, identity, use);
    UsedByEither(t.pages, t.retired, identity, use);
    UsedByEither(s.retired, Retained(s.pages), identity, use);
    if InGpuUse(t, identity, use) {
      if UsedBy(Kept(s.pages), identity, use) {
        UsedAmong(Kept(s.pages), s.pages, identity, use);
      } else if UsedBy(Retained(s.pages), identity, use) {
        UsedAmong(Retained(s.pages), s.pages, identity, use);
      }
    }
  }

  lemma UsedAmong(some: seq<Page>, pages: seq<Page>, identity: int, use: int)
    requires UsedBy(some, identity, use) && forall p | p in some :: p in pages
    ensures UsedBy(pages, identity, use)
  {
    var i :| 0 <= i < |some| && some[i].identity == identity && use in some[i].gpuUses;
    assert some[i] in some;
    var k :| 0 <= k < |pages| && pages[k] == some[i];
  }

  /** Same identities and uses, and any further page unused. */
  lemma SameUsesBoth(s: Pool, t: Pool, identity: int, use: int)
    requires t.retired == s.retired && |t.pages| >= |s.pages|
    requires forall i | 0 <= i < |s.pages| ::
      t.pages[i].identity == s.pages[i].identity && s.pages[i].gpuUses == t.pages[i].gpuUses
    requires forall i | |s.pages| <= i < |t.pages| :: t.pages[i].gpuUses == {}
    ensures InGpuUse(t, identity, use) <==> InGpuUse(s, identity, use)
  {
    UsedByEither(s.pages, s.retired, identity, use);
    UsedByEither(t.pages, t.retired, identity, use);
    if UsedBy(s.pages, identity, use) {
      var i :| 0 <= i < |s.pages| && s.pages[i].identity == identity && use in s.pages[i].gpuUses;
      assert t.pages[i].identity == identity && use in t.pages[i].gpuUses;
    }
    if UsedBy(t.pages, identity, use) {
      var i :| 0 <= i < |t.pages| && t.pages[i].identity == identity && use in t.pages[i].gpuUses;
      assert i < |s.pages| && use in s.pages[i].gpuUses;
    }
  }

  lemma AllocateUses(s: Pool, requested: int, lifetime: string, identity: int, use: int)
    requires Inv(s)
    ensures InGpuUse(Allocate(s, requested, lifetime).pool, identity, use) <==> InGpuUse(s, identity, use)
  {
    hide InGpuUse, Align, NoRoom, PageBytes, Kept, Retained;
    var t := Allocate(s, requested, lifetime).pool;
    if Align(requested).Some? && Fit(s, s.pages, lifetime, Align(requested).value).None? {
      CollectUses(s, identity, use);
      SameUsesBoth(Collect(s), t, identity, use);
    } else {
      SameUsesBoth(s, t, identity, use);
    }
  }

  /** What one call does to the question whether this use of this page is outstanding. */
  predicate StillOut(s: Pool, op: Op, identity: int, use: int, before: bool)
    requires s.pageSize > 0
  {
    match op
    case OpSubmit(h, c) => before || (h.page == identity && c == use && Step(s, op).reply == Done)
    case OpComplete(c) => before && use > c
    case _ => before
  }

  lemma StepUses(s: Pool, op: Op, identity: int, use: int)
    requires Inv(s)
    ensures InGpuUse(Step(s, op).pool, identity, use) <==> StillOut(s, op, identity, use, InGpuUse(s, identity, use))
  {
    hide InGpuUse, Allocate, Submit, Complete, Collect;
    match op
    case OpAllocate(n, l) => AllocateUses(s, n, l, identity, use);
    case OpSubmit(h, c) =>
      SubmitRecords(s, h, c);
      if Submit(s, h, c).reply == Done { SubmitUses(s, h, c, identity, use); }
    case OpComplete(c) => CompleteUses(s, c, identity, use);
    case OpCollect => CollectUses(s, identity, use);
    case _ => SameUsesBoth(s, Step(s, op).pool, identity, use);
  }

  /** The same along a run: submitted, and not completed since. */
  predicate OutAfter(s: Pool, ops: seq<Op>, identity: int, use: int, before: bool)
    requires s.pageSize > 0
    decreases |ops|
  {
    if ops == [] then before
    else
      StepKeepsShape(s, ops[0]);
      OutAfter(Step(s, ops[0]).pool, ops[1..], identity, use, StillOut(s, ops[0], identity, use, before))
  }

  /** A page, active or retired, is held for a use exactly when some submit put it there and no completion has reached it
      since: collecting, allocating and releasing change nothing about it. */
  lemma {:induction false} UsesAreSubmitted(s: Pool, ops: seq<Op>, identity: int, use: int)
    requires Inv(s)
    ensures InGpuUse(Run(s, ops), identity, use) <==> OutAfter(s, ops, identity, use, InGpuUse(s, identity, use))
    decreases |ops|
  {
    hide InGpuUse, StillOut, Step;
    if ops != [] {
      StepKeepsShape(s, ops[0]);
      StepUses(s, ops[0], identity, use);
      StepInv(s, ops[0]);
      UsesAreSubmitted(Step(s, ops[0]).pool, ops[1..], identity, use);
    }
  }

  /** From the call: after a successful submit, through any run without a completion that reaches it, the page the slice
      names is still there, active or retired. */
  lemma SubmittedPageStays(s: Pool, h: Handle, completion: int, ops: seq<Op>)
    requires Inv(s) && Submit(s, h, completion).reply == Done
    requires forall op | op in ops :: op.OpComplete? ==> op.completion < completion
    ensures var t := Run(Submit(s, h, completion).pool, ops);
      && InGpuUse(t, h.page, completion)
      && exists i | 0 <= i < |t.pages + t.retired| :: (t.pages + t.retired)[i].identity == h.page
  {
    hide Submit, Run;
    SubmitUses(s, h, completion, h.page, completion);
    SubmitInv(s, h, completion);
    UsedPageStays(Submit(s, h, completion).pool, ops, h.page, completion);
  }

  // Owners

  predicate NamedAt(s: Pool, h: Handle, i: nat, j: nat) {
    i < |s.pages| && j < |s.pages[i].slices| && Names(h, s.pages[i].slices[j])
  }

  /** The slice this handle names has n owners; a handle that names no slice of an active page has none. */
  ghost predicate OwnersAre(s: Pool, h: Handle, n: int) {
    && n >= 0 && (forall i: nat, j: nat | NamedAt(s, h, i, j) :: s.pages[i].slices[j].owners == n)
    && (n > 0 ==> exists i: nat, j: nat :: NamedAt(s, h, i, j))
  }

  function One(b: bool): nat {
    if b then 1 else 0
  }

  predicate IsGrant(s: Pool, op: Op, h: Handle)
    requires s.pageSize > 0
  {
    op.OpAllocate? && Step(s, op).reply.Granted? && Names(h, Step(s, op).reply.slice)
  }

  predicate IsAlias(s: Pool, op: Op, h: Handle)
    requires s.pageSize > 0
  {
    op == OpAlias(h) && Step(s, op).reply == Done
  }

  predicate IsRelease(s: Pool, op: Op, h: Handle)
    requires s.pageSize > 0
  {
    op == OpRelease(h) && Step(s, op).reply == Done
  }

  lemma LiveIff(s: Pool, h: Handle, n: int)
    requires OwnersAre(s, h, n)
    ensures Live(s, h) <==> n > 0
  {
    if n > 0 {
      var i: nat, j: nat :| NamedAt(s, h, i, j);
      assert Names(h, s.pages[i].slices[j]) && s.pages[i].slices[j].owners > 0;
    }
    if Live(s, h) {
      var i, j :| 0 <= i < |s.pages| && 0 <= j < |s.pages[i].slices|
                  && Names(h, s.pages[i].slices[j]) && s.pages[i].slices[j].owners > 0;
      assert NamedAt(s, h, i, j);
    }
  }

  lemma ReownOwners(s: Pool, named: Handle, change: int, h: Handle, n: int)
    requires OwnersAre(s, h, n) && (named == h ==> n > 0 && n + change >= 0)
    ensures OwnersAre(s.(pages := ReownPages(s.pages, named, change)), h, if named == h then n + change else n)
  {
    var t := s.(pages := ReownPages(s.pages, named, change));
    forall i: nat, j: nat ensures NamedAt(t, h, i, j) <==> NamedAt(s, h, i, j) {
    }
    if n > 0 {
      var i: nat, j: nat :| NamedAt(s, h, i, j);
      assert NamedAt(t, h, i, j);
    }
  }

  lemma SameSlicesSameOwners(s: Pool, t: Pool, h: Handle, n: int)
    requires OwnersAre(s, h, n) && |t.pages| == |s.pages|
    requires forall i | 0 <= i < |s.pages| :: t.pages[i].slices == s.pages[i].slices
    ensures OwnersAre(t, h, n)
  {
    forall i: nat, j: nat ensures NamedAt(t, h, i, j) <==> NamedAt(s, h, i, j) {
    }
    if n > 0 {
      var i: nat, j: nat :| NamedAt(s, h, i, j);
      assert NamedAt(t, h, i, j);
    }
  }

  lemma CollectOwners(s: Pool, h: Handle, n: int)
    requires Inv(s) && OwnersAre(s, h, n)
    ensures OwnersAre(Collect(s), h, n)
  {
    hide PageOk, Bytes;
    KeptOk(s.pages);
    hide Kept, Retained;
    var t := Collect(s);
    forall i: nat, j: nat | NamedAt(t, h, i, j) ensures t.pages[i].slices[j].owners == n {
      assert t.pages[i] in s.pages;
      var k :| 0 <= k < |s.pages| && s.pages[k] == t.pages[i];
      assert NamedAt(s, h, k, j);
    }
    if n > 0 {
      var i: nat, j: nat :| NamedAt(s, h, i, j);
      assert s.pages[i].slices[j].owners > 0;
      assert s.pages[i] in t.pages;
      var k :| 0 <= k < |t.pages| && t.pages[k] == s.pages[i];
      assert NamedAt(t, h, k, j);
    }
  }

  /** A slice named like the next one to be placed on a page would lie on that very page, before its end. */
  lemma NextNameIsNew(s: Pool, index: nat, i: nat, j: nat)
    requires Inv(s) && index < |s.pages|
    ensures !NamedAt(s, Handle(s.pages[index].identity, s.pages[index].used), i, j)
  {
    hide PageOk;
    if i < |s.pages| && j < |s.pages[i].slices| {
      BeforeTail(s, s.pages[i], j);
      assert i < index ==> s.pages[i].identity < s.pages[index].identity;
      assert index < i ==> s.pages[index].identity < s.pages[i].identity;
    }
  }

  lemma BeforeTail(s: Pool, p: Page, j: nat)
    requires PageOk(s, p) && j < |p.slices|
    ensures p.slices[j].page == p.identity && p.slices[j].offset < p.used
  {
    SlicesBeforeTail(s, p);
    AlignIsLeast(p.slices[j].requested, p.slices[j].capacity);
  }

  lemma PlaceOwners(s: Pool, index: nat, requested: int, capacity: nat, h: Handle, n: int)
    requires Inv(s) && index < |s.pages| && OwnersAre(s, h, n)
    ensures var o := Place(s, index, requested, capacity);
      OwnersAre(o.pool, h, n + One(Names(h, o.reply.slice)))
  {
    var o := Place(s, index, requested, capacity);
    var t, last := o.pool, |s.pages[index].slices|;
    var mine := Handle(s.pages[index].identity, s.pages[index].used);
    forall i: nat, j: nat
      ensures NamedAt(t, h, i, j) <==> NamedAt(s, h, i, j) || (i == index && j == last && h == mine)
      ensures NamedAt(s, h, i, j) ==> t.pages[i].slices[j] == s.pages[i].slices[j] && h != mine
    {
      NextNameIsNew(s, index, i, j);
    }
    hide Inv;
    if n > 0 {
      var i: nat, j: nat :| NamedAt(s, h, i, j);
      assert NamedAt(t, h, i, j);
    }
    if h == mine {
      assert NamedAt(t, h, index, last);
    }
  }

  lemma AddPageOwners(s: Pool, lifetime: string, bytes: nat, h: Handle, n: int)
    requires OwnersAre(s, h, n)
    ensures OwnersAre(AddPage(s, lifetime, bytes), h, n)
  {
    var t := AddPage(s, lifetime, bytes);
    forall i: nat, j: nat ensures NamedAt(t, h, i, j) <==> NamedAt(s, h, i, j) {
    }
    if n > 0 {
      var i: nat, j: nat :| NamedAt(s, h, i, j);
      assert NamedAt(t, h, i, j);
    }
  }

  lemma OpenOwners(s: Pool, requested: int, lifetime: string, capacity: nat, h: Handle, n: int)
    requires Inv(s) && OwnersAre(s, h, n) && Align(requested) == Some(capacity)
    ensures var o := OpenPage(s, requested, lifetime, capacity);
      OwnersAre(o.pool, h, n + One(o.reply.Granted? && Names(h, o.reply.slice)))
  {
    var bytes := PageBytes(s, capacity);
    AlignIsLeast(requested, capacity);
    PageBytesHold(s, capacity);
    hide PageBytes, OwnersAre, Align;
    if NoRoom(s, lifetime, bytes) {
      assert OpenPage(s, requested, lifetime, capacity).pool == s.(rejected := s.rejected + 1);
      OwnersAreThere(s, s.rejected + 1, h, n);
    } else {
      AddPageInv(s, lifetime, bytes);
      AddPageOwners(s, lifetime, bytes, h, n);
      PlaceOwners(AddPage(s, lifetime, bytes), |s.pages|, requested, capacity, h, n);
    }
  }

  lemma OwnersAreThere(s: Pool, rejected: nat, h: Handle, n: int)
    requires OwnersAre(s, h, n)
    ensures OwnersAre(s.(rejected := rejected), h, n)
  {
    SameSlicesSameOwners(s, s.(rejected := rejected), h, n);
  }

  lemma AllocateOwners(s: Pool, requested: int, lifetime: string, h: Handle, n: int)
    requires Inv(s) && OwnersAre(s, h, n)
    ensures var o := Allocate(s, requested, lifetime);
      OwnersAre(o.pool, h, n + One(o.reply.Granted? && Names(h, o.reply.slice)))
  {
    hide OwnersAre, Align, OpenPage, Place, Collect;
    if Align(requested).Some? {
      var capacity := Align(requested).value;
      var first := Fit(s, s.pages, lifetime, capacity);
      if first.Some? {
        PlaceIsGrant(s, first.value, requested, capacity);
        PlaceOwners(s, first.value, requested, capacity, h, n);
      } else {
        var c := Collect(s);
        CollectInv(s);
        CollectOwners(s, h, n);
        RetryFindsNothing(s, lifetime, capacity);
        OpenOwners(c, requested, lifetime, capacity, h, n);
      }
    }
  }

  lemma PlaceIsGrant(s: Pool, index: nat, requested: int, capacity: nat)
    requires index < |s.pages|
    ensures Place(s, index, requested, capacity).reply.Granted?
  {
  }

  lemma StepOwners(s: Pool, op: Op, h: Handle, n: int)
    requires Inv(s) && OwnersAre(s, h, n)
    ensures OwnersAre(Step(s, op).pool, h, n + One(IsGrant(s, op, h)) + One(IsAlias(s, op, h)) - One(IsRelease(s, op, h)))
  {
    hide OwnersAre, Allocate, Submit, Complete, Collect, Live;
    match op
    case OpAllocate(r, l) => AllocateOwners(s, r, l, h, n);
    case OpAlias(named) =>
      LiveIff(s, h, n);
      if Live(s, named) { ReownOwners(s, named, 1, h, n); }
    case OpRelease(named) =>
      LiveIff(s, h, n);
      if Live(s, named) { ReownOwners(s, named, -1, h, n); }
    case OpCollect => CollectOwners(s, h, n);
    case _ =>
      OthersKeepSlices(s, op);
      SameSlicesSameOwners(s, Step(s, op).pool, h, n);
  }

  lemma OthersKeepSlices(s: Pool, op: Op)
    requires s.pageSize > 0 && (op.OpSubmit? || op.OpComplete?)
    ensures var t := Step(s, op).pool;
      |t.pages| == |s.pages| && forall i | 0 <= i < |s.pages| :: t.pages[i].slices == s.pages[i].slices
  {
  }

  /** Grants, aliases and releases of one handle along a run. */
  function Balance(s: Pool, ops: seq<Op>, h: Handle): int
    requires s.pageSize > 0
    decreases |ops|
  {
    if ops == [] then 0
    else
      StepKeepsShape(s, ops[0]);
      One(IsGrant(s, ops[0], h)) + One(IsAlias(s, ops[0], h)) - One(IsRelease(s, ops[0], h))
      + Balance(Step(s, ops[0]).pool, ops[1..], h)
  }

  lemma {:induction false} RunOwners(s: Pool, ops: seq<Op>, h: Handle, n: int)
    requires Inv(s) && OwnersAre(s, h, n)
    ensures OwnersAre(Run(s, ops), h, n + Balance(s, ops, h))
    decreases |ops|
  {
    hide OwnersAre, Step, IsGrant, IsAlias, IsRelease;
    if ops != [] {
      StepKeepsShape(s, ops[0]);
      StepOwners(s, ops[0], h, n);
      StepInv(s, ops[0]);
      var change := One(IsGrant(s, ops[0], h)) + One(IsAlias(s, ops[0], h)) - One(IsRelease(s, ops[0], h));
      RunOwners(Step(s, ops[0]).pool, ops[1..], h, n + change);
    }
  }

  /** Owners are conserved: after any run of a new pool a slice has as many owners as it was granted and aliased, less
      the times it was released. */
  lemma OwnersAreCounted(cap: int, pageSize: nat, grouped: bool, quotas: map<string, int>, ops: seq<Op>, h: Handle)
    requires pageSize > 0
    ensures var s := Empty(cap, pageSize, grouped, quotas); OwnersAre(Run(s, ops), h, Balance(s, ops, h))
  {
    var s := Empty(cap, pageSize, grouped, quotas);
    EmptyInv(cap, pageSize, grouped, quotas);
    assert OwnersAre(s, h, 0);
    RunOwners(s, ops, h, 0);
  }

  /** An alias or a release is refused exactly when the count is 0. */
  lemma OwnersAllow(s: Pool, h: Handle, n: int)
    requires OwnersAre(s, h, n)
    ensures n > 0 <==> Alias(s, h).reply == Done
    ensures n > 0 <==> Release(s, h).reply == Done
    ensures n == 0 ==> Alias(s, h) == Outcome(s, Raised(AssertionError)) == Release(s, h)
  {
    if n > 0 {
      var i: nat, j: nat :| NamedAt(s, h, i, j);
      assert Names(h, s.pages[i].slices[j]) && s.pages[i].slices[j].owners > 0;
    }
  }

  // What a collection takes

  /** A collection keeps a page exactly when one of its slices has an owner, retires it exactly when none has and the GPU
      still uses it, and counts every page that goes. */
  lemma CollectTakes(s: Pool, p: Page)
    ensures var c := Collect(s);
      && (p in c.pages <==> p in s.pages && exists slice | slice in p.slices :: slice.owners > 0)
      && (p in c.retired <==> p in s.retired || (p in s.pages && p.gpuUses != {}
                                                 && forall slice | slice in p.slices :: slice.owners == 0))
      && c.reclaimed + |c.pages| == s.reclaimed + |s.pages|
  {
    hide Select;
    SelectMembers(s.pages, q => Owned(q));
    SelectMembers(s.pages, (q: Page) => !Owned(q) && q.gpuUses != {});
    assert Owned(p) <==> exists slice | slice in p.slices :: slice.owners > 0;
  }

  // Where a slice is placed

  /** A granted slice goes at the end of the youngest active page that suits it; only when none does, all unowned pages
      are collected and a page is opened, the smallest number of whole page sizes that holds the slice. */
  lemma GrantedWhere(s: Pool, requested: int, lifetime: string)
    requires Inv(s) && Allocate(s, requested, lifetime).reply.Granted?
    ensures Align(requested).Some?
    ensures var o, capacity := Allocate(s, requested, lifetime), Align(requested).value;
      if exists i | 0 <= i < |s.pages| :: Suits(s, s.pages[i], lifetime, capacity) then
        exists i | 0 <= i < |s.pages| ::
          && Suits(s, s.pages[i], lifetime, capacity)
          && (forall j | i < j < |s.pages| :: !Suits(s, s.pages[j], lifetime, capacity))
          && o.reply.slice == Slice(s.pages[i].identity, s.pages[i].used, requested, capacity, 1)
          && o.pool.retired == s.retired && o.pool.reclaimed == s.reclaimed
      else
        && o.reply.slice == Slice(s.nextPage, 0, requested, capacity, 1)
        && o.pool.pages ==
             Collect(s).pages + [Page(s.nextPage, lifetime, PageBytes(s, capacity), capacity, [o.reply.slice], {})]
        && o.pool.retired == Collect(s).retired && o.pool.created == s.created + 1
  {
    hide Align, Kept, Retained, NoRoom, Place, AddPage;
    var capacity := Align(requested).value;
    var first := Fit(s, s.pages, lifetime, capacity);
    if first.None? {
      RetryFindsNothing(s, lifetime, capacity);
      OpenedWhere(Collect(s), requested, lifetime, capacity);
    } else {
      assert Suits(s, s.pages[first.value], lifetime, capacity);
      PlacedWhere(s, first.value, requested, capacity);
    }
  }

  lemma PlacedWhere(s: Pool, index: nat, requested: int, capacity: nat)
    requires index < |s.pages|
    ensures var o := Place(s, index, requested, capacity);
      && o.reply == Granted(Slice(s.pages[index].identity, s.pages[index].used, requested, capacity, 1))
      && o.pool.retired == s.retired && o.pool.reclaimed == s.reclaimed
  {
  }

  lemma OpenedWhere(s: Pool, requested: int, lifetime: string, capacity: nat)
    requires s.pageSize > 0 && OpenPage(s, requested, lifetime, capacity).reply.Granted?
    ensures var o := OpenPage(s, requested, lifetime, capacity);
      && o.reply.slice == Slice(s.nextPage, 0, requested, capacity, 1)
      && o.pool.pages == s.pages + [Page(s.nextPage, lifetime, PageBytes(s, capacity), capacity, [o.reply.slice], {})]
      && o.pool.retired == s.retired && o.pool.created == s.created + 1
  {
    hide PageBytes, NoRoom, Bytes;
    var o := OpenPage(s, requested, lifetime, capacity);
    var p := Page(s.nextPage, lifetime, PageBytes(s, capacity), capacity, [o.reply.slice], {});
    assert o.pool.pages[|s.pages|] == p;
    assert o.pool.pages == s.pages + [p];
  }

  lemma PageBytesIsLeast(s: Pool, capacity: nat, pages: nat)
    requires s.pageSize > 0 && capacity <= pages * s.pageSize
    ensures capacity <= PageBytes(s, capacity) <= pages * s.pageSize
    ensures exists k: nat :: PageBytes(s, capacity) == k * s.pageSize
  {
    var k := (capacity + s.pageSize - 1) / s.pageSize;
    AtMostQuotient(k, s.pageSize, capacity + s.pageSize - 1);
    AtMostQuotient(k + 1, s.pageSize, capacity + s.pageSize - 1);
    NextStride(k, s.pageSize);
    AtMostQuotient(pages + 1, s.pageSize, capacity + s.pageSize - 1);
    NextStride(pages, s.pageSize);
    if pages < k {
      StridesApart(pages, k, s.pageSize);
    }
    ScaledBy(if k <= pages then k else pages, pages, s.pageSize);
  }

  // Counters

  function Rejections(s: Pool, ops: seq<Op>): nat
    requires s.pageSize > 0
    decreases |ops|
  {
    if ops == [] then 0
    else
      StepKeepsShape(s, ops[0]);
      One(Step(s, ops[0]).reply == Rejected) + Rejections(Step(s, ops[0]).pool, ops[1..])
  }

  /** The largest number of active bytes along the run. */
  function HighWater(s: Pool, ops: seq<Op>): nat
    requires s.pageSize > 0
    decreases |ops|
  {
    if ops == [] then Bytes(s.pages)
    else
      StepKeepsShape(s, ops[0]);
      Larger(Bytes(s.pages), HighWater(Step(s, ops[0]).pool, ops[1..]))
  }

  lemma StepRejects(s: Pool, op: Op)
    requires s.pageSize > 0
    ensures Step(s, op).pool.rejected == s.rejected + One(Step(s, op).reply == Rejected)
  {
    hide Fit, Align, Select, Kept, Retained, Live, Find, ReownPages, OutstandingPages, InUse, NoRoom, PageBytes;
  }

  lemma StepPeaks(s: Pool, op: Op)
    requires Inv(s)
    ensures Step(s, op).pool.peakActive == Larger(s.peakActive, Bytes(Step(s, op).pool.pages))
  {
    StepInv(s, op);
    match op
    case OpAllocate(n, l) => AllocatePeaks(s, n, l);
    case _ =>
  }

  lemma AllocatePeaks(s: Pool, requested: int, lifetime: string)
    requires Inv(s)
    ensures var t := Allocate(s, requested, lifetime).pool;
      t.peakActive == Larger(s.peakActive, Bytes(t.pages))
  {
    AllocateInv(s, requested, lifetime);
    if Align(requested).Some? && Fit(s, s.pages, lifetime, Align(requested).value).None? {
      var capacity := Align(requested).value;
      RetryFindsNothing(s, lifetime, capacity);
      CollectInv(s);
      var c := Collect(s);
      var bytes := PageBytes(c, capacity);
      if !NoRoom(c, lifetime, bytes) {
        BytesAppend(c.pages, Page(c.nextPage, lifetime, bytes, 0, [], {}), lifetime);
        PlaceSameBytes(AddPage(c, lifetime, bytes), |c.pages|, requested, capacity);
      }
    }
  }

  lemma PlaceSameBytes(s: Pool, index: nat, requested: int, capacity: nat)
    requires index < |s.pages|
    ensures Bytes(Place(s, index, requested, capacity).pool.pages) == Bytes(s.pages)
  {
    SameBytes(s.pages, Place(s, index, requested, capacity).pool.pages, "");
  }

  /** The refusal counter counts the refusals, and the peak is the high-water mark of the active bytes. */
  lemma {:induction false} CountersCount(s: Pool, ops: seq<Op>)
    requires Inv(s)
    ensures Run(s, ops).rejected == s.rejected + Rejections(s, ops)
    ensures Run(s, ops).peakActive == Larger(s.peakActive, HighWater(s, ops))
    decreases |ops|
  {
    hide Step, Bytes;
    if ops != [] {
      StepKeepsShape(s, ops[0]);
      StepRejects(s, ops[0]);
      StepPeaks(s, ops[0]);
      StepInv(s, ops[0]);
      CountersCount(Step(s, ops[0]).pool, ops[1..]);
    }
  }
}
