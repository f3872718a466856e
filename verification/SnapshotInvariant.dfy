/** What the snapshot pool keeps over every run: page geometry, ownership, retention and accounting. */
module SnapshotInvariant {
  import opened Wrappers
  import opened SnapshotPool

  /** Slices of a page are aligned and follow each other without a gap. */
  predicate LaidOut(slices: seq<Slice>, page: int) {
    forall i | 0 <= i < |slices| ::
      && slices[i].page == page
      && Align(slices[i].requested) == Some(slices[i].capacity)
      && slices[i].offset == Extent(slices[..i])
  }

  predicate PageOk(s: Pool, p: Page) {
    && LaidOut(p.slices, p.identity)
    && Extent(p.slices) == p.used <= p.capacity
    && 0 < p.capacity
    && 0 < p.identity < s.nextPage
  }

  predicate Increasing(pages: seq<Page>) {
    forall i, j | 0 <= i < j < |pages| :: pages[i].identity < pages[j].identity
  }

  predicate Distinct(pages: seq<Page>) {
    forall i, j | 0 <= i < j < |pages| :: pages[i].identity != pages[j].identity
  }

  predicate Apart(pages: seq<Page>, others: seq<Page>) {
    forall i, j | 0 <= i < |pages| && 0 <= j < |others| :: pages[i].identity != others[j].identity
  }

  function AtLeastZero(x: int): nat {
    if x < 0 then 0 else x
  }

  predicate Inv(s: Pool) {
    && s.pageSize > 0
    && s.nextPage >= 1
    && (forall i | 0 <= i < |s.pages| :: PageOk(s, s.pages[i]))
    && (forall i | 0 <= i < |s.retired| :: PageOk(s, s.retired[i]) && !Owned(s.retired[i]) && s.retired[i].gpuUses != {})
    && Increasing(s.pages) && Distinct(s.retired) && Apart(s.pages, s.retired)
    && Bytes(s.pages) <= s.peakActive <= AtLeastZero(s.cap)
    && s.created == |s.pages| + s.reclaimed == s.nextPage - 1
  }

  /** Active bytes of every lifetime class stay within its quota. */
  ghost predicate QuotasHold(s: Pool) {
    forall lifetime: string :: ClassBytes(s.pages, lifetime) <= AtLeastZero(s.Quota(lifetime))
  }

  lemma EmptyInv(cap: int, pageSize: nat, grouped: bool, quotas: map<string, int>)
    requires pageSize > 0
    ensures Inv(Empty(cap, pageSize, grouped, quotas)) && QuotasHold(Empty(cap, pageSize, grouped, quotas))
  {
  }

  // Geometry

  lemma {:induction false} ExtentOfPrefix(slices: seq<Slice>, i: nat)
    requires i <= |slices|
    ensures Extent(slices[..i]) <= Extent(slices)
    decreases |slices| - i
  {
    if i < |slices| {
      ExtentOfPrefix(slices, i + 1);
      assert slices[..i + 1][..i] == slices[..i];
    } else {
      assert slices[..i] == slices;
    }
  }

  lemma AlignedSlice(requested: int)
    requires Align(requested).Some?
    ensures Align(requested).value % ALIGN == 0 && requested <= Align(requested).value
  {
    AlignIsLeast(requested, Align(requested).value);
  }

  lemma AddAligned(a: nat, b: nat)
    requires a % ALIGN == 0 && b % ALIGN == 0
    ensures (a + b) % ALIGN == 0
  {
  }

  lemma {:induction false} ExtentAligned(slices: seq<Slice>, page: int)
    requires LaidOut(slices, page)
    ensures Extent(slices) % ALIGN == 0
  {
    if slices != [] {
      var n := |slices| - 1;
      forall i | 0 <= i < n ensures slices[..n][..i] == slices[..i] {
      }
      assert LaidOut(slices[..n], page);
      ExtentAligned(slices[..n], page);
      AlignedSlice(slices[n].requested);
      AddAligned(Extent(slices[..n]), slices[n].capacity);
    }
  }

  lemma SliceEnd(slices: seq<Slice>, page: int, i: nat)
    requires LaidOut(slices, page) && i < |slices|
    ensures slices[i].offset + slices[i].capacity == Extent(slices[..i + 1])
    ensures slices[i].offset % ALIGN == 0 && slices[i].requested <= slices[i].capacity
  {
    assert slices[..i + 1][..i] == slices[..i];
    forall k | 0 <= k < i ensures slices[..i][..k] == slices[..k] {
    }
    ExtentAligned(slices[..i], page);
    AlignedSlice(slices[i].requested);
  }

  /** Slices of one page are aligned, hold what was asked for, stay inside the page and never overlap. */
  lemma SlicesDisjoint(s: Pool, p: Page, i: nat, j: nat)
    requires PageOk(s, p) && i < j < |p.slices|
    ensures p.slices[i].requested <= p.slices[i].capacity
    ensures p.slices[i].offset % ALIGN == 0
    ensures p.slices[i].offset + p.slices[i].capacity <= p.slices[j].offset
    ensures p.slices[j].offset + p.slices[j].capacity <= p.used <= p.capacity
  {
    SliceEnd(p.slices, p.identity, i);
    SliceEnd(p.slices, p.identity, j);
    assert p.slices[..j][..i + 1] == p.slices[..i + 1];
    ExtentOfPrefix(p.slices[..j], i + 1);
    ExtentOfPrefix(p.slices, j + 1);
  }

  lemma AppendSlice(slices: seq<Slice>, page: int, requested: int, capacity: nat)
    requires LaidOut(slices, page) && Align(requested) == Some(capacity)
    ensures var longer := slices + [Slice(page, Extent(slices), requested, capacity, 1)];
      LaidOut(longer, page) && Extent(longer) == Extent(slices) + capacity
  {
    var longer := slices + [Slice(page, Extent(slices), requested, capacity, 1)];
    forall i | 0 <= i <= |slices| ensures longer[..i] == slices[..i] {
    }
    assert slices[..|slices|] == slices;
  }

  lemma {:induction false} SameExtent(a: seq<Slice>, b: seq<Slice>)
    requires |a| == |b| && forall i | 0 <= i < |a| :: a[i].capacity == b[i].capacity
    ensures Extent(a) == Extent(b)
  {
    if a != [] {
      SameExtent(a[..|a| - 1], b[..|b| - 1]);
    }
  }

  /** Ownership changes move nothing. */
  lemma ReownLaidOut(slices: seq<Slice>, page: int, h: Handle, change: int)
    requires LaidOut(slices, page)
    ensures LaidOut(Reown(slices, h, change), page) && Extent(Reown(slices, h, change)) == Extent(slices)
  {
    var r := Reown(slices, h, change);
    SameExtent(r, slices);
    forall i | 0 <= i < |r| ensures Extent(r[..i]) == Extent(slices[..i]) {
      SameExtent(r[..i], slices[..i]);
    }
  }

  // Byte sums

  lemma {:induction false} SameBytes(a: seq<Page>, b: seq<Page>, lifetime: string)
    requires |a| == |b|
    requires forall i | 0 <= i < |a| :: a[i].capacity == b[i].capacity && a[i].lifetime == b[i].lifetime
    ensures Bytes(a) == Bytes(b) && ClassBytes(a, lifetime) == ClassBytes(b, lifetime)
  {
    if a != [] {
      SameBytes(a[..|a| - 1], b[..|b| - 1], lifetime);
    }
  }

  lemma BytesAppend(a: seq<Page>, p: Page, lifetime: string)
    ensures Bytes(a + [p]) == Bytes(a) + p.capacity
    ensures ClassBytes(a + [p], lifetime) == ClassBytes(a, lifetime) + if p.lifetime == lifetime then p.capacity else 0
  {
    assert (a + [p])[..|a|] == a;
  }

  // Collecting

  /** Selecting keeps exactly the pages that pass, and their order. */
  lemma {:induction false} SelectMembers(pages: seq<Page>, keep: Page -> bool)
    ensures forall p :: p in Select(pages, keep) <==> p in pages && keep(p)
  {
    if pages != [] {
      var n := |pages| - 1;
      SelectMembers(pages[..n], keep);
      assert pages == pages[..n] + [pages[n]];
    }
  }

  lemma {:induction false} SelectIncreasing(pages: seq<Page>, keep: Page -> bool)
    requires Increasing(pages)
    ensures Increasing(Select(pages, keep))
  {
    if pages != [] {
      var n := |pages| - 1;
      SelectIncreasing(pages[..n], keep);
      SelectMembers(pages[..n], keep);
      var r := Select(pages[..n], keep);
      forall i | 0 <= i < |r| ensures r[i].identity < pages[n].identity {
        assert r[i] in pages[..n];
      }
    }
  }

  lemma {:induction false} SelectDistinct(pages: seq<Page>, keep: Page -> bool)
    requires Distinct(pages)
    ensures Distinct(Select(pages, keep))
  {
    if pages != [] {
      var n := |pages| - 1;
      SelectDistinct(pages[..n], keep);
      SelectMembers(pages[..n], keep);
      var r := Select(pages[..n], keep);
      forall i | 0 <= i < |r| ensures r[i].identity != pages[n].identity {
        assert r[i] in pages[..n];
      }
    }
  }

  lemma {:induction false} SelectBytes(pages: seq<Page>, keep: Page -> bool, lifetime: string)
    ensures Bytes(Select(pages, keep)) <= Bytes(pages)
    ensures ClassBytes(Select(pages, keep), lifetime) <= ClassBytes(pages, lifetime)
  {
    if pages != [] {
      var n := |pages| - 1;
      SelectBytes(pages[..n], keep, lifetime);
      BytesAppend(Select(pages[..n], keep), pages[n], lifetime);
      assert Select(pages[..n], keep) + [] == Select(pages[..n], keep);
    }
  }

  lemma KeptOk(pages: seq<Page>)
    requires Increasing(pages)
    ensures Increasing(Kept(pages)) && Increasing(Retained(pages))
    ensures forall p :: p in Kept(pages) <==> p in pages && Owned(p)
    ensures forall p :: p in Retained(pages) <==> p in pages && !Owned(p) && p.gpuUses != {}
    ensures Apart(Kept(pages), Retained(pages))
  {
    SelectIncreasing(pages, p => Owned(p));
    SelectIncreasing(pages, (p: Page) => !Owned(p) && p.gpuUses != {});
    SelectMembers(pages, p => Owned(p));
    SelectMembers(pages, (p: Page) => !Owned(p) && p.gpuUses != {});
    var a, b := Kept(pages), Retained(pages);
    forall i, j | 0 <= i < |a| && 0 <= j < |b| ensures a[i].identity != b[j].identity {
      assert a[i] in pages && b[j] in pages && a[i] != b[j];
    }
  }

  lemma CollectRetired(s: Pool)
    requires Inv(s)
    ensures var t := Collect(s); Distinct(t.retired) && Apart(t.pages, t.retired)
  {
    KeptOk(s.pages);
    var kept, retained := Kept(s.pages), Retained(s.pages);
    forall i, j | 0 <= i < |s.retired| && 0 <= j < |retained| ensures s.retired[i].identity != retained[j].identity {
      assert retained[j] in s.pages;
    }
    forall i, j | 0 <= i < |kept| && 0 <= j < |s.retired| ensures kept[i].identity != s.retired[j].identity {
      assert kept[i] in s.pages;
    }
  }

  lemma CollectInv(s: Pool)
    requires Inv(s)
    ensures Inv(Collect(s))
  {
    var t := Collect(s);
    KeptOk(s.pages);
    CollectRetired(s);
    SelectBytes(s.pages, p => Owned(p), "");
    forall i | 0 <= i < |t.pages| ensures PageOk(t, t.pages[i]) {
      assert t.pages[i] in s.pages;
    }
    forall i | 0 <= i < |t.retired|
      ensures PageOk(t, t.retired[i]) && !Owned(t.retired[i]) && t.retired[i].gpuUses != {}
    {
      assert i >= |s.retired| ==> t.retired[i] in Retained(s.pages);
    }
  }

  lemma CollectQuotas(s: Pool)
    requires QuotasHold(s)
    ensures QuotasHold(Collect(s))
  {
    forall lifetime: string ensures ClassBytes(Collect(s).pages, lifetime) <= AtLeastZero(s.Quota(lifetime)) {
      SelectBytes(s.pages, p => Owned(p), lifetime);
    }
  }

  // Allocating

  lemma ReplaceKeepsPagesOk(s: Pool, t: Pool, index: nat, q: Page)
    requires (forall i | 0 <= i < |s.pages| :: PageOk(s, s.pages[i])) && index < |s.pages| && PageOk(s, q)
    requires t.nextPage == s.nextPage && t.pages == s.pages[index := q]
    ensures forall i | 0 <= i < |t.pages| :: PageOk(t, t.pages[i])
  {
    forall i | 0 <= i < |t.pages| ensures PageOk(t, t.pages[i]) {
      assert PageOk(s, t.pages[i]);
    }
  }

  lemma ReplaceKeepsIdentities(pages: seq<Page>, others: seq<Page>, index: nat, q: Page)
    requires Increasing(pages) && Apart(pages, others) && index < |pages| && q.identity == pages[index].identity
    ensures Increasing(pages[index := q]) && Apart(pages[index := q], others)
  {
  }

  /** Rewriting one page in place, keeping its identity, class and capacity, keeps the pool's invariant. */
  lemma ReplacePage(s: Pool, index: nat, q: Page)
    requires Inv(s) && index < |s.pages| && PageOk(s, q)
    requires q.identity == s.pages[index].identity && q.capacity == s.pages[index].capacity
    ensures Inv(s.(pages := s.pages[index := q]))
  {
    var t := s.(pages := s.pages[index := q]);
    ReplaceKeepsPagesOk(s, t, index, q);
    ReplaceKeepsIdentities(s.pages, s.retired, index, q);
    SameCapacities(s.pages, t.pages);
    forall i | 0 <= i < |t.retired| ensures PageOk(t, t.retired[i]) {
      assert PageOk(s, t.retired[i]);
    }
  }

  lemma {:induction false} SameCapacities(a: seq<Page>, b: seq<Page>)
    requires |a| == |b| && forall i | 0 <= i < |a| :: a[i].capacity == b[i].capacity
    ensures Bytes(a) == Bytes(b)
  {
    if a != [] {
      SameCapacities(a[..|a| - 1], b[..|b| - 1]);
    }
  }

  lemma ReplaceKeepsQuotas(s: Pool, index: nat, q: Page)
    requires QuotasHold(s) && index < |s.pages|
    requires q.lifetime == s.pages[index].lifetime && q.capacity == s.pages[index].capacity
    ensures QuotasHold(s.(pages := s.pages[index := q]))
  {
    var pages := s.pages[index := q];
    forall lifetime: string ensures ClassBytes(pages, lifetime) == ClassBytes(s.pages, lifetime) {
      SameBytes(s.pages, pages, lifetime);
    }
  }

  lemma PlaceInv(s: Pool, index: nat, requested: int, capacity: nat)
    requires Inv(s) && index < |s.pages| && Align(requested) == Some(capacity)
    requires s.pages[index].used + capacity <= s.pages[index].capacity
    ensures Inv(Place(s, index, requested, capacity).pool)
    ensures QuotasHold(s) ==> QuotasHold(Place(s, index, requested, capacity).pool)
  {
    var q := Place(s, index, requested, capacity).pool.pages[index];
    AppendSlice(s.pages[index].slices, s.pages[index].identity, requested, capacity);
    ReplacePage(s, index, q);
    if QuotasHold(s) {
      ReplaceKeepsQuotas(s, index, q);
    }
  }

  lemma AddPageInv(s: Pool, lifetime: string, bytes: nat)
    requires Inv(s) && bytes > 0 && !NoRoom(s, lifetime, bytes)
    ensures Inv(AddPage(s, lifetime, bytes))
    ensures QuotasHold(s) ==> QuotasHold(AddPage(s, lifetime, bytes))
  {
    var p := Page(s.nextPage, lifetime, bytes, 0, [], {});
    BytesAppend(s.pages, p, lifetime);
    AddPagePages(s, lifetime, bytes);
    if QuotasHold(s) {
      forall l: string ensures ClassBytes(s.pages + [p], l) <= AtLeastZero(s.Quota(l)) {
        BytesAppend(s.pages, p, l);
      }
    }
  }

  lemma AddPagePages(s: Pool, lifetime: string, bytes: nat)
    requires Inv(s) && bytes > 0
    ensures var t := AddPage(s, lifetime, bytes);
      && (forall i | 0 <= i < |t.pages| :: PageOk(t, t.pages[i]))
      && Increasing(t.pages) && Apart(t.pages, t.retired)
  {
  }

  /** A new page is at least as large as the slice it is opened for. */
  lemma PageBytesHold(s: Pool, capacity: nat)
    requires s.pageSize > 0 && capacity > 0
    ensures PageBytes(s, capacity) >= capacity && PageBytes(s, capacity) > 0
  {
    var k := (capacity + s.pageSize - 1) / s.pageSize;
    assert k * s.pageSize > capacity + s.pageSize - 1 - s.pageSize;
  }

  lemma AllocateInv(s: Pool, requested: int, lifetime: string)
    requires Inv(s)
    ensures Inv(Allocate(s, requested, lifetime).pool)
    ensures QuotasHold(s) ==> QuotasHold(Allocate(s, requested, lifetime).pool)
  {
    if Align(requested).Some? {
      var capacity := Align(requested).value;
      AlignIsLeast(requested, capacity);
      var first := Fit(s, s.pages, lifetime, capacity);
      if first.Some? {
        PlaceInv(s, first.value, requested, capacity);
      } else {
        var c := Collect(s);
        CollectInv(s);
        if QuotasHold(s) { CollectQuotas(s); }
        var second := Fit(c, c.pages, lifetime, capacity);
        if second.Some? {
          PlaceInv(c, second.value, requested, capacity);
        } else {
          OpenPageInv(c, requested, lifetime, capacity);
        }
      }
    }
  }

  lemma OpenPageInv(s: Pool, requested: int, lifetime: string, capacity: nat)
    requires Inv(s) && Align(requested) == Some(capacity) && capacity > 0
    ensures Inv(OpenPage(s, requested, lifetime, capacity).pool)
    ensures QuotasHold(s) ==> QuotasHold(OpenPage(s, requested, lifetime, capacity).pool)
  {
    var bytes := PageBytes(s, capacity);
    PageBytesHold(s, capacity);
    if !NoRoom(s, lifetime, bytes) {
      AddPageInv(s, lifetime, bytes);
      PlaceInv(AddPage(s, lifetime, bytes), |s.pages|, requested, capacity);
    } else {
      assert OpenPage(s, requested, lifetime, capacity).pool == s.(rejected := s.rejected + 1);
    }
  }

  // Owners and GPU uses

  lemma ReownInv(s: Pool, h: Handle, change: int)
    requires Inv(s)
    ensures Inv(s.(pages := ReownPages(s.pages, h, change)))
    ensures QuotasHold(s) ==> QuotasHold(s.(pages := ReownPages(s.pages, h, change)))
  {
    hide Extent;
    var t := s.(pages := ReownPages(s.pages, h, change));
    forall i | 0 <= i < |t.pages| ensures PageOk(t, t.pages[i]) {
      ReownLaidOut(s.pages[i].slices, s.pages[i].identity, h, change);
    }
    SameBytes(s.pages, t.pages, "");
    forall lifetime: string ensures ClassBytes(t.pages, lifetime) == ClassBytes(s.pages, lifetime) {
      SameBytes(s.pages, t.pages, lifetime);
    }
  }

  lemma SubmitInv(s: Pool, h: Handle, completion: int)
    requires Inv(s)
    ensures Inv(Submit(s, h, completion).pool)
    ensures QuotasHold(s) ==> QuotasHold(Submit(s, h, completion).pool)
  {
    var at := Find(s.pages, h.page);
    if completion > 0 && at.Some? {
      var q := Submit(s, h, completion).pool.pages[at.value];
      ReplacePage(s, at.value, q);
      if QuotasHold(s) {
        ReplaceKeepsQuotas(s, at.value, q);
      }
    }
  }

  lemma CompleteRetired(s: Pool, completion: int)
    requires Inv(s)
    ensures var t := Complete(s, completion);
      && Distinct(t.retired) && Apart(t.pages, t.retired)
      && forall i | 0 <= i < |t.retired| ::
           PageOk(t, t.retired[i]) && !Owned(t.retired[i]) && t.retired[i].gpuUses != {}
  {
    var t := Complete(s, completion);
    var rest := OutstandingPages(s.retired, completion);
    SelectMembers(rest, (p: Page) => p.gpuUses != {});
    SelectDistinct(rest, (p: Page) => p.gpuUses != {});
    forall i | 0 <= i < |t.retired|
      ensures PageOk(t, t.retired[i]) && !Owned(t.retired[i]) && t.retired[i].gpuUses != {}
      ensures forall j | 0 <= j < |t.pages| :: t.pages[j].identity != t.retired[i].identity
    {
      assert t.retired[i] in rest;
      var k :| 0 <= k < |rest| && rest[k] == t.retired[i];
      assert s.retired[k].slices == t.retired[i].slices;
    }
  }

  lemma CompleteInv(s: Pool, completion: int)
    requires Inv(s)
    ensures Inv(Complete(s, completion))
    ensures QuotasHold(s) ==> QuotasHold(Complete(s, completion))
  {
    var t := Complete(s, completion);
    CompleteRetired(s, completion);
    SameBytes(s.pages, t.pages, "");
    forall lifetime: string ensures ClassBytes(t.pages, lifetime) == ClassBytes(s.pages, lifetime) {
      SameBytes(s.pages, t.pages, lifetime);
    }
  }

  lemma CollectKeeps(s: Pool)
    requires Inv(s)
    ensures Inv(Collect(s)) && (QuotasHold(s) ==> QuotasHold(Collect(s)))
  {
    CollectInv(s);
    if QuotasHold(s) { CollectQuotas(s); }
  }

  ghost predicate Preserved(s: Pool, t: Pool) {
    Inv(t) && (QuotasHold(s) ==> QuotasHold(t))
  }

  lemma OwnerStepInv(s: Pool, op: Op)
    requires Inv(s) && (op.OpAlias? || op.OpRelease? || op.OpSubmit?)
    ensures Preserved(s, Step(s, op).pool)
  {
    match op
    case OpAlias(h) => ReownInv(s, h, 1);
    case OpRelease(h) => ReownInv(s, h, -1);
    case OpSubmit(h, c) => SubmitInv(s, h, c);
  }

  lemma PageStepInv(s: Pool, op: Op)
    requires Inv(s) && (op.OpAllocate? || op.OpComplete? || op.OpCollect?)
    ensures Preserved(s, Step(s, op).pool)
  {
    match op
    case OpAllocate(n, l) => AllocateInv(s, n, l);
    case OpComplete(c) => CompleteInv(s, c);
    case OpCollect => CollectKeeps(s);
  }

  /** Every operation keeps the invariant and the quotas. */
  lemma StepInv(s: Pool, op: Op)
    requires Inv(s)
    ensures Preserved(s, Step(s, op).pool)
  {
    if op.OpAlias? || op.OpRelease? || op.OpSubmit? {
      OwnerStepInv(s, op);
    } else {
      PageStepInv(s, op);
    }
  }
}
