/** The anchor pathology: one long-lived 256-byte slice in front of each short-lived bulk slice. The mixed pool
    pins a whole page per cycle; the grouped pool packs the anchors and reuses the rest. */
module SnapshotAnchor {
  import opened Arithmetic
  import opened Wrappers
  import opened SnapshotPool
  import opened SnapshotInvariant

  const BULK := PAGE - ALIGN

  /** How many anchors a page holds: PAGE / ALIGN. */
  const ANCHORS := 0x1_0000

  /** A long-lived page, owned, whose slices carry its name. */
  predicate LongPage(p: Page, nextPage: int, used: nat) {
    && p.lifetime == "long" && p.capacity == PAGE && p.used == used && Owned(p)
    && p.identity < nextPage
    && forall j | 0 <= j < |p.slices| :: p.slices[j].page == p.identity
  }

  /** `count` long-lived pages, all full but the last, which holds `tail` bytes. */
  predicate LongPages(pages: seq<Page>, nextPage: int, count: nat, tail: nat) {
    |pages| == count && forall i | 0 <= i < count :: LongPage(pages[i], nextPage, if i == count - 1 then tail else PAGE)
  }

  /** No class has a budget of its own. */
  predicate Shared(s: Pool, grouped: bool, cap: int) {
    s.pageSize == PAGE && s.quotas == map[] && s.grouped == grouped && s.cap == cap
  }

  lemma {:induction false} LongBytes(pages: seq<Page>)
    requires forall i | 0 <= i < |pages| :: pages[i].lifetime == "long" && pages[i].capacity == PAGE
    ensures Bytes(pages) == |pages| * PAGE == ClassBytes(pages, "long") && ClassBytes(pages, "short") == 0
  {
    if pages != [] {
      LongBytes(pages[..|pages| - 1]);
    }
  }

  lemma {:induction false} AllOwnedKept(pages: seq<Page>)
    requires forall i | 0 <= i < |pages| :: Owned(pages[i])
    ensures Kept(pages) == pages && Retained(pages) == []
  {
    if pages != [] {
      var n := |pages| - 1;
      AllOwnedKept(pages[..n]);
      assert pages == pages[..n] + [pages[n]];
    }
  }

  lemma LastUnownedDropped(pages: seq<Page>, p: Page)
    requires (forall i | 0 <= i < |pages| :: Owned(pages[i])) && !Owned(p)
    ensures Kept(pages + [p]) == pages
  {
    AllOwnedKept(pages);
    assert (pages + [p])[..|pages|] == pages;
  }

  /** A page opened for one slice. */
  function OnePage(s: Pool, lifetime: string, size: nat): Page {
    Page(s.nextPage, lifetime, PAGE, size, [Slice(s.nextPage, 0, size, size, 1)], {})
  }

  function WithPage(s: Pool, p: Page, peak: nat): Pool {
    s.(pages := s.pages + [p], nextPage := s.nextPage + 1, created := s.created + 1, peakActive := peak)
  }

  /** Allocating where no page suits and every page is owned: one more page if the budget has it. */
  lemma AllocateFresh(s: Pool, size: nat, lifetime: string, count: nat, tail: nat)
    requires LongPages(s.pages, s.nextPage, count, tail) && s.pageSize == PAGE && s.quotas == map[]
    requires Align(size) == Some(size) && size <= PAGE && lifetime in {"long", "short"}
    requires forall i | 0 <= i < count :: !Suits(s, s.pages[i], lifetime, size)
    ensures var o := Allocate(s, size, lifetime);
      if (count + 1) * PAGE <= s.cap then
        && o.reply == Granted(OnePage(s, lifetime, size).slices[0])
        && o.pool == WithPage(s, OnePage(s, lifetime, size), o.pool.peakActive)
      else o == Outcome(s.(rejected := s.rejected + 1), Rejected)
  {
    OpenFresh(s, size, lifetime, count, tail);
    AllocateOpens(s, size, lifetime);
  }

  lemma OpenFresh(s: Pool, size: nat, lifetime: string, count: nat, tail: nat)
    requires LongPages(s.pages, s.nextPage, count, tail) && s.pageSize == PAGE && s.quotas == map[]
    requires 0 < size <= PAGE && lifetime in {"long", "short"}
    ensures var o := OpenPage(s, size, lifetime, size);
      if (count + 1) * PAGE <= s.cap then
        && o.reply == Granted(OnePage(s, lifetime, size).slices[0])
        && o.pool == WithPage(s, OnePage(s, lifetime, size), o.pool.peakActive)
      else o == Outcome(s.(rejected := s.rejected + 1), Rejected)
  {
    LongBytes(s.pages);
    PageForSlice(s, size);
    if (count + 1) * PAGE <= s.cap {
      var a := AddPage(s, lifetime, PAGE);
      var o := Place(a, count, size, size);
      assert o.pool.pages[count].slices == OnePage(s, lifetime, size).slices;
      assert o.pool.pages[count] == OnePage(s, lifetime, size);
      assert o.pool.pages == s.pages + [OnePage(s, lifetime, size)];
    }
  }

  lemma AllocateOpens(s: Pool, size: nat, lifetime: string)
    requires s.pageSize > 0 && Align(size) == Some(size)
    requires forall i | 0 <= i < |s.pages| :: Owned(s.pages[i]) && !Suits(s, s.pages[i], lifetime, size)
    ensures Allocate(s, size, lifetime) == OpenPage(s, size, lifetime, size)
  {
    AllOwnedKept(s.pages);
    assert s.retired + [] == s.retired;
    assert Collect(s) == s;
  }

  lemma PageForSlice(s: Pool, size: nat)
    requires s.pageSize == PAGE && 0 < size <= PAGE
    ensures PageBytes(s, size) == PAGE
  {
  }

  /** Releasing a slice of the youngest page leaves the older pages alone. */
  lemma ReleaseYoungest(pages: seq<Page>, last: Page, nextPage: int, count: nat, tail: nat, offset: nat)
    requires LongPages(pages, nextPage, count, tail) && last.identity >= nextPage
    ensures ReownPages(pages + [last], Handle(last.identity, offset), -1)
         == pages + [last.(slices := Reown(last.slices, Handle(last.identity, offset), -1))]
  {
    var h := Handle(last.identity, offset);
    forall i | 0 <= i < |pages| ensures Reown(pages[i].slices, h, -1) == pages[i].slices {
    }
  }

  /** One cycle: anchor, bulk, release the bulk, collect. The flag is false when an allocation is refused. */
  function Cycle(s: Pool): (Pool, bool)
    requires s.pageSize > 0
    ensures Cycle(s).0.pageSize == s.pageSize
  {
    var anchor := Allocate(s, ALIGN, "long");
    var bulk := Allocate(anchor.pool, BULK, "short");
    if !anchor.reply.Granted? || !bulk.reply.Granted? then (bulk.pool, false)
    else (GiveBack(bulk.pool, bulk.reply.slice), true)
  }

  function GiveBack(s: Pool, slice: Slice): Pool {
    Collect(Release(s, Handle(slice.page, slice.offset)).pool)
  }

  // The mixed pool

  /** After i cycles the mixed pool holds i full pages, each pinned by its anchor. */
  predicate MixedAfter(s: Pool, i: nat, cap: int) {
    Shared(s, false, cap) && LongPages(s.pages, s.nextPage, i, PAGE)
  }

  function FullPage(n: int, bulkOwners: nat): Page {
    Page(n, "long", PAGE, PAGE, [Slice(n, 0, ALIGN, ALIGN, 1), Slice(n, ALIGN, BULK, BULK, bulkOwners)], {})
  }

  lemma MixedBulk(s: Pool, a: Pool, i: nat, cap: int)
    requires MixedAfter(s, i, cap) && a == WithPage(s, OnePage(s, "long", ALIGN), a.peakActive)
    ensures Allocate(a, BULK, "short")
         == Outcome(a.(pages := s.pages + [FullPage(s.nextPage, 1)]), Granted(FullPage(s.nextPage, 1).slices[1]))
  {
    assert Suits(a, a.pages[i], "short", BULK);
    assert Fit(a, a.pages, "short", BULK) == Some(i);
    var b := Place(a, i, BULK, BULK).pool;
    assert b.pages[i].slices == FullPage(s.nextPage, 1).slices;
    assert b.pages[i] == FullPage(s.nextPage, 1);
    assert b.pages == s.pages + [FullPage(s.nextPage, 1)];
  }

  lemma MixedGiveBack(b: Pool, pages: seq<Page>, n: int, i: nat, cap: int)
    requires Shared(b, false, cap) && b.pages == pages + [FullPage(n, 1)] && n < b.nextPage
    requires LongPages(pages, n, i, PAGE)
    ensures MixedAfter(GiveBack(b, FullPage(n, 1).slices[1]), i + 1, cap)
  {
    var h := Handle(n, ALIGN);
    assert Names(h, b.pages[i].slices[1]);
    ReleaseYoungest(pages, FullPage(n, 1), n, i, PAGE, ALIGN);
    var r := Release(b, h).pool;
    var last := r.pages[i];
    assert last.slices[0].owners == 1;
    assert LongPage(last, b.nextPage, PAGE);
    AllOwnedKept(r.pages);
  }

  lemma MixedCycle(s: Pool, i: nat, cap: int)
    requires MixedAfter(s, i, cap)
    ensures Cycle(s).1 <==> (i + 1) * PAGE <= cap
    ensures Cycle(s).1 ==> MixedAfter(Cycle(s).0, i + 1, cap)
    ensures !Cycle(s).1 ==> MixedAfter(Cycle(s).0, i, cap)
  {
    hide Allocate, GiveBack;
    AllocateFresh(s, ALIGN, "long", i, PAGE);
    var anchor := Allocate(s, ALIGN, "long");
    if (i + 1) * PAGE <= cap {
      MixedBulk(s, anchor.pool, i, cap);
      MixedGiveBack(Allocate(anchor.pool, BULK, "short").pool, s.pages, s.nextPage, i, cap);
    } else {
      AllocateFresh(anchor.pool, BULK, "short", i, PAGE);
    }
  }

  // The grouped pool

  /** The pages that i anchors fill. */
  function AnchorPages(i: nat): nat {
    (i + ANCHORS - 1) / ANCHORS
  }

  /** The cap has room for the pages of i anchors and one page more. */
  predicate Roomy(i: nat, cap: int) {
    (AnchorPages(i) + 1) * PAGE <= cap
  }

  lemma AnchorPagesStep(i: nat)
    ensures AnchorPages(i + 1) == AnchorPages(i) + if i * ALIGN == AnchorPages(i) * PAGE then 1 else 0
    ensures i * ALIGN <= AnchorPages(i) * PAGE < i * ALIGN + PAGE
    ensures i * ALIGN == AnchorPages(i) * PAGE || i * ALIGN + ALIGN <= AnchorPages(i) * PAGE
    ensures AnchorPages(i) <= AnchorPages(i + 1)
  {
    hide AnchorPages;
    AnchorPagesIs(i);
    var n := AnchorPages(i);
    if i == ANCHORS * n {
      AnchorPagesAre(i + 1, n + 1);
    } else {
      AnchorPagesAre(i + 1, n);
    }
  }

  lemma AnchorPagesIs(i: nat)
    ensures i <= ANCHORS * AnchorPages(i) < i + ANCHORS
  {
    var n := AnchorPages(i);
    AtMostQuotient(n, ANCHORS, i + ANCHORS - 1);
    AtMostQuotient(n + 1, ANCHORS, i + ANCHORS - 1);
    hide AnchorPages;
  }

  lemma AnchorPagesAre(i: nat, n: nat)
    requires i <= ANCHORS * n < i + ANCHORS
    ensures AnchorPages(i) == n
  {
    AtMostQuotient(n, ANCHORS, i + ANCHORS - 1);
    AtMostQuotient(n + 1, ANCHORS, i + ANCHORS - 1);
  }

  /** After i cycles the grouped pool holds only the anchors, packed. */
  predicate GroupedAfter(s: Pool, i: nat, cap: int) {
    && Shared(s, true, cap)
    && AnchorPages(i) * PAGE - i * ALIGN <= PAGE
    && LongPages(s.pages, s.nextPage, AnchorPages(i), PAGE - (AnchorPages(i) * PAGE - i * ALIGN))
  }

  lemma GroupedJoin(s: Pool, i: nat, cap: int)
    requires GroupedAfter(s, i, cap) && i * ALIGN + ALIGN <= AnchorPages(i) * PAGE
    ensures Allocate(s, ALIGN, "long").reply.Granted? && GroupedAfter(Allocate(s, ALIGN, "long").pool, i + 1, cap)
  {
    AnchorPagesStep(i);
    var last := AnchorPages(i) - 1;
    assert Suits(s, s.pages[last], "long", ALIGN);
    assert Fit(s, s.pages, "long", ALIGN) == Some(last);
    var t := Allocate(s, ALIGN, "long").pool;
    assert t.pages[last].slices[|s.pages[last].slices|].owners == 1;
    assert LongPage(t.pages[last], t.nextPage, s.pages[last].used + ALIGN);
  }

  lemma GroupedOpen(s: Pool, i: nat, cap: int)
    requires GroupedAfter(s, i, cap) && i * ALIGN == AnchorPages(i) * PAGE
    ensures var o := Allocate(s, ALIGN, "long");
      if Roomy(i, cap) then o.reply.Granted? && GroupedAfter(o.pool, i + 1, cap)
      else o.reply.Rejected? && GroupedAfter(o.pool, i, cap)
  {
    OneMoreAnchorPage(i);
    AllocateFresh(s, ALIGN, "long", AnchorPages(i), PAGE);
    LongPagesAppend(s, OnePage(s, "long", ALIGN), AnchorPages(i));
  }

  lemma OneMoreAnchorPage(i: nat)
    requires i * ALIGN == AnchorPages(i) * PAGE
    ensures AnchorPages(i + 1) == AnchorPages(i) + 1
    ensures AnchorPages(i + 1) * PAGE - (i + 1) * ALIGN == PAGE - ALIGN
    ensures AnchorPages(i) * PAGE - i * ALIGN == 0
  {
    AnchorPagesStep(i);
  }

  lemma LongPagesAppend(s: Pool, p: Page, count: nat)
    requires LongPages(s.pages, s.nextPage, count, PAGE) && p == OnePage(s, "long", ALIGN)
    ensures LongPages(s.pages + [p], s.nextPage + 1, count + 1, ALIGN)
  {
    assert p.slices[0].owners == 1;
    assert LongPage(p, s.nextPage + 1, ALIGN);
  }

  /** The bulk slice always needs a page of its own, and gives it back. */
  lemma GroupedBulk(s: Pool, i: nat, cap: int)
    requires GroupedAfter(s, i, cap)
    ensures var o := Allocate(s, BULK, "short");
      if Roomy(i, cap) then o.reply.Granted? && GroupedAfter(GiveBack(o.pool, o.reply.slice), i, cap)
      else o.reply.Rejected? && GroupedAfter(o.pool, i, cap)
  {
    hide Allocate, AnchorPages;
    var n := AnchorPages(i);
    var tail := PAGE - (n * PAGE - i * ALIGN);
    AllocateFresh(s, BULK, "short", n, tail);
    var o := Allocate(s, BULK, "short");
    if (n + 1) * PAGE <= cap {
      var p := OnePage(s, "short", BULK);
      var h := Handle(s.nextPage, 0);
      assert Names(h, o.pool.pages[n].slices[0]);
      ReleaseYoungest(s.pages, p, s.nextPage, n, tail, 0);
      var last := Release(o.pool, h).pool.pages[n];
      assert |last.slices| == 1 && last.slices[0].owners == 0;
      LastUnownedDropped(s.pages, last);
    }
  }

  /** A cycle that fails has still taken its anchor, unless the cap does not hold a single page. */
  lemma GroupedCycle(s: Pool, i: nat, cap: int)
    requires GroupedAfter(s, i, cap) && (i > 0 ==> Roomy(i, cap))
    ensures Cycle(s).1 <==> Roomy(i + 1, cap)
    ensures GroupedAfter(Cycle(s).0, if cap >= PAGE then i + 1 else i, cap)
  {
    assert s.pageSize > 0;
    hide GroupedAfter, Allocate, GiveBack, Roomy, AnchorPages;
    RoomyMeansPage(i, cap);
    RoomyMeansPage(i + 1, cap);
    GroupedAnchor(s, i, cap);
    GroupedBulk(Allocate(s, ALIGN, "long").pool, if cap >= PAGE then i + 1 else i, cap);
  }

  lemma RoomyMeansPage(i: nat, cap: int)
    ensures Roomy(i, cap) ==> cap >= PAGE
  {
  }

  lemma GroupedAnchor(s: Pool, i: nat, cap: int)
    requires GroupedAfter(s, i, cap) && (i > 0 ==> Roomy(i, cap))
    ensures Allocate(s, ALIGN, "long").reply.Granted? <==> cap >= PAGE
    ensures GroupedAfter(Allocate(s, ALIGN, "long").pool, if cap >= PAGE then i + 1 else i, cap)
  {
    AnchorPagesStep(i);
    if i * ALIGN == AnchorPages(i) * PAGE {
      GroupedOpen(s, i, cap);
    } else {
      GroupedJoin(s, i, cap);
    }
    hide GroupedAfter, Allocate;
  }

  // The scenario

  function NextAccepted(s: Pool): bool
    requires s.pageSize > 0
  {
    Allocate(s, 512 * 1024, "short").reply.Granted?
  }

  lemma MixedNext(s: Pool, i: nat, cap: int)
    requires MixedAfter(s, i, cap)
    ensures NextAccepted(s) <==> (i + 1) * PAGE <= cap
  {
    AllocateFresh(s, 512 * 1024, "short", i, PAGE);
  }

  lemma GroupedNext(s: Pool, i: nat, cap: int)
    requires GroupedAfter(s, i, cap)
    ensures NextAccepted(s) <==> Roomy(i, cap)
  {
    var n := AnchorPages(i);
    AllocateFresh(s, 512 * 1024, "short", n, PAGE - (n * PAGE - i * ALIGN));
  }

  lemma CyclesThatFit(i: nat, count: nat, cap: int)
    requires i * PAGE <= AtLeastZero(cap) && i <= count
    requires i == count || (i + 1) * PAGE > cap
    ensures i == Smaller(count, AtLeastZero(cap) / PAGE)
  {
    AtMostQuotient(i, PAGE, AtLeastZero(cap));
    AtMostQuotient(i + 1, PAGE, AtLeastZero(cap));
  }

  /** The mixed scenario in closed form: min(count, cap / PAGE) cycles complete, each pinning a full page, and the
      next request is refused exactly when no further page fits the cap. */
  method MixedScenario(cap: int, count: nat) returns (completed: nat, final: Pool, accepted: bool)
    ensures completed == Smaller(count, AtLeastZero(cap) / PAGE)
    ensures MixedAfter(final, completed, cap)
    ensures accepted <==> (completed + 1) * PAGE <= cap
  {
    final := Empty(cap, PAGE, false, map[]);
    completed := 0;
    while completed < count
      invariant completed <= count && completed * PAGE <= AtLeastZero(cap)
      invariant MixedAfter(final, completed, cap)
    {
      MixedCycle(final, completed, cap);
      var (next, ok) := Cycle(final);
      final := next;
      if !ok {
        break;
      }
      completed := completed + 1;
    }
    CyclesThatFit(completed, count, cap);
    MixedNext(final, completed, cap);
    accepted := NextAccepted(final);
  }

  /** How many grouped cycles a cap allows: one page less than it holds, each packed with anchors. */
  function GroupedCycles(count: nat, cap: int): nat {
    Smaller(count, AtLeastZero(AtLeastZero(cap) / PAGE - 1) * ANCHORS)
  }

  lemma RoomyIff(i: nat, cap: int)
    ensures Roomy(i, cap) <==> PAGE <= cap && i <= AtLeastZero(AtLeastZero(cap) / PAGE - 1) * ANCHORS
  {
    hide AnchorPages;
    AnchorPagesIs(i);
    AtMostQuotient(AnchorPages(i) + 1, PAGE, AtLeastZero(cap));
    AtMostQuotient(1, PAGE, AtLeastZero(cap));
  }

  /** The grouped scenario in closed form. The cap keeps one page for the bulk slices and packs 65536 anchors into each of
      the others; the next request is accepted exactly when every cycle completed and the cap is still roomy. */
  method GroupedScenario(cap: int, count: nat) returns (completed: nat, final: Pool, accepted: bool)
    ensures completed == GroupedCycles(count, cap)
    ensures GroupedAfter(final, if completed < count && cap >= PAGE then completed + 1 else completed, cap)
    ensures accepted <==> completed == count && Roomy(count, cap)
  {
    final := Empty(cap, PAGE, true, map[]);
    completed := 0;
    while completed < count
      invariant completed <= count && (completed > 0 ==> Roomy(completed, cap))
      invariant GroupedAfter(final, completed, cap)
    {
      var ok;
      final, ok := RunGroupedCycle(final, completed, cap);
      if !ok {
        break;
      }
      completed := completed + 1;
    }
    hide GroupedAfter;
    RoomyIff(completed, cap);
    RoomyIff(completed + 1, cap);
    GroupedNext(final, if completed < count && cap >= PAGE then completed + 1 else completed, cap);
    accepted := NextAccepted(final);
  }

  method RunGroupedCycle(s: Pool, i: nat, cap: int) returns (t: Pool, ok: bool)
    requires GroupedAfter(s, i, cap) && (i > 0 ==> Roomy(i, cap))
    ensures ok <==> Roomy(i + 1, cap)
    ensures GroupedAfter(t, if ok || cap >= PAGE then i + 1 else i, cap)
  {
    assert s.pageSize > 0;
    hide GroupedAfter, Allocate, GiveBack, AnchorPages;
    RoomyMeansPage(i + 1, cap);
    GroupedCycle(s, i, cap);
    hide Roomy;
    var cycle := Cycle(s);
    t, ok := cycle.0, cycle.1;
  }
}
