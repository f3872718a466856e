/** The pool as the source runs it: fields reassigned in place and explicit walks over the page list. Each method is
    proved against the transition of SnapshotPool, so the object keeps Inv and everything SnapshotSafety proves. */
module SnapshotPoolModel {
  import opened Wrappers
  import opened SnapshotPool

  class PagePool {
    const cap: int
    const pageSize: nat
    const grouped: bool
    const quotas: map<string, int>
    var pages: seq<Page>
    var retired: seq<Page>
    var nextPage: int
    var peakActive: nat
    var created: nat
    var reclaimed: nat
    var rejected: nat

    function Abs(): Pool
      reads this
    {
      Pool(cap, pageSize, grouped, quotas, pages, retired, nextPage, peakActive, created, reclaimed, rejected)
    }

    constructor (cap: int, pageSize: nat, grouped: bool, quotas: map<string, int>)
      ensures Abs() == Empty(cap, pageSize, grouped, quotas)
    {
      this.cap, this.pageSize, this.grouped, this.quotas := cap, pageSize, grouped, quotas;
      pages, retired := [], [];
      nextPage := 1;
      peakActive, created, reclaimed, rejected := 0, 0, 0, 0;
    }

    /** The youngest page that can take the slice. */
    method FindFit(lifetime: string, capacity: nat) returns (found: Option<nat>)
      ensures found == Fit(Abs(), pages, lifetime, capacity)
    {
      var i := |pages|;
      while i > 0
        invariant 0 <= i <= |pages|
        invariant Fit(Abs(), pages, lifetime, capacity) == Fit(Abs(), pages[..i], lifetime, capacity)
      {
        i := i - 1;
        assert pages[..i + 1][..i] == pages[..i];
        if grouped && pages[i].lifetime != lifetime {
          continue;
        }
        if capacity <= pages[i].capacity - pages[i].used {
          return Some(i);
        }
      }
      return None;
    }

    method Allocate(requested: int, lifetime: string) returns (reply: Reply)
      requires pageSize > 0
      modifies this
      ensures Outcome(Abs(), reply) == SnapshotPool.Allocate(old(Abs()), requested, lifetime)
    {
      var aligned := Align(requested);
      if aligned.None? {
        return Raised(ValueError);
      }
      var capacity := aligned.value;
      var index := FindFit(lifetime, capacity);
      if index.None? {
        Collect();
        index := FindFit(lifetime, capacity);
      }
      if index.Some? {
        reply := PlaceIn(index.value, requested, capacity);
      } else {
        reply := Open(requested, lifetime, capacity);
      }
    }

    method PlaceIn(index: nat, requested: int, capacity: nat) returns (reply: Reply)
      requires index < |pages|
      modifies this`pages
      ensures Outcome(Abs(), reply) == Place(old(Abs()), index, requested, capacity)
    {
      var page := pages[index];
      var slice := Slice(page.identity, page.used, requested, capacity, 1);
      pages := pages[index := page.(used := page.used + capacity, slices := page.slices + [slice])];
      return Granted(slice);
    }

    method Open(requested: int, lifetime: string, capacity: nat) returns (reply: Reply)
      requires pageSize > 0
      modifies this
      ensures Outcome(Abs(), reply) == OpenPage(old(Abs()), requested, lifetime, capacity)
    {
      var bytes := (capacity + pageSize - 1) / pageSize * pageSize;
      var resident, classBytes := Totals(lifetime);
      var quota := if lifetime in quotas then quotas[lifetime] else cap;
      if bytes > cap - resident || bytes > quota - classBytes {
        rejected := rejected + 1;
        return Rejected;
      }
      pages := pages + [Page(nextPage, lifetime, bytes, 0, [], {})];
      nextPage := nextPage + 1;
      created := created + 1;
      if resident + bytes > peakActive {
        peakActive := resident + bytes;
      }
      reply := PlaceIn(|pages| - 1, requested, capacity);
    }

    method Totals(lifetime: string) returns (resident: nat, classBytes: nat)
      ensures resident == Bytes(pages) && classBytes == ClassBytes(pages, lifetime)
    {
      resident, classBytes := 0, 0;
      for i := 0 to |pages|
        invariant resident == Bytes(pages[..i]) && classBytes == ClassBytes(pages[..i], lifetime)
      {
        assert pages[..i + 1][..i] == pages[..i];
        resident := resident + pages[i].capacity;
        if pages[i].lifetime == lifetime {
          classBytes := classBytes + pages[i].capacity;
        }
      }
      assert pages[..|pages|] == pages;
    }

    /** Keeps the owned pages; of the others, those in GPU use are retired. */
    method Collect()
      modifies this`pages, this`retired, this`reclaimed
      ensures Abs() == SnapshotPool.Collect(old(Abs()))
    {
      var kept: seq<Page> := [];
      ghost var gone: seq<Page> := [];
      var n := |pages|;
      for i := 0 to n
        invariant pages == old(pages) && n == |pages|
        invariant kept == Kept(pages[..i]) && gone == Retained(pages[..i])
        invariant retired == old(retired) + gone && reclaimed == old(reclaimed) + i - |kept|
      {
        assert pages[..i + 1][..i] == pages[..i];
        if Owned(pages[i]) {
          kept := kept + [pages[i]];
        } else {
          reclaimed := reclaimed + 1;
          if pages[i].gpuUses != {} {
            retired := retired + [pages[i]];
            gone := gone + [pages[i]];
          }
        }
      }
      assert pages[..n] == pages;
      pages := kept;
    }

    method Alias(h: Handle) returns (reply: Reply)
      modifies this`pages
      ensures Outcome(Abs(), reply) == SnapshotPool.Alias(old(Abs()), h)
    {
      if !Live(Abs(), h) {
        return Raised(AssertionError);
      }
      pages := ReownPages(pages, h, 1);
      return Done;
    }

    method Release(h: Handle) returns (reply: Reply)
      modifies this`pages
      ensures Outcome(Abs(), reply) == SnapshotPool.Release(old(Abs()), h)
    {
      if !Live(Abs(), h) {
        return Raised(AssertionError);
      }
      pages := ReownPages(pages, h, -1);
      return Done;
    }

    method Submit(h: Handle, completion: int) returns (reply: Reply)
      modifies this`pages
      ensures Outcome(Abs(), reply) == SnapshotPool.Submit(old(Abs()), h, completion)
    {
      if completion <= 0 {
        return Raised(AssertionError);
      }
      var at := FindPage(h.page);
      if at.None? {
        return Raised(StopIteration);
      }
      var page := pages[at.value];
      pages := pages[at.value := page.(gpuUses := page.gpuUses + {completion})];
      return Done;
    }

    method FindPage(identity: int) returns (found: Option<nat>)
      ensures found == Find(pages, identity)
    {
      for i := 0 to |pages|
        invariant forall j | 0 <= j < i :: pages[j].identity != identity
      {
        if pages[i].identity == identity {
          return Some(i);
        }
      }
      return None;
    }

    method Complete(completion: int)
      modifies this`pages, this`retired
      ensures Abs() == SnapshotPool.Complete(old(Abs()), completion)
    {
      pages := OutstandingPages(pages, completion);
      retired := OutstandingPages(retired, completion);
      DropFinished();
    }

    /** Drops the retired pages no GPU use is left on. */
    method DropFinished()
      modifies this`retired
      ensures retired == InUse(old(retired))
    {
      var left: seq<Page> := [];
      for i := 0 to |retired|
        invariant retired == old(retired)
        invariant left == InUse(retired[..i])
      {
        assert retired[..i + 1][..i] == retired[..i];
        if retired[i].gpuUses != {} {
          left := left + [retired[i]];
        }
      }
      assert retired[..|retired|] == retired;
      retired := left;
    }
  }
}
