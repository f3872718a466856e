/** The Stage11 snapshot page pool: aligned bump allocation into pages of one lifetime, a cap and class quotas
    on active bytes, whole-page collection once no CPU owner is left, and backing retained for the GPU. */
module SnapshotPool {
  import opened Wrappers

  const MIB := 1024 * 1024
  const ALIGN := 256
  const PAGE := 16 * MIB
  const U64_MAX := 0xFFFF_FFFF_FFFF_FFFF

  /** Rounds a byte request up to the slice alignment; None where the source raises. */
  function Align(value: int): Option<nat> {
    if value <= 0 || value > U64_MAX - (ALIGN - 1) then None
    else Some((value + ALIGN - 1) / ALIGN * ALIGN)
  }

  /** Align yields the least multiple of the alignment that holds the request. */
  lemma AlignIsLeast(value: int, other: nat)
    requires Align(value).Some? && other % ALIGN == 0 && value <= other
    ensures value <= Align(value).value <= other && Align(value).value % ALIGN == 0
    ensures Align(value).value <= U64_MAX
  {
    var k := (value + ALIGN - 1) / ALIGN;
    assert k <= other / ALIGN;
  }

  datatype Slice = Slice(page: int, offset: nat, requested: int, capacity: nat, owners: nat)

  datatype Page = Page(identity: int, lifetime: string, capacity: nat, used: nat, slices: seq<Slice>,
                       gpuUses: set<int>)

  datatype Pool = Pool(cap: int, pageSize: nat, grouped: bool, quotas: map<string, int>,
                       pages: seq<Page>, retired: seq<Page>, nextPage: int,
                       peakActive: nat, created: nat, reclaimed: nat, rejected: nat)
  {
    function Quota(lifetime: string): int {
      if lifetime in quotas then quotas[lifetime] else cap
    }
  }

  datatype Error = ValueError | AssertionError | StopIteration

  datatype Reply = Done | Granted(slice: Slice) | Rejected | Raised(error: Error)

  datatype Outcome = Outcome(pool: Pool, reply: Reply)

  function Empty(cap: int, pageSize: nat, grouped: bool, quotas: map<string, int>): Pool {
    Pool(cap, pageSize, grouped, quotas, [], [], 1, 0, 0, 0, 0)
  }

  // Sums over pages and slices

  function Bytes(pages: seq<Page>): nat {
    if pages == [] then 0 else Bytes(pages[..|pages| - 1]) + pages[|pages| - 1].capacity
  }

  function ClassBytes(pages: seq<Page>, lifetime: string): nat {
    if pages == [] then 0
    else var p := pages[|pages| - 1];
      ClassBytes(pages[..|pages| - 1], lifetime) + if p.lifetime == lifetime then p.capacity else 0
  }

  function Extent(slices: seq<Slice>): nat {
    if slices == [] then 0 else Extent(slices[..|slices| - 1]) + slices[|slices| - 1].capacity
  }

  predicate Owned(p: Page) {
    exists i | 0 <= i < |p.slices| :: p.slices[i].owners > 0
  }

  // Collecting

  function Select(pages: seq<Page>, keep: Page -> bool): (r: seq<Page>)
    ensures |r| <= |pages|
  {
    if pages == [] then []
    else var n := |pages| - 1;
      Select(pages[..n], keep) + if keep(pages[n]) then [pages[n]] else []
  }

  function Kept(pages: seq<Page>): seq<Page> {
    Select(pages, p => Owned(p))
  }

  /** Pages no CPU owner holds, but the GPU still does. */
  function Retained(pages: seq<Page>): seq<Page> {
    Select(pages, (p: Page) => !Owned(p) && p.gpuUses != {})
  }

  function Collect(s: Pool): Pool {
    var kept := Kept(s.pages);
    s.(pages := kept, retired := s.retired + Retained(s.pages), reclaimed := s.reclaimed + |s.pages| - |kept|)
  }

  // Allocating

  predicate Suits(s: Pool, p: Page, lifetime: string, capacity: nat) {
    (s.grouped ==> p.lifetime == lifetime) && p.used + capacity <= p.capacity
  }

  /** The youngest page that can take the slice. */
  function Fit(s: Pool, pages: seq<Page>, lifetime: string, capacity: nat): (r: Option<nat>)
    ensures r.Some? ==> r.value < |pages| && Suits(s, pages[r.value], lifetime, capacity)
    ensures forall j | 0 <= j < |pages| && (r.Some? ==> j > r.value) :: !Suits(s, pages[j], lifetime, capacity)
  {
    if pages == [] then None
    else var n := |pages| - 1;
      if Suits(s, pages[n], lifetime, capacity) then Some(n) else Fit(s, pages[..n], lifetime, capacity)
  }

  function Place(s: Pool, index: nat, requested: int, capacity: nat): Outcome
    requires index < |s.pages|
  {
    var p := s.pages[index];
    var slice := Slice(p.identity, p.used, requested, capacity, 1);
    Outcome(s.(pages := s.pages[index := p.(used := p.used + capacity, slices := p.slices + [slice])]), Granted(slice))
  }

  function PageBytes(s: Pool, capacity: nat): nat
    requires s.pageSize > 0
  {
    (capacity + s.pageSize - 1) / s.pageSize * s.pageSize
  }

  predicate NoRoom(s: Pool, lifetime: string, bytes: nat) {
    bytes > s.cap - Bytes(s.pages) || bytes > s.Quota(lifetime) - ClassBytes(s.pages, lifetime)
  }

  function AddPage(s: Pool, lifetime: string, bytes: nat): Pool {
    var active := Bytes(s.pages) + bytes;
    s.(pages := s.pages + [Page(s.nextPage, lifetime, bytes, 0, [], {})], nextPage := s.nextPage + 1,
       created := s.created + 1, peakActive := if active > s.peakActive then active else s.peakActive)
  }

  function OpenPage(s: Pool, requested: int, lifetime: string, capacity: nat): Outcome
    requires s.pageSize > 0
  {
    var bytes := PageBytes(s, capacity);
    if NoRoom(s, lifetime, bytes) then Outcome(s.(rejected := s.rejected + 1), Rejected)
    else Place(AddPage(s, lifetime, bytes), |s.pages|, requested, capacity)
  }

  function Allocate(s: Pool, requested: int, lifetime: string): (o: Outcome)
    requires s.pageSize > 0
    ensures o.pool.pageSize == s.pageSize
  {
    match Align(requested)
    case None => Outcome(s, Raised(ValueError))
    case Some(capacity) =>
      var first := Fit(s, s.pages, lifetime, capacity);
      if first.Some? then Place(s, first.value, requested, capacity)
      else
        var c := Collect(s);
        var second := Fit(c, c.pages, lifetime, capacity);
        if second.Some? then Place(c, second.value, requested, capacity)
        else OpenPage(c, requested, lifetime, capacity)
  }

  // Owners and GPU uses. A slice is named by its page and its offset.

  datatype Handle = Handle(page: int, offset: nat)

  predicate Names(h: Handle, slice: Slice) {
    slice.page == h.page && slice.offset == h.offset
  }

  function Reown(slices: seq<Slice>, h: Handle, change: int): (r: seq<Slice>)
    ensures |r| == |slices|
  {
    seq(|slices|, i requires 0 <= i < |slices| =>
      var sl := slices[i];
      if Names(h, sl) && sl.owners + change >= 0 then sl.(owners := sl.owners + change) else sl)
  }

  function ReownPages(pages: seq<Page>, h: Handle, change: int): (r: seq<Page>)
    ensures |r| == |pages|
  {
    seq(|pages|, i requires 0 <= i < |pages| => pages[i].(slices := Reown(pages[i].slices, h, change)))
  }

  /** Some active page holds the slice with an owner left. */
  predicate Live(s: Pool, h: Handle) {
    exists i, j | 0 <= i < |s.pages| && 0 <= j < |s.pages[i].slices| ::
      Names(h, s.pages[i].slices[j]) && s.pages[i].slices[j].owners > 0
  }

  function Alias(s: Pool, h: Handle): Outcome {
    if Live(s, h) then Outcome(s.(pages := ReownPages(s.pages, h, 1)), Done) else Outcome(s, Raised(AssertionError))
  }

  function Release(s: Pool, h: Handle): Outcome {
    if Live(s, h) then Outcome(s.(pages := ReownPages(s.pages, h, -1)), Done) else Outcome(s, Raised(AssertionError))
  }

  /** The first page with this identity. */
  function Find(pages: seq<Page>, identity: int): (r: Option<nat>)
    ensures r.Some? ==> r.value < |pages| && pages[r.value].identity == identity
    ensures forall j | 0 <= j < |pages| && (r.Some? ==> j < r.value) :: pages[j].identity != identity
  {
    if pages == [] then None
    else
      var n := |pages| - 1;
      var earlier := Find(pages[..n], identity);
      if earlier.Some? then earlier else if pages[n].identity == identity then Some(n) else None
  }

  function Submit(s: Pool, h: Handle, completion: int): Outcome {
    if completion <= 0 then Outcome(s, Raised(AssertionError))
    else
      var at := Find(s.pages, h.page);
      if at.None? then Outcome(s, Raised(StopIteration))
      else
        var p := s.pages[at.value];
        Outcome(s.(pages := s.pages[at.value := p.(gpuUses := p.gpuUses + {completion})]), Done)
  }

  function Outstanding(p: Page, completion: int): Page {
    p.(gpuUses := set u | u in p.gpuUses && u > completion)
  }

  function OutstandingPages(pages: seq<Page>, completion: int): (r: seq<Page>)
    ensures |r| == |pages|
  {
    seq(|pages|, i requires 0 <= i < |pages| => Outstanding(pages[i], completion))
  }

  function InUse(pages: seq<Page>): seq<Page> {
    Select(pages, (p: Page) => p.gpuUses != {})
  }

  function Complete(s: Pool, completion: int): Pool {
    s.(pages := OutstandingPages(s.pages, completion),
       retired := InUse(OutstandingPages(s.retired, completion)))
  }

  // Runs

  datatype Op =
    | OpAllocate(requested: int, lifetime: string)
    | OpAlias(handle: Handle)
    | OpRelease(handle: Handle)
    | OpSubmit(handle: Handle, completion: int)
    | OpComplete(completion: int)
    | OpCollect

  function Step(s: Pool, op: Op): Outcome
    requires s.pageSize > 0
  {
    match op
    case OpAllocate(n, l) => Allocate(s, n, l)
    case OpAlias(h) => Alias(s, h)
    case OpRelease(h) => Release(s, h)
    case OpSubmit(h, c) => Submit(s, h, c)
    case OpComplete(c) => Outcome(Complete(s, c), Done)
    case OpCollect => Outcome(Collect(s), Done)
  }

  lemma StepKeepsShape(s: Pool, op: Op)
    requires s.pageSize > 0
    ensures var t := Step(s, op).pool;
      t.cap == s.cap && t.pageSize == s.pageSize && t.grouped == s.grouped && t.quotas == s.quotas
  {
    hide Fit, Select, Kept, Retained, Live, Find, ReownPages, OutstandingPages, InUse, NoRoom, PageBytes, Align;
  }

  function Run(s: Pool, ops: seq<Op>): Pool
    requires s.pageSize > 0
    decreases |ops|
  {
    if ops == [] then s
    else
      StepKeepsShape(s, ops[0]);
      Run(Step(s, ops[0]).pool, ops[1..])
  }
}
