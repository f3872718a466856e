/** Half-open index ranges handed to workers, and the check that they cover every index exactly once. */
module Coverage {
  import opened Wrappers

  datatype Range = Range(first: int, count: int) {
    function End(): int { first + count }
  }

  predicate InBounds(r: Range, n: nat) {
    r.first >= 0 && r.count > 0 && r.End() <= n
  }

  predicate Holds(r: Range, index: int) {
    r.first <= index < r.End()
  }

  /** How many of the ranges hold the index. */
  function Cover(ranges: seq<Range>, index: int): nat {
    if ranges == [] then 0
    else Cover(ranges[..|ranges| - 1], index) + if Holds(ranges[|ranges| - 1], index) then 1 else 0
  }

  ghost predicate ExactlyCovers(ranges: seq<Range>, n: nat) {
    && (forall k | 0 <= k < |ranges| :: InBounds(ranges[k], n))
    && (forall index | 0 <= index < n :: Cover(ranges, index) == 1)
  }

  method Mark(coverage: array<nat>, r: Range)
    requires InBounds(r, coverage.Length)
    modifies coverage
    ensures forall i | 0 <= i < coverage.Length :: coverage[i] == old(coverage[i]) + if Holds(r, i) then 1 else 0
  {
    for index := r.first to r.End()
      invariant forall i | 0 <= i < coverage.Length ::
          coverage[i] == old(coverage[i]) + if r.first <= i < index then 1 else 0
    {
      coverage[index] := coverage[index] + 1;
    }
  }

  /** Accepts exactly the lists of in-bounds ranges that hold every index once. */
  method ValidateExactCoverage(n: nat, ranges: seq<Range>) returns (ok: bool)
    ensures ok <==> ExactlyCovers(ranges, n)
  {
    var coverage := new nat[n](_ => 0);
    for k := 0 to |ranges|
      invariant forall j | 0 <= j < k :: InBounds(ranges[j], n)
      invariant forall i | 0 <= i < n :: coverage[i] == Cover(ranges[..k], i)
    {
      if !InBounds(ranges[k], n) {
        return false;
      }
      assert ranges[..k + 1][..k] == ranges[..k];
      Mark(coverage, ranges[k]);
    }
    assert ranges[..|ranges|] == ranges;
    ok := true;
    for i := 0 to n
      invariant ok <==> forall j | 0 <= j < i :: Cover(ranges, j) == 1
    {
      if coverage[i] != 1 {
        ok := false;
      }
    }
  }

  // Fixed-size chunks

  function ChunksFrom(first: nat, n: nat, chunk: nat): seq<Range>
    requires chunk > 0
    decreases n - first
  {
    if first >= n then []
    else [Range(first, if chunk <= n - first then chunk else n - first)] + ChunksFrom(first + chunk, n, chunk)
  }

  function MakeDisjointRanges(vertexCount: int, chunkVertices: int): Option<seq<Range>> {
    if vertexCount <= 0 || chunkVertices <= 0 then None else Some(ChunksFrom(0, vertexCount, chunkVertices))
  }

  lemma {:induction false} CoverSplits(a: seq<Range>, b: seq<Range>, index: int)
    ensures Cover(a + b, index) == Cover(a, index) + Cover(b, index)
  {
    if b == [] {
      assert a + b == a;
    } else {
      assert (a + b)[..|a + b| - 1] == a + b[..|b| - 1];
      CoverSplits(a, b[..|b| - 1], index);
    }
  }

  lemma {:induction false} ChunksCover(first: nat, n: nat, chunk: nat, index: int)
    requires chunk > 0
    ensures Cover(ChunksFrom(first, n, chunk), index) == if first <= index < n then 1 else 0
    ensures forall k | 0 <= k < |ChunksFrom(first, n, chunk)| :: InBounds(ChunksFrom(first, n, chunk)[k], n)
    decreases n - first
  {
    if first < n {
      var head := Range(first, if chunk <= n - first then chunk else n - first);
      ChunksCover(first + chunk, n, chunk, index);
      CoverSplits([head], ChunksFrom(first + chunk, n, chunk), index);
      assert Cover([head], index) == if Holds(head, index) then 1 else 0 by {
        assert [head][..0] == [];
      }
    }
  }

  /** The chunks cover every vertex exactly once, whatever the chunk size. */
  lemma DisjointRangesCover(vertexCount: int, chunkVertices: int)
    ensures var r := MakeDisjointRanges(vertexCount, chunkVertices);
      && (r.Some? <==> vertexCount > 0 && chunkVertices > 0)
      && (r.Some? ==> ExactlyCovers(r.value, vertexCount))
      && (r.Some? ==> forall k | 0 <= k < |r.value| :: r.value[k].count <= chunkVertices)
  {
    if vertexCount > 0 && chunkVertices > 0 {
      forall index | 0 <= index < vertexCount ensures Cover(ChunksFrom(0, vertexCount, chunkVertices), index) == 1 {
        ChunksCover(0, vertexCount, chunkVertices, index);
      }
      ChunksCover(0, vertexCount, chunkVertices, 0);
      ChunksAreSmall(0, vertexCount, chunkVertices);
    }
  }

  lemma {:induction false} ChunksAreSmall(first: nat, n: nat, chunk: nat)
    requires chunk > 0
    ensures forall k | 0 <= k < |ChunksFrom(first, n, chunk)| :: ChunksFrom(first, n, chunk)[k].count <= chunk
    decreases n - first
  {
    if first < n {
      ChunksAreSmall(first + chunk, n, chunk);
    }
  }

  // Contiguous ranges

  /** Each range starts where the previous one ended, from 0 up to `end`. */
  ghost predicate Chained(ranges: seq<Range>, end: int) {
    if ranges == [] then end == 0
    else
      var last := ranges[|ranges| - 1];
      last.count > 0 && last.End() == end && Chained(ranges[..|ranges| - 1], last.first)
  }

  lemma ChainedNext(ranges: seq<Range>, end: int, next: Range)
    requires Chained(ranges, end) && next.first == end && next.count > 0
    ensures Chained(ranges + [next], next.End())
  {
    assert (ranges + [next])[..|ranges|] == ranges;
  }

  /** The ranges before range k are contiguous too, and end where it starts. */
  lemma {:induction false} ChainedUpTo(ranges: seq<Range>, end: int, k: nat)
    requires Chained(ranges, end) && k < |ranges|
    ensures Chained(ranges[..k], ranges[k].first)
    ensures 0 <= ranges[k].first < ranges[k].End() <= end
    ensures ranges[k].End() == end <==> k == |ranges| - 1
  {
    var n := |ranges| - 1;
    ChainedNonNegative(ranges[..n], ranges[n].first);
    if k < n {
      ChainedUpTo(ranges[..n], ranges[n].first, k);
      assert ranges[..n][..k] == ranges[..k];
    }
  }

  lemma {:induction false} ChainedNonNegative(ranges: seq<Range>, end: int)
    requires Chained(ranges, end)
    ensures end >= 0
  {
    if ranges != [] {
      ChainedNonNegative(ranges[..|ranges| - 1], ranges[|ranges| - 1].first);
    }
  }

  lemma {:induction false} ChainedCovers(ranges: seq<Range>, end: int, index: int)
    requires Chained(ranges, end)
    ensures Cover(ranges, index) == if 0 <= index < end then 1 else 0
  {
    ChainedNonNegative(ranges, end);
    if ranges != [] {
      var n := |ranges| - 1;
      ChainedNonNegative(ranges[..n], ranges[n].first);
      ChainedCovers(ranges[..n], ranges[n].first, index);
    }
  }

  /** A contiguous partition covers exactly. */
  lemma ChainedIsExact(ranges: seq<Range>, n: nat)
    requires Chained(ranges, n)
    ensures ExactlyCovers(ranges, n)
  {
    forall index | 0 <= index < n ensures Cover(ranges, index) == 1 {
      ChainedCovers(ranges, n, index);
    }
    forall k | 0 <= k < |ranges| ensures InBounds(ranges[k], n) {
      ChainedUpTo(ranges, n, k);
    }
  }
}
