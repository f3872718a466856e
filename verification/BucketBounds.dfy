/** Vertex totals behind a job histogram: each job's vertex count is only known up to its bucket, and the bounds on
    what a chosen set of buckets can hold are shown to be exactly the attainable totals. */
module BucketBounds {
  import opened Arithmetic

  datatype Range = Range(lo: nat, hi: nat)

  const BUCKET_RANGES: seq<Range> := [
    Range(1, 64), Range(65, 192), Range(193, 448), Range(449, 960), Range(961, 1984), Range(1985, 4032),
    Range(4033, 8128), Range(8129, 16320), Range(16321, 16384)
  ]

  datatype Bounds = Bounds(lower: int, upper: int) | IndexError | ValueError

  // The histogram and the vertex counts it allows

  ghost predicate Ordered(ranges: seq<Range>) {
    forall i | 0 <= i < |ranges| :: ranges[i].lo <= ranges[i].hi
  }

  /** What the chosen ones of the first n buckets hold at least: every job at the low edge of its bucket. */
  function LeastOf(counts: seq<nat>, ranges: seq<Range>, chosen: set<nat>, n: nat): nat
    requires n <= |counts| && n <= |ranges|
  {
    if n == 0 then 0
    else LeastOf(counts, ranges, chosen, n - 1) + if n - 1 in chosen then counts[n - 1] * ranges[n - 1].lo else 0
  }

  function MostOf(counts: seq<nat>, ranges: seq<Range>, chosen: set<nat>, n: nat): nat
    requires n <= |counts| && n <= |ranges|
  {
    if n == 0 then 0
    else MostOf(counts, ranges, chosen, n - 1) + if n - 1 in chosen then counts[n - 1] * ranges[n - 1].hi else 0
  }

  /** One vertex count per job, bucket by bucket. */
  type Jobs = seq<seq<nat>>

  ghost predicate FitsBucket(jobs: seq<nat>, count: nat, range: Range) {
    |jobs| == count && forall j | 0 <= j < |jobs| :: range.lo <= jobs[j] <= range.hi
  }

  ghost predicate Fits(v: Jobs, counts: seq<nat>, ranges: seq<Range>)
    requires |counts| <= |ranges|
  {
    |v| == |counts| && forall i | 0 <= i < |v| :: FitsBucket(v[i], counts[i], ranges[i])
  }

  function TotalOf(v: Jobs, chosen: set<nat>, n: nat): nat
    requires n <= |v|
  {
    if n == 0 then 0 else TotalOf(v, chosen, n - 1) + if n - 1 in chosen then Sum(v[n - 1]) else 0
  }

  function Indices(n: nat): (r: set<nat>)
    ensures forall i: nat :: i in r <==> i < n
  {
    if n == 0 then {} else Indices(n - 1) + {n - 1}
  }

  /** Some job list with this histogram has this grand total, and this total over the chosen buckets. */
  ghost predicate Attainable(counts: seq<nat>, ranges: seq<Range>, total: int, chosen: set<nat>, part: int)
    requires |counts| <= |ranges|
  {
    exists v: Jobs :: Fits(v, counts, ranges) && TotalOf(v, Indices(|v|), |v|) == total && TotalOf(v, chosen, |v|) == part
  }

  ghost predicate Possible(counts: seq<nat>, ranges: seq<Range>, total: int)
    requires |counts| <= |ranges|
  {
    exists v: Jobs :: Fits(v, counts, ranges) && TotalOf(v, Indices(|v|), |v|) == total
  }

  // The bounds as computed

  function SubsetBounds(counts: seq<nat>, ranges: seq<Range>, total: int, retained: set<nat>): Bounds
    requires |counts| <= |ranges|
  {
    var n := |counts|;
    var excluded := Indices(n) - retained;
    var lower := Larger(LeastOf(counts, ranges, retained, n), total - MostOf(counts, ranges, excluded, n));
    var upper := Smaller(MostOf(counts, ranges, retained, n), total - LeastOf(counts, ranges, excluded, n));
    if lower > upper then ValueError else Bounds(lower, upper)
  }

  /** Indexes the histogram and the bucket table, so an index outside either raises. */
  function TightSubsetVertexBounds(retained: set<nat>, counts: seq<nat>, total: int): Bounds {
    if |counts| > |BUCKET_RANGES| || exists i <- retained :: i >= |counts| then IndexError
    else SubsetBounds(counts, BUCKET_RANGES, total, retained)
  }

  // Every job list stays inside the bounds

  lemma {:induction false} BucketSumBounds(jobs: seq<nat>, range: Range)
    requires FitsBucket(jobs, |jobs|, range)
    ensures |jobs| * range.lo <= Sum(jobs) <= |jobs| * range.hi
  {
    if jobs != [] {
      var n := |jobs| - 1;
      BucketSumBounds(jobs[..n], range);
      NextStride(n, range.lo);
      NextStride(n, range.hi);
    }
  }

  lemma {:induction false} ChosenWithin(v: Jobs, counts: seq<nat>, ranges: seq<Range>, chosen: set<nat>, n: nat)
    requires |counts| <= |ranges| && Fits(v, counts, ranges) && n <= |v|
    ensures LeastOf(counts, ranges, chosen, n) <= TotalOf(v, chosen, n) <= MostOf(counts, ranges, chosen, n)
  {
    if n > 0 {
      ChosenWithin(v, counts, ranges, chosen, n - 1);
      BucketSumBounds(v[n - 1], ranges[n - 1]);
    }
  }

  lemma {:induction false} TotalSplits(v: Jobs, chosen: set<nat>, n: nat, all: nat)
    requires n <= |v| && n <= all
    ensures TotalOf(v, Indices(all), n) == TotalOf(v, chosen, n) + TotalOf(v, Indices(all) - chosen, n)
  {
    if n > 0 {
      TotalSplits(v, chosen, n - 1, all);
    }
  }

  // Every value inside the bounds is reached by some job list

  lemma {:induction false} FillBucket(count: nat, range: Range, sum: int) returns (jobs: seq<nat>)
    requires range.lo <= range.hi && Times(count, range.lo) <= sum <= Times(count, range.hi)
    ensures FitsBucket(jobs, count, range) && Sum(jobs) == sum
  {
    if count == 0 {
      jobs := [];
    } else {
      var k := count - 1;
      TimesMonotone(k, range.lo, range.hi);
      var last := Share(sum, Times(k, range.lo), Times(k, range.hi), range.lo, range.hi);
      var rest := FillBucket(k, range, sum - last);
      jobs := rest + [last];
      assert jobs[..|jobs| - 1] == rest;
    }
  }

  /** Takes from `need` what one bucket can hold, leaving the other buckets between `least` and `most`. */
  lemma Share(need: int, least: nat, most: nat, lo: nat, hi: nat) returns (taken: int)
    requires least <= most && lo <= hi && least + lo <= need <= most + hi
    ensures lo <= taken <= hi && least <= need - taken <= most
  {
    taken := Larger(lo, need - most);
  }

  lemma {:induction false} LeastAtMostMost(counts: seq<nat>, ranges: seq<Range>, chosen: set<nat>, n: nat)
    requires n <= |counts| && n <= |ranges| && Ordered(ranges)
    ensures LeastOf(counts, ranges, chosen, n) <= MostOf(counts, ranges, chosen, n)
  {
    if n > 0 {
      LeastAtMostMost(counts, ranges, chosen, n - 1);
      ScaledBy(ranges[n - 1].lo, ranges[n - 1].hi, counts[n - 1]);
    }
  }

  lemma {:induction false} Prefix(v: Jobs, jobs: seq<nat>, chosen: set<nat>, n: nat)
    requires n <= |v|
    ensures TotalOf(v + [jobs], chosen, n) == TotalOf(v, chosen, n)
  {
    if n > 0 {
      Prefix(v, jobs, chosen, n - 1);
      assert (v + [jobs])[n - 1] == v[n - 1];
    }
  }

  lemma {:induction false} Fill(counts: seq<nat>, ranges: seq<Range>, chosen: set<nat>, other: set<nat>, n: nat, a: int, b: int)
    returns (v: Jobs)
    requires n <= |counts| && n <= |ranges| && Ordered(ranges)
    requires chosen !! other && forall i: nat | i < n :: i in chosen || i in other
    requires LeastOf(counts, ranges, chosen, n) <= a <= MostOf(counts, ranges, chosen, n)
    requires LeastOf(counts, ranges, other, n) <= b <= MostOf(counts, ranges, other, n)
    ensures Fits(v, counts[..n], ranges) && TotalOf(v, chosen, n) == a && TotalOf(v, other, n) == b
  {
    if n == 0 {
      v := [];
    } else {
      var k := n - 1;
      var taken;
      LeastAtMostMost(counts, ranges, chosen, k);
      LeastAtMostMost(counts, ranges, other, k);
      ScaledBy(ranges[k].lo, ranges[k].hi, counts[k]);
      var lo, hi := counts[k] * ranges[k].lo, counts[k] * ranges[k].hi;
      if k in chosen {
        taken := Share(a, LeastOf(counts, ranges, chosen, k), MostOf(counts, ranges, chosen, k), lo, hi);
        v := Fill(counts, ranges, chosen, other, k, a - taken, b);
      } else {
        taken := Share(b, LeastOf(counts, ranges, other, k), MostOf(counts, ranges, other, k), lo, hi);
        v := Fill(counts, ranges, chosen, other, k, a, b - taken);
      }
      hide LeastOf, MostOf;
      TimesIsProduct(counts[k], ranges[k].lo);
      TimesIsProduct(counts[k], ranges[k].hi);
      var jobs := FillBucket(counts[k], ranges[k], taken);
      Prefix(v, jobs, chosen, k);
      Prefix(v, jobs, other, k);
      v := v + [jobs];
    }
  }

  // The bounds are exact

  /** The totals the retained buckets can hold are precisely the integers between the two bounds. */
  lemma BoundsAreExact(counts: seq<nat>, ranges: seq<Range>, total: int, retained: set<nat>, part: int)
    requires |counts| <= |ranges| && Ordered(ranges)
    ensures Attainable(counts, ranges, total, retained, part) <==>
              var b := SubsetBounds(counts, ranges, total, retained); b.Bounds? && b.lower <= part <= b.upper
  {
    var n := |counts|;
    var excluded := Indices(n) - retained;
    if Attainable(counts, ranges, total, retained, part) {
      var v: Jobs :| Fits(v, counts, ranges) && TotalOf(v, Indices(|v|), |v|) == total && TotalOf(v, retained, |v|) == part;
      ChosenWithin(v, counts, ranges, retained, n);
      ChosenWithin(v, counts, ranges, excluded, n);
      TotalSplits(v, retained, n, n);
    }
    var b := SubsetBounds(counts, ranges, total, retained);
    if b.Bounds? && b.lower <= part <= b.upper {
      InsideIsAttained(counts, ranges, total, retained, part);
    }
  }

  lemma InsideIsAttained(counts: seq<nat>, ranges: seq<Range>, total: int, retained: set<nat>, part: int)
    requires |counts| <= |ranges| && Ordered(ranges)
    requires var b := SubsetBounds(counts, ranges, total, retained); b.Bounds? && b.lower <= part <= b.upper
    ensures Attainable(counts, ranges, total, retained, part)
  {
    var n := |counts|;
    var excluded := Indices(n) - retained;
    RetainedIndicesOnly(counts, ranges, retained, n);
    var v := Fill(counts, ranges, retained * Indices(n), excluded, n, part, total - part);
    assert counts[..n] == counts;
    TotalSplits(v, retained, n, n);
    TotalIndicesOnly(v, retained, n, n);
  }

  lemma {:induction false} RetainedIndicesOnly(counts: seq<nat>, ranges: seq<Range>, retained: set<nat>, n: nat)
    requires n <= |counts| <= |ranges|
    ensures LeastOf(counts, ranges, retained * Indices(|counts|), n) == LeastOf(counts, ranges, retained, n)
    ensures MostOf(counts, ranges, retained * Indices(|counts|), n) == MostOf(counts, ranges, retained, n)
  {
    if n > 0 {
      RetainedIndicesOnly(counts, ranges, retained, n - 1);
    }
  }

  lemma {:induction false} TotalIndicesOnly(v: Jobs, retained: set<nat>, n: nat, all: nat)
    requires n <= |v| && n <= all
    ensures TotalOf(v, retained * Indices(all), n) == TotalOf(v, retained, n)
  {
    if n > 0 {
      TotalIndicesOnly(v, retained, n - 1, all);
    }
  }

  /** The computation raises exactly when no job list at all has this histogram and grand total. */
  lemma RaisesIffImpossible(counts: seq<nat>, ranges: seq<Range>, total: int, retained: set<nat>)
    requires |counts| <= |ranges| && Ordered(ranges)
    ensures SubsetBounds(counts, ranges, total, retained) == ValueError <==> !Possible(counts, ranges, total)
  {
    var b := SubsetBounds(counts, ranges, total, retained);
    if b.Bounds? {
      BoundsAreExact(counts, ranges, total, retained, b.lower);
    }
    if Possible(counts, ranges, total) {
      var v: Jobs :| Fits(v, counts, ranges) && TotalOf(v, Indices(|v|), |v|) == total;
      var part := TotalOf(v, retained, |v|);
      assert Attainable(counts, ranges, total, retained, part);
      BoundsAreExact(counts, ranges, total, retained, part);
    }
  }

  /** Retaining fewer buckets lowers both ends of the interval. */
  lemma FewerBucketsLowerBounds(counts: seq<nat>, ranges: seq<Range>, total: int, fewer: set<nat>, more: set<nat>)
    requires |counts| <= |ranges| && Ordered(ranges) && fewer <= more && Possible(counts, ranges, total)
    ensures var f, m := SubsetBounds(counts, ranges, total, fewer), SubsetBounds(counts, ranges, total, more);
      f.Bounds? && m.Bounds? && f.lower <= m.lower && f.upper <= m.upper
  {
    RaisesIffImpossible(counts, ranges, total, fewer);
    RaisesIffImpossible(counts, ranges, total, more);
    var f, m := SubsetBounds(counts, ranges, total, fewer), SubsetBounds(counts, ranges, total, more);
    BoundsAreExact(counts, ranges, total, more, m.lower);
    var v: Jobs :| Fits(v, counts, ranges) && TotalOf(v, Indices(|v|), |v|) == total && TotalOf(v, more, |v|) == m.lower;
    TotalMonotone(v, fewer, more, |v|);
    assert Attainable(counts, ranges, total, fewer, TotalOf(v, fewer, |v|));
    BoundsAreExact(counts, ranges, total, fewer, TotalOf(v, fewer, |v|));
    BoundsAreExact(counts, ranges, total, fewer, f.upper);
    var w: Jobs :| Fits(w, counts, ranges) && TotalOf(w, Indices(|w|), |w|) == total && TotalOf(w, fewer, |w|) == f.upper;
    TotalMonotone(w, fewer, more, |w|);
    assert Attainable(counts, ranges, total, more, TotalOf(w, more, |w|));
    BoundsAreExact(counts, ranges, total, more, TotalOf(w, more, |w|));
  }

  lemma {:induction false} TotalMonotone(v: Jobs, fewer: set<nat>, more: set<nat>, n: nat)
    requires n <= |v| && fewer <= more
    ensures TotalOf(v, fewer, n) <= TotalOf(v, more, n)
  {
    if n > 0 {
      TotalMonotone(v, fewer, more, n - 1);
    }
  }

  /** tight_subset_vertex_bounds: an index outside the histogram, or a histogram longer than the bucket table, is an
      IndexError; otherwise the result is the exact interval, or ValueError when no job list exists. */
  lemma TightSubsetIsExact(retained: set<nat>, counts: seq<nat>, total: int, part: int)
    ensures var b := TightSubsetVertexBounds(retained, counts, total);
      && (b == IndexError <==> |counts| > 9 || exists i <- retained :: i >= |counts|)
      && (b != IndexError ==>
            && (b == ValueError <==> !Possible(counts, BUCKET_RANGES, total))
            && (Attainable(counts, BUCKET_RANGES, total, retained, part) <==> b.Bounds? && b.lower <= part <= b.upper))
  {
    var b := TightSubsetVertexBounds(retained, counts, total);
    if b != IndexError {
      BoundsAreExact(counts, BUCKET_RANGES, total, retained, part);
      RaisesIffImpossible(counts, BUCKET_RANGES, total, retained);
    }
  }

  // The bucket table

  function Pow2(n: nat): (r: nat)
    ensures r >= 1
  {
    if n == 0 then 1 else 2 * Pow2(n - 1)
  }

  function VertexBucketRange(bucket: nat): Range
    requires bucket < 9
  {
    var groupMin := if bucket == 0 then 1 else Pow2(bucket);
    var groupMax := Pow2(bucket + 1) - 1;
    Range((groupMin - 1) * 64 + 1, Smaller(groupMax * 64, 16384))
  }

  function WorkGroups(vertices: nat): nat {
    (vertices + 63) / 64
  }

  lemma PowersUpTo512()
    ensures Pow2(0) == 1 && Pow2(1) == 2 && Pow2(2) == 4 && Pow2(3) == 8 && Pow2(4) == 16
    ensures Pow2(5) == 32 && Pow2(6) == 64 && Pow2(7) == 128 && Pow2(8) == 256 && Pow2(9) == 512
  {
    assert Pow2(3) == 8;
    assert Pow2(6) == 64;
  }

  /** A job is in bucket b exactly when it has between 1 and 16384 vertices and floor(log2(ceil(v / 64))) == b, and the
      hand-written table of the small-job model lists the same ranges. */
  lemma BucketIsLogOfGroups(bucket: nat, vertices: nat)
    requires bucket < 9
    ensures var r := VertexBucketRange(bucket);
      && (r.lo <= vertices <= r.hi <==>
            1 <= vertices <= 16384 && Pow2(bucket) <= WorkGroups(vertices) < Pow2(bucket + 1))
      && r == BUCKET_RANGES[bucket] && r.lo <= r.hi
  {
    PowersUpTo512();
  }

  // The suffix form

  datatype Scenario = Scenario(minimumVertices: nat, firstBucket: nat, jobs: nat, lower: int, upper: int)

  datatype Model = Model(ranges: seq<Range>, scenarios: seq<Scenario>) | Refused

  function Suffix(first: nat, n: nat): set<nat> {
    Indices(n) - Indices(first)
  }

  method SumJobs(jobs: seq<nat>, first: nat) returns (sum: nat)
    requires first <= |jobs|
    ensures sum == Sum(jobs[first..])
  {
    sum := 0;
    for i := first to |jobs|
      invariant sum == Sum(jobs[first..i])
    {
      assert jobs[first..i + 1][..i - first] == jobs[first..i];
      sum := sum + jobs[i];
    }
    assert jobs[first..|jobs|] == jobs[first..];
  }

  method Envelope(jobs: seq<nat>, ranges: seq<Range>, first: nat) returns (least: nat, most: nat)
    requires first <= |jobs| == |ranges|
    ensures least == LeastOf(jobs, ranges, Suffix(first, |jobs|), |jobs|)
    ensures most == MostOf(jobs, ranges, Suffix(first, |jobs|), |jobs|)
  {
    least, most := 0, 0;
    NothingBefore(jobs, ranges, first, first);
    for i := first to |jobs|
      invariant least == LeastOf(jobs, ranges, Suffix(first, |jobs|), i)
      invariant most == MostOf(jobs, ranges, Suffix(first, |jobs|), i)
    {
      least := least + jobs[i] * ranges[i].lo;
      most := most + jobs[i] * ranges[i].hi;
    }
  }

  lemma {:induction false} NothingBefore(jobs: seq<nat>, ranges: seq<Range>, first: nat, n: nat)
    requires n <= first <= |jobs| == |ranges|
    ensures LeastOf(jobs, ranges, Suffix(first, |jobs|), n) == 0
    ensures MostOf(jobs, ranges, Suffix(first, |jobs|), n) == 0
  {
    if n > 0 {
      NothingBefore(jobs, ranges, first, n - 1);
    }
  }

  lemma {:induction false} EnvelopeSplits(jobs: seq<nat>, ranges: seq<Range>, chosen: set<nat>, all: nat, n: nat)
    requires n <= all <= |jobs| && |jobs| <= |ranges|
    ensures LeastOf(jobs, ranges, Indices(all), n)
         == LeastOf(jobs, ranges, chosen, n) + LeastOf(jobs, ranges, Indices(all) - chosen, n)
    ensures MostOf(jobs, ranges, Indices(all), n)
         == MostOf(jobs, ranges, chosen, n) + MostOf(jobs, ranges, Indices(all) - chosen, n)
  {
    if n > 0 {
      EnvelopeSplits(jobs, ranges, chosen, all, n - 1);
    }
  }

  /** The bounds from the grand totals less the suffix totals are the bounds of the subset form. */
  lemma SuffixForm(jobs: seq<nat>, ranges: seq<Range>, total: int, first: nat)
    requires first <= |jobs| == |ranges| && Ordered(ranges)
    requires LeastOf(jobs, ranges, Indices(|jobs|), |jobs|) <= total <= MostOf(jobs, ranges, Indices(|jobs|), |jobs|)
    ensures var n := |jobs|; var kept := Suffix(first, n);
      var lower := Larger(LeastOf(jobs, ranges, kept, n),
                       total - (MostOf(jobs, ranges, Indices(n), n) - MostOf(jobs, ranges, kept, n)));
      var upper := Smaller(MostOf(jobs, ranges, kept, n),
                       total - (LeastOf(jobs, ranges, Indices(n), n) - LeastOf(jobs, ranges, kept, n)));
      SubsetBounds(jobs, ranges, total, kept) == Bounds(lower, upper)
  {
    var n := |jobs|;
    var kept := Suffix(first, n);
    EnvelopeSplits(jobs, ranges, kept, n, n);
    LeastAtMostMost(jobs, ranges, kept, n);
    LeastAtMostMost(jobs, ranges, Indices(n) - kept, n);
  }

  lemma PossibleIffInEnvelope(jobs: seq<nat>, ranges: seq<Range>, total: int)
    requires |jobs| == |ranges| && Ordered(ranges)
    ensures Possible(jobs, ranges, total) <==>
              LeastOf(jobs, ranges, Indices(|jobs|), |jobs|) <= total <= MostOf(jobs, ranges, Indices(|jobs|), |jobs|)
  {
    var all := Indices(|jobs|);
    RaisesIffImpossible(jobs, ranges, total, all);
    assert all - all == {};
    NothingChosen(jobs, ranges, |jobs|);
    LeastAtMostMost(jobs, ranges, all, |jobs|);
  }

  lemma {:induction false} NothingChosen(jobs: seq<nat>, ranges: seq<Range>, n: nat)
    requires n <= |jobs| && n <= |ranges|
    ensures LeastOf(jobs, ranges, {}, n) == 0 && MostOf(jobs, ranges, {}, n) == 0
  {
    if n > 0 {
      NothingChosen(jobs, ranges, n - 1);
    }
  }

  /** What the threshold table must hold for one first retained bucket. */
  ghost predicate ScenarioIsExact(s: Scenario, first: nat, jobs: seq<nat>, ranges: seq<Range>, total: int)
    requires first < |jobs| == |ranges|
  {
    && s.firstBucket == first && s.minimumVertices == ranges[first].lo && s.jobs == Sum(jobs[first..])
    && SubsetBounds(jobs, ranges, total, Suffix(first, |jobs|)) == Bounds(s.lower, s.upper)
  }

  method BucketRangesFor(n: nat) returns (ranges: seq<Range>)
    requires n <= 9
    ensures ranges == BUCKET_RANGES[..n] && Ordered(ranges)
  {
    ranges := [];
    for i := 0 to n
      invariant ranges == BUCKET_RANGES[..i]
    {
      BucketIsLogOfGroups(i, 0);
      ranges := ranges + [VertexBucketRange(i)];
    }
  }

  method Scenarios(jobs: seq<nat>, ranges: seq<Range>, total: int, totalMin: nat, totalMax: nat)
    returns (scenarios: seq<Scenario>)
    requires |jobs| == |ranges| && Ordered(ranges) && totalMin <= total <= totalMax
    requires totalMin == LeastOf(jobs, ranges, Indices(|jobs|), |jobs|)
    requires totalMax == MostOf(jobs, ranges, Indices(|jobs|), |jobs|)
    ensures |scenarios| == |jobs|
    ensures forall i | 0 <= i < |jobs| :: ScenarioIsExact(scenarios[i], i, jobs, ranges, total)
  {
    scenarios := [];
    for first := 0 to |jobs|
      invariant |scenarios| == first
      invariant forall i | 0 <= i < first :: ScenarioIsExact(scenarios[i], i, jobs, ranges, total)
    {
      var retained := SumJobs(jobs, first);
      var retainedMin, retainedMax := Envelope(jobs, ranges, first);
      SuffixForm(jobs, ranges, total, first);
      var s := Scenario(ranges[first].lo, first, retained, Larger(retainedMin, total - (totalMax - retainedMax)),
                        Smaller(retainedMax, total - (totalMin - retainedMin)));
      scenarios := scenarios + [s];
    }
  }

  /** hybrid_threshold_model without its percentages. It refuses a histogram that does not close, has more than nine
      buckets, or admits no job list; otherwise there is one exact scenario per threshold. */
  method HybridThresholdModel(jobs: seq<nat>, candidateJobs: int, actualVertices: int) returns (m: Model)
    ensures m.Refused? <==>
              Sum(jobs) != candidateJobs || |jobs| > 9 || !Possible(jobs, BUCKET_RANGES[..|jobs|], actualVertices)
    ensures m.Model? ==> m.ranges == BUCKET_RANGES[..|jobs|] && |m.scenarios| == |jobs|
    ensures m.Model? ==> forall i | 0 <= i < |jobs| :: ScenarioIsExact(m.scenarios[i], i, jobs, m.ranges, actualVertices)
  {
    var counted := SumJobs(jobs, 0);
    assert jobs[0..] == jobs;
    if counted != candidateJobs || |jobs| > 9 {
      return Refused;
    }
    var ranges := BucketRangesFor(|jobs|);
    var totalMin, totalMax := Envelope(jobs, ranges, 0);
    assert Suffix(0, |jobs|) == Indices(|jobs|);
    PossibleIffInEnvelope(jobs, ranges, actualVertices);
    if !(totalMin <= actualVertices <= totalMax) {
      return Refused;
    }
    var scenarios := Scenarios(jobs, ranges, actualVertices, totalMin, totalMax);
    return Model(ranges, scenarios);
  }

  /** Over the table, both bounds are non-increasing in the threshold. */
  lemma ThresholdsAreMonotone(s: Scenario, t: Scenario, i: nat, j: nat, jobs: seq<nat>, ranges: seq<Range>, total: int)
    requires i <= j < |jobs| == |ranges| && Ordered(ranges) && Possible(jobs, ranges, total)
    requires ScenarioIsExact(s, i, jobs, ranges, total) && ScenarioIsExact(t, j, jobs, ranges, total)
    ensures t.lower <= s.lower && t.upper <= s.upper
  {
    FewerBucketsLowerBounds(jobs, ranges, total, Suffix(j, |jobs|), Suffix(i, |jobs|));
  }
}
