/** Coarse CPU-skinning tasks: consecutive jobs merged until a task reaches the target, and what that means for the
    schedule built from them. */
module CoarseTasks {
  import opened Arithmetic
  import opened Wrappers
  import opened Coverage
  import LptSchedule

  function Total(jobs: seq<int>): int {
    if jobs == [] then 0 else Total(jobs[..|jobs| - 1]) + jobs[|jobs| - 1]
  }

  predicate Positive(jobs: seq<int>) {
    forall i | 0 <= i < |jobs| :: jobs[i] > 0
  }

  predicate Within(t: Range, jobs: seq<int>) {
    0 <= t.first < t.End() <= |jobs|
  }

  function Work(t: Range, jobs: seq<int>): int
    requires Within(t, jobs)
  {
    Total(jobs[t.first..t.End()])
  }

  function WorkBeforeLast(t: Range, jobs: seq<int>): int
    requires Within(t, jobs)
  {
    Total(jobs[t.first..t.End() - 1])
  }

  /** No task had reached the target before its last job, and every task but the last one did with it. */
  ghost predicate Coarse(tasks: seq<Range>, jobs: seq<int>, target: int) {
    && (forall k | 0 <= k < |tasks| :: Within(tasks[k], jobs))
    && (forall k | 0 <= k < |tasks| :: WorkBeforeLast(tasks[k], jobs) < target)
    && (forall k | 0 <= k < |tasks| && tasks[k].End() < |jobs| :: Work(tasks[k], jobs) >= target)
  }

  ghost predicate Partition(tasks: seq<Range>, jobs: seq<int>, target: int) {
    Chained(tasks, |jobs|) && Coarse(tasks, jobs, target)
  }

  lemma CloseTask(tasks: seq<Range>, jobs: seq<int>, target: int, first: nat, index: nat)
    requires first <= index < |jobs| && Chained(tasks, first) && Coarse(tasks, jobs, target)
    requires Total(jobs[first..index]) < target
    requires Total(jobs[first..index + 1]) >= target || index + 1 == |jobs|
    ensures var longer := tasks + [Range(first, index - first + 1)];
      Chained(longer, index + 1) && Coarse(longer, jobs, target)
  {
    ChainedNext(tasks, first, Range(first, index - first + 1));
  }

  lemma TotalStep(jobs: seq<int>, first: nat, index: nat)
    requires first <= index < |jobs|
    ensures Total(jobs[first..index + 1]) == Total(jobs[first..index]) + jobs[index]
  {
    assert jobs[first..index + 1][..index - first] == jobs[first..index];
  }

  /** Splits the jobs, in order, into tasks; None where the source raises. */
  method MakeCoarseTasks(jobs: seq<int>, target: int) returns (r: Option<seq<Range>>)
    ensures r.Some? <==> jobs != [] && target > 0 && Positive(jobs)
    ensures r.Some? ==> Partition(r.value, jobs, target)
  {
    if jobs == [] || target <= 0 || !Positive(jobs) {
      return None;
    }
    var tasks: seq<Range> := [];
    var first, total := 0, 0;
    assert Chained(tasks, 0) && Coarse(tasks, jobs, target);
    hide Chained, Coarse;
    for index := 0 to |jobs|
      invariant 0 <= first <= index && total == Total(jobs[first..index]) < target
      invariant index == |jobs| ==> first == |jobs|
      invariant Chained(tasks, first) && Coarse(tasks, jobs, target)
    {
      TotalStep(jobs, first, index);
      total := total + jobs[index];
      if total >= target || index + 1 == |jobs| {
        CloseTask(tasks, jobs, target, first, index);
        tasks := tasks + [Range(first, index - first + 1)];
        first := index + 1;
        total := 0;
      }
    }
    return Some(tasks);
  }

  // Partial sums

  lemma {:induction false} TotalSplits(jobs: seq<int>, k: nat)
    requires k <= |jobs|
    ensures Total(jobs) == Total(jobs[..k]) + Total(jobs[k..])
  {
    if k == |jobs| {
      assert jobs[..k] == jobs;
    } else {
      var n := |jobs| - 1;
      TotalSplits(jobs[..n], k);
      assert jobs[..n][..k] == jobs[..k] && jobs[..n][k..] == jobs[k..][..n - k];
    }
  }

  lemma {:induction false} TotalNonNegative(jobs: seq<int>)
    requires Positive(jobs)
    ensures Total(jobs) >= |jobs|
  {
    if jobs != [] {
      TotalNonNegative(jobs[..|jobs| - 1]);
    }
  }

  lemma LongerIsMore(jobs: seq<int>, first: nat, a: nat, b: nat)
    requires first <= a <= b <= |jobs| && Positive(jobs)
    ensures Total(jobs[first..a]) <= Total(jobs[first..b])
  {
    var longer := jobs[first..b];
    TotalSplits(longer, a - first);
    assert longer[..a - first] == jobs[first..a];
    TotalNonNegative(longer[a - first..]);
  }

  /** The contract leaves no freedom: any two lists that meet it are the same list. */
  lemma TasksAreDetermined(a: seq<Range>, b: seq<Range>, jobs: seq<int>, target: int)
    requires Positive(jobs) && Partition(a, jobs, target) && Partition(b, jobs, target)
    ensures a == b
  {
    SamePrefix(a, b, jobs, target, |a|);
    SamePrefix(b, a, jobs, target, |b|);
    assert a[..|a|] == a && b[..|a|] == b;
  }

  lemma {:induction false} SamePrefix(a: seq<Range>, b: seq<Range>, jobs: seq<int>, target: int, k: nat)
    requires Positive(jobs) && Partition(a, jobs, target) && Partition(b, jobs, target) && k <= |a|
    ensures k <= |b| && a[..k] == b[..k]
  {
    hide Positive, Partition;
    if k > 0 {
      var j := k - 1;
      SamePrefix(a, b, jobs, target, j);
      SameAt(a, b, jobs, target, j);
      assert a[..k] == a[..j] + [a[j]] && b[..k] == b[..j] + [b[j]];
    }
  }

  lemma SameAt(a: seq<Range>, b: seq<Range>, jobs: seq<int>, target: int, j: nat)
    requires Positive(jobs) && Partition(a, jobs, target) && Partition(b, jobs, target)
    requires j < |a| && j <= |b| && a[..j] == b[..j]
    ensures j < |b| && a[j] == b[j]
  {
    hide Positive, Work, WorkBeforeLast, Chained;
    SameStart(a, b, |jobs|, j);
    SameCount(a[j], b[j], jobs, target);
    SameCount(b[j], a[j], jobs, target);
  }

  lemma SameStart(a: seq<Range>, b: seq<Range>, n: nat, j: nat)
    requires Chained(a, n) && Chained(b, n) && j < |a| && j <= |b| && a[..j] == b[..j]
    ensures j < |b| && a[j].first == b[j].first
  {
    ChainedUpTo(a, n, j);
    if j < |b| {
      ChainedUpTo(b, n, j);
      SameEnd(a[..j], a[j].first, b[j].first);
    } else {
      assert b[..j] == b;
      SameEnd(a[..j], a[j].first, n);
    }
  }

  lemma SameEnd(a: seq<Range>, m: int, n: int)
    requires Chained(a, m) && Chained(a, n)
    ensures m == n
  {
  }

  lemma SameCount(a: Range, b: Range, jobs: seq<int>, target: int)
    requires Positive(jobs) && Within(a, jobs) && Within(b, jobs) && a.first == b.first
    requires a.End() < |jobs| ==> Work(a, jobs) >= target
    requires WorkBeforeLast(b, jobs) < target
    ensures a.count >= b.count
  {
    if a.count < b.count {
      LongerIsMore(jobs, a.first, a.End(), b.End() - 1);
    }
  }

  /** The tasks cover every job exactly once. */
  lemma TasksCoverJobs(tasks: seq<Range>, jobs: seq<int>, target: int)
    requires Partition(tasks, jobs, target)
    ensures ExactlyCovers(tasks, |jobs|)
  {
    ChainedIsExact(tasks, |jobs|);
  }

  /** A task stays below the target plus its last job. */
  lemma TaskIsBelow(t: Range, jobs: seq<int>, target: int)
    requires Within(t, jobs) && WorkBeforeLast(t, jobs) < target
    ensures Work(t, jobs) < target + jobs[t.End() - 1]
  {
    assert jobs[t.first..t.End()][..t.count - 1] == jobs[t.first..t.End() - 1];
  }

  // The vertex counts of the tasks

  ghost predicate CountsOf(counts: seq<nat>, tasks: seq<Range>, jobs: seq<int>) {
    && |counts| == |tasks|
    && forall k | 0 <= k < |tasks| :: Within(tasks[k], jobs) && counts[k] == Work(tasks[k], jobs)
  }

  method SumSlice(jobs: seq<int>, t: Range) returns (sum: int)
    requires Within(t, jobs)
    ensures sum == Work(t, jobs)
  {
    sum := 0;
    for i := t.first to t.End()
      invariant sum == Total(jobs[t.first..i])
    {
      TotalStep(jobs, t.first, i);
      sum := sum + jobs[i];
    }
  }

  method TaskVertexCounts(jobs: seq<int>, target: int) returns (r: Option<seq<nat>>)
    ensures r.Some? <==> jobs != [] && target > 0 && Positive(jobs)
    ensures r.Some? ==> exists tasks: seq<Range> :: Partition(tasks, jobs, target) && CountsOf(r.value, tasks, jobs)
  {
    var made := MakeCoarseTasks(jobs, target);
    if made.None? {
      return None;
    }
    var tasks := made.value;
    var counts: seq<nat> := [];
    for k := 0 to |tasks|
      invariant CountsOf(counts, tasks[..k], jobs)
    {
      var sum := SumSlice(jobs, tasks[k]);
      TotalNonNegative(jobs[tasks[k].first..tasks[k].End()]);
      counts := counts + [sum];
    }
    assert tasks[..|tasks|] == tasks;
    return Some(counts);
  }

  lemma {:induction false} CountsAddUp(counts: seq<nat>, tasks: seq<Range>, jobs: seq<int>, end: nat)
    requires Chained(tasks, end) && CountsOf(counts, tasks, jobs) && end <= |jobs|
    ensures Sum(counts) == Total(jobs[..end])
  {
    if tasks != [] {
      var n := |tasks| - 1;
      CountsAddUp(counts[..n], tasks[..n], jobs, tasks[n].first);
      TotalSplits(jobs[..end], tasks[n].first);
      assert jobs[..end][..tasks[n].first] == jobs[..tasks[n].first];
      assert jobs[..end][tasks[n].first..] == jobs[tasks[n].first..tasks[n].End()];
    }
  }

  lemma {:induction false} FullTasks(counts: seq<nat>, target: nat, k: nat)
    requires k <= |counts| && forall j | 0 <= j < k :: counts[j] >= target
    ensures Times(k, target) <= Sum(counts)
  {
    if counts != [] {
      var n := |counts| - 1;
      FullTasks(counts[..n], target, if k == |counts| then n else k);
    }
  }

  /** Splitting loses no vertex, and gives at most total / target + 1 tasks. */
  lemma FewTasks(counts: seq<nat>, tasks: seq<Range>, jobs: seq<int>, target: nat)
    requires jobs != [] && target > 0 && Positive(jobs) && Partition(tasks, jobs, target) && CountsOf(counts, tasks, jobs)
    ensures Sum(counts) == Total(jobs) && 1 <= |counts| <= Total(jobs) / target + 1
  {
    CountsAddUp(counts, tasks, jobs, |jobs|);
    assert jobs[..|jobs|] == jobs;
    var k := |counts| - 1;
    forall j | 0 <= j < k ensures counts[j] >= target {
      ChainedUpTo(tasks, |jobs|, j);
    }
    FullTasks(counts, target, k);
    TimesIsProduct(k, target);
    AtMostQuotient(k, target, Total(jobs));
  }

  lemma LongestTask(counts: seq<nat>, tasks: seq<Range>, jobs: seq<int>, target: nat, longest: nat)
    requires target > 0 && Partition(tasks, jobs, target) && CountsOf(counts, tasks, jobs) && counts != []
    requires forall i | 0 <= i < |jobs| :: jobs[i] <= longest
    ensures LptSchedule.Max(counts) <= target - 1 + longest
  {
    var most := LptSchedule.Max(counts);
    var k :| 0 <= k < |counts| && counts[k] == most;
    TaskIsBelow(tasks[k], jobs, target);
  }

  /** The longest task of the split is below target + longest job, so scheduling the split on m lanes finishes within
      total + (m - 1) * (target - 1 + longest job), times 1 / m. */
  lemma CoarseSchedule(counts: seq<nat>, tasks: seq<Range>, jobs: seq<int>, target: nat, workers: int, longest: nat)
    requires jobs != [] && target > 0 && Positive(jobs) && Partition(tasks, jobs, target) && CountsOf(counts, tasks, jobs)
    requires forall i | 0 <= i < |jobs| :: jobs[i] <= longest
    ensures var m := LptSchedule.LaneCount(workers);
      m * LptSchedule.Max(LptSchedule.GreedyLanes(LptSchedule.SortedDescending(counts), m))
      <= Total(jobs) + (m - 1) * (target - 1 + longest)
  {
    hide Partition, CountsOf, Positive, LptSchedule.Max, LptSchedule.GreedyLanes, LptSchedule.SortedDescending;
    FewTasks(counts, tasks, jobs, target);
    LptSchedule.MakespanWithinList(counts, workers);
    LongestTask(counts, tasks, jobs, target, longest);
    ScaledBy(LptSchedule.Max(counts), target - 1 + longest, LptSchedule.LaneCount(workers) - 1);
  }
}
