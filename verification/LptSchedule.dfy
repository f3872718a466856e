/** greedy_worker_makespan: longest-processing-time-first scheduling on identical lanes, with work measured
    in vertices. The quality bound is Graham's 4/3 - 1/(3m), against every possible assignment. */
module LptSchedule {
  import opened Arithmetic

  function Max(s: seq<nat>): (m: nat)
    ensures forall x | x in s :: x <= m
    ensures s != [] ==> m in s
  {
    if s == [] then 0
    else var rest, last := Max(s[..|s| - 1]), s[|s| - 1];
      assert s == s[..|s| - 1] + [last];
      if |s| == 1 || rest < last then last else rest
  }

  predicate Descending(s: seq<nat>) {
    forall i, j | 0 <= i < j < |s| :: s[i] >= s[j]
  }

  // Assignments of tasks to lanes

  /** Task i runs on lane f[i]. */
  predicate Assignment(f: seq<nat>, tasks: seq<nat>, lanes: nat) {
    |f| == |tasks| && forall i | 0 <= i < |f| :: f[i] < lanes
  }

  /** The work an assignment puts on one lane. */
  function Load(tasks: seq<nat>, f: seq<nat>, lane: nat): nat
    requires |f| == |tasks|
  {
    if tasks == [] then 0
    else var n := |tasks| - 1;
      Load(tasks[..n], f[..n], lane) + if f[n] == lane then tasks[n] else 0
  }

  /** No lane of the assignment works longer than t. */
  ghost predicate FinishesBy(tasks: seq<nat>, f: seq<nat>, lanes: nat, t: nat)
    requires |f| == |tasks|
  {
    forall lane: nat | lane < lanes :: Load(tasks, f, lane) <= t
  }

  function TotalLoad(tasks: seq<nat>, f: seq<nat>, lanes: nat): nat
    requires |f| == |tasks|
  {
    if lanes == 0 then 0 else TotalLoad(tasks, f, lanes - 1) + Load(tasks, f, lanes - 1)
  }

  lemma {:induction false} TotalLoadStep(tasks: seq<nat>, f: seq<nat>, lanes: nat)
    requires |f| == |tasks| > 0
    ensures var n := |tasks| - 1;
      TotalLoad(tasks, f, lanes)
        == TotalLoad(tasks[..n], f[..n], lanes) + if f[n] < lanes then tasks[n] else 0
  {
    if lanes > 0 {
      TotalLoadStep(tasks, f, lanes - 1);
    }
  }

  lemma {:induction false} TotalOfNothing(lanes: nat)
    ensures TotalLoad([], [], lanes) == 0
  {
    if lanes > 0 {
      TotalOfNothing(lanes - 1);
    }
  }

  /** Counting the work by lane or by task gives the same total. */
  lemma {:induction false} LoadsSumToTotal(tasks: seq<nat>, f: seq<nat>, lanes: nat)
    requires Assignment(f, tasks, lanes)
    ensures TotalLoad(tasks, f, lanes) == Sum(tasks)
  {
    if tasks == [] {
      TotalOfNothing(lanes);
    } else {
      TotalLoadStep(tasks, f, lanes);
      LoadsSumToTotal(tasks[..|tasks| - 1], f[..|f| - 1], lanes);
    }
  }

  lemma {:induction false} TotalAtMost(tasks: seq<nat>, f: seq<nat>, lanes: nat, t: nat)
    requires |f| == |tasks|
    requires forall lane: nat | lane < lanes :: Load(tasks, f, lane) <= t
    ensures TotalLoad(tasks, f, lanes) <= Times(lanes, t)
  {
    if lanes > 0 {
      TotalAtMost(tasks, f, lanes - 1, t);
    }
  }

  lemma {:induction false} TotalAtLeast(tasks: seq<nat>, f: seq<nat>, lanes: nat, t: nat)
    requires |f| == |tasks|
    requires forall lane: nat | lane < lanes :: Load(tasks, f, lane) >= t
    ensures TotalLoad(tasks, f, lanes) >= Times(lanes, t)
  {
    if lanes > 0 {
      TotalAtLeast(tasks, f, lanes - 1, t);
    }
  }

  lemma {:induction false} LoadOfPrefix(tasks: seq<nat>, f: seq<nat>, lane: nat, k: nat)
    requires |f| == |tasks| && k <= |tasks|
    ensures Load(tasks[..k], f[..k], lane) <= Load(tasks, f, lane)
    decreases |tasks| - k
  {
    if k < |tasks| {
      LoadOfPrefix(tasks, f, lane, k + 1);
      assert tasks[..k + 1][..k] == tasks[..k] && f[..k + 1][..k] == f[..k];
    } else {
      assert tasks[..k] == tasks && f[..k] == f;
    }
  }

  lemma {:induction false} TaskWithinLoad(tasks: seq<nat>, f: seq<nat>, i: nat)
    requires |f| == |tasks| && i < |tasks|
    ensures tasks[i] <= Load(tasks, f, f[i])
  {
    LoadOfPrefix(tasks, f, f[i], i + 1);
    assert tasks[..i + 1][..i] == tasks[..i] && f[..i + 1][..i] == f[..i];
  }

  // The schedule

  /** The first lane with the least load: Python's min over the lane indices. */
  function LeastLane(lanes: seq<nat>): (k: nat)
    requires lanes != []
    ensures k < |lanes|
    ensures forall j | 0 <= j < |lanes| :: lanes[k] <= lanes[j]
    ensures forall j | 0 <= j < k :: lanes[k] < lanes[j]
  {
    if |lanes| == 1 then 0
    else
      var k := LeastLane(lanes[..|lanes| - 1]);
      if lanes[|lanes| - 1] < lanes[k] then |lanes| - 1 else k
  }

  function Zeros(m: nat): seq<nat> {
    seq(m, _ => 0)
  }

  /** The lane each task of an ordered list is given. */
  function Greedy(tasks: seq<nat>, m: nat): (f: seq<nat>)
    requires m > 0
    ensures Assignment(f, tasks, m)
  {
    if tasks == [] then []
    else
      var f := Greedy(tasks[..|tasks| - 1], m);
      f + [LeastLane(Lanes(tasks[..|tasks| - 1], f, m))]
  }

  /** The lane loads an assignment produces. */
  function Lanes(tasks: seq<nat>, f: seq<nat>, m: nat): (lanes: seq<nat>)
    requires |f| == |tasks|
    ensures |lanes| == m && forall lane: nat | lane < m :: lanes[lane] == Load(tasks, f, lane)
  {
    seq(m, lane requires 0 <= lane < m => Load(tasks, f, lane))
  }

  lemma LanesAdd(tasks: seq<nat>, f: seq<nat>, m: nat, task: nat, lane: nat)
    requires |f| == |tasks| && lane < m
    ensures Lanes(tasks + [task], f + [lane], m)
         == Lanes(tasks, f, m)[lane := Lanes(tasks, f, m)[lane] + task]
  {
    assert (tasks + [task])[..|tasks|] == tasks && (f + [lane])[..|f|] == f;
  }

  /** Inserts a task behind every task that is at least as long. */
  function Insert(x: nat, s: seq<nat>): (t: seq<nat>)
    ensures |t| == |s| + 1
  {
    if s == [] || s[|s| - 1] >= x then s + [x] else Insert(x, s[..|s| - 1]) + [s[|s| - 1]]
  }

  lemma {:induction false} InsertMultiset(x: nat, s: seq<nat>)
    ensures multiset(Insert(x, s)) == multiset(s) + multiset{x}
  {
    if s != [] && s[|s| - 1] < x {
      assert s == s[..|s| - 1] + [s[|s| - 1]];
      InsertMultiset(x, s[..|s| - 1]);
    }
  }

  lemma {:induction false} InsertAtLeast(x: nat, s: seq<nat>, bound: nat)
    requires x >= bound && forall i | 0 <= i < |s| :: s[i] >= bound
    ensures forall i | 0 <= i <= |s| :: Insert(x, s)[i] >= bound
  {
    if s != [] && s[|s| - 1] < x {
      InsertAtLeast(x, s[..|s| - 1], bound);
    }
  }

  lemma {:induction false} InsertDescending(x: nat, s: seq<nat>)
    requires Descending(s)
    ensures Descending(Insert(x, s))
  {
    if s != [] && s[|s| - 1] < x {
      InsertDescending(x, s[..|s| - 1]);
      InsertAtLeast(x, s[..|s| - 1], s[|s| - 1]);
    }
  }

  function SortedDescending(s: seq<nat>): seq<nat> {
    if s == [] then [] else Insert(s[|s| - 1], SortedDescending(s[..|s| - 1]))
  }

  lemma {:induction false} SortedIsSorted(s: seq<nat>)
    ensures Descending(SortedDescending(s)) && multiset(SortedDescending(s)) == multiset(s)
    ensures |SortedDescending(s)| == |s|
  {
    if s != [] {
      assert s == s[..|s| - 1] + [s[|s| - 1]];
      SortedIsSorted(s[..|s| - 1]);
      InsertMultiset(s[|s| - 1], SortedDescending(s[..|s| - 1]));
      InsertDescending(s[|s| - 1], SortedDescending(s[..|s| - 1]));
    }
  }

  /** A worker count of zero or less means one lane. */
  function LaneCount(workers: int): nat {
    if workers < 1 then 1 else workers
  }

  /** The loads after greedy has placed every task. */
  function GreedyLanes(tasks: seq<nat>, m: nat): (lanes: seq<nat>)
    requires m > 0
    ensures |lanes| == m
  {
    Lanes(tasks, Greedy(tasks, m), m)
  }

  lemma GreedyStep(tasks: seq<nat>, x: nat, m: nat)
    requires m > 0
    ensures var lanes := GreedyLanes(tasks, m);
      var lane := LeastLane(lanes);
      GreedyLanes(tasks + [x], m) == lanes[lane := lanes[lane] + x]
  {
    assert (tasks + [x])[..|tasks|] == tasks;
    LanesAdd(tasks, Greedy(tasks, m), m, x, LeastLane(GreedyLanes(tasks, m)));
  }

  lemma GreedyPrefix(tasks: seq<nat>, i: nat, m: nat)
    requires m > 0 && i < |tasks|
    ensures var lanes := GreedyLanes(tasks[..i], m);
      var lane := LeastLane(lanes);
      GreedyLanes(tasks[..i + 1], m) == lanes[lane := lanes[lane] + tasks[i]]
  {
    hide GreedyLanes;
    GreedyStep(tasks[..i], tasks[i], m);
    assert tasks[..i + 1] == tasks[..i] + [tasks[i]];
  }

  method GreedyWorkerMakespan(tasks: seq<nat>, workers: int) returns (makespan: nat)
    ensures makespan == Max(GreedyLanes(SortedDescending(tasks), LaneCount(workers)))
  {
    var m := LaneCount(workers);
    var sorted := SortedDescending(tasks);
    var lanes := Zeros(m);
    assert lanes == GreedyLanes([], m);
    hide GreedyLanes, SortedDescending, Max;
    for i := 0 to |sorted|
      invariant |lanes| == m && lanes == GreedyLanes(sorted[..i], m)
    {
      GreedyPrefix(sorted, i, m);
      var lane := LeastLane(lanes);
      lanes := lanes[lane := lanes[lane] + sorted[i]];
    }
    assert sorted[..|sorted|] == sorted;
    makespan := Max(lanes);
  }

  // List scheduling: the first rung

  /** The least-loaded lane carries at most the average. */
  lemma LeastLoadBelowAverage(tasks: seq<nat>, f: seq<nat>, m: nat)
    requires Assignment(f, tasks, m) && m > 0
    ensures Times(m, Load(tasks, f, LeastLane(Lanes(tasks, f, m)))) <= Sum(tasks)
  {
    var least := LeastLane(Lanes(tasks, f, m));
    assert forall lane: nat | lane < m :: Lanes(tasks, f, m)[lane] >= Lanes(tasks, f, m)[least];
    TotalAtLeast(tasks, f, m, Load(tasks, f, least));
    LoadsSumToTotal(tasks, f, m);
  }

  lemma {:induction false} SumAtLeastPrefix(tasks: seq<nat>, k: nat)
    requires k <= |tasks|
    ensures Sum(tasks[..k]) <= Sum(tasks)
    decreases |tasks| - k
  {
    if k < |tasks| {
      SumAtLeastPrefix(tasks, k + 1);
      assert tasks[..k + 1][..k] == tasks[..k];
    } else {
      assert tasks[..k] == tasks;
    }
  }

  /** Greedy leaves every lane as it was and puts the last task on the least-loaded one. */
  lemma GreedyLoad(tasks: seq<nat>, m: nat, lane: nat)
    requires m > 0 && tasks != []
    ensures var n := |tasks| - 1;
      var f := Greedy(tasks[..n], m);
      Load(tasks, Greedy(tasks, m), lane)
        == Load(tasks[..n], f, lane) + if lane == LeastLane(Lanes(tasks[..n], f, m)) then tasks[n] else 0
  {
    var n := |tasks| - 1;
    var f := Greedy(tasks[..n], m);
    assert Greedy(tasks, m)[..n] == f;
  }

  /** Whatever the order of the tasks, greedy stays within total/m + (1 - 1/m) * longest task. */
  lemma {:induction false} ListSchedulingBound(tasks: seq<nat>, m: nat, longest: nat, lane: nat)
    requires m > 0 && lane < m
    requires forall i | 0 <= i < |tasks| :: tasks[i] <= longest
    ensures Times(m, Load(tasks, Greedy(tasks, m), lane)) <= Sum(tasks) + Times(m - 1, longest)
  {
    hide Greedy, Lanes;
    if tasks == [] {
      TimesIsProduct(m, 0);
    } else {
      var n := |tasks| - 1;
      var f := Greedy(tasks[..n], m);
      GreedyLoad(tasks, m, lane);
      if lane == LeastLane(Lanes(tasks[..n], f, m)) {
        LeastLoadBelowAverage(tasks[..n], f, m);
        ListTaskArithmetic(m, Load(tasks[..n], f, lane), tasks[n], Sum(tasks[..n]), longest);
      } else {
        ListSchedulingBound(tasks[..n], m, longest, lane);
        TimesMonotone(m, Load(tasks[..n], f, lane), Load(tasks, Greedy(tasks, m), lane));
      }
    }
  }

  lemma ListTaskArithmetic(m: nat, load: nat, last: nat, before: nat, longest: nat)
    requires m > 0 && Times(m, load) <= before && last <= longest
    ensures Times(m, load + last) <= before + last + Times(m - 1, longest)
  {
    TimesAdd(m, load, last);
    TimesMonotone(m - 1, last, longest);
  }

  // Graham's bound

  /** Big tasks weigh two, the others one. */
  function Weights(tasks: seq<nat>, threshold: int): (w: seq<nat>)
    ensures |w| == |tasks| && forall i | 0 <= i < |w| :: w[i] == if tasks[i] > threshold then 2 else 1
  {
    seq(|tasks|, i requires 0 <= i < |tasks| => if tasks[i] > threshold then 2 else 1)
  }

  lemma {:induction false} WeightsOfPrefix(tasks: seq<nat>, threshold: int, k: nat)
    requires k <= |tasks|
    ensures Weights(tasks, threshold)[..k] == Weights(tasks[..k], threshold)
  {
  }

  function Occupants(f: seq<nat>, lane: nat): nat {
    if f == [] then 0 else Occupants(f[..|f| - 1], lane) + if f[|f| - 1] == lane then 1 else 0
  }

  /** Every task is longer than a third of t and none is shorter than `least`. */
  predicate Long(tasks: seq<nat>, t: nat, least: nat) {
    forall i | 0 <= i < |tasks| :: 3 * tasks[i] > t && tasks[i] >= least
  }

  /** What c long tasks on one lane weigh: a weight above c means that one of them exceeds t - least. */
  lemma {:induction false} LaneWeight(tasks: seq<nat>, f: seq<nat>, lane: nat, t: nat, least: nat)
    requires |f| == |tasks| && least <= t && Long(tasks, t, least)
    ensures var c, w, load := Occupants(f, lane), Load(Weights(tasks, t - least), f, lane), Load(tasks, f, lane);
      && (c == 0 ==> w == 0)
      && (c == 1 ==> 3 * load > t && load >= least && (w == 1 || (w == 2 && load > t - least)))
      && (c == 2 ==> 3 * load > 2 * t && load >= 2 * least && (w == 2 || load > t))
      && (c >= 3 ==> load > t)
  {
    if tasks != [] {
      var n := |tasks| - 1;
      LaneWeight(tasks[..n], f[..n], lane, t, least);
      WeightsOfPrefix(tasks, t - least, n);
    }
  }

  /** A lane that finishes by t weighs at most two. */
  lemma FinishedLaneWeight(tasks: seq<nat>, f: seq<nat>, lane: nat, t: nat, least: nat)
    requires |f| == |tasks| && least <= t && Long(tasks, t, least)
    requires Load(tasks, f, lane) <= t
    ensures Load(Weights(tasks, t - least), f, lane) <= 2
  {
    LaneWeight(tasks, f, lane, t, least);
  }

  /** A lane with more than t - least on it weighs at least two. */
  lemma {:induction false} LoadedLaneWeight(tasks: seq<nat>, f: seq<nat>, lane: nat, threshold: nat)
    requires |f| == |tasks|
    ensures Load(tasks, f, lane) > threshold ==> Load(Weights(tasks, threshold), f, lane) >= 2
    ensures Load(tasks, f, lane) > 0 ==> Load(Weights(tasks, threshold), f, lane) >= 1
  {
    if tasks != [] {
      var n := |tasks| - 1;
      LoadedLaneWeight(tasks[..n], f[..n], lane, threshold);
      WeightsOfPrefix(tasks, threshold, n);
    }
  }

  /** When every task is longer than a third of t, and some assignment of all of them finishes by t, the
      least-loaded greedy lane has room for the last task. */
  lemma LastTaskFits(tasks: seq<nat>, f: seq<nat>, best: seq<nat>, m: nat, t: nat)
    requires m > 0 && tasks != [] && Assignment(best, tasks, m) && FinishesBy(tasks, best, m, t)
    requires Descending(tasks) && 3 * tasks[|tasks| - 1] > t
    requires Assignment(f, tasks[..|tasks| - 1], m)
    ensures Load(tasks[..|tasks| - 1], f, LeastLane(Lanes(tasks[..|tasks| - 1], f, m))) + tasks[|tasks| - 1] <= t
  {
    var n := |tasks| - 1;
    var head, last := tasks[..n], tasks[n];
    TaskWithinLoad(tasks, best, n);
    var threshold := t - last;
    var lanes := Lanes(head, f, m);
    var least := LeastLane(lanes);
    var w := Weights(tasks, threshold);
    assert Sum(w) == Sum(w[..n]) + w[n];
    if lanes[least] > threshold {
      forall lane: nat | lane < m ensures Load(w[..n], f, lane) >= 2 {
        assert lanes[lane] >= lanes[least];
        LoadedLaneWeight(head, f, lane, threshold);
        WeightsOfPrefix(tasks, threshold, n);
      }
      TotalAtLeast(w[..n], f, m, 2);
      LoadsSumToTotal(w[..n], f, m);
      forall lane: nat | lane < m ensures Load(w, best, lane) <= 2 {
        FinishedLaneWeight(tasks, best, lane, t, last);
      }
      TotalAtMost(w, best, m, 2);
      LoadsSumToTotal(w, best, m);
    }
  }

  /** load <= (4/3 - 1/(3m)) * t. */
  predicate WithinGraham(m: nat, load: nat, t: nat) {
    3 * Times(m, load) + t <= 4 * Times(m, t)
  }

  /** Every greedy lane is within Graham's bound, when the tasks come longest first and some assignment
      finishes them by t. */
  lemma {:induction false} LptLaneBound(tasks: seq<nat>, best: seq<nat>, m: nat, t: nat, lane: nat)
    requires m > 0 && lane < m && Descending(tasks)
    requires Assignment(best, tasks, m) && FinishesBy(tasks, best, m, t)
    ensures WithinGraham(m, Load(tasks, Greedy(tasks, m), lane), t)
  {
    if tasks == [] {
      WholeFits(m, 0, t);
    } else {
      var n := |tasks| - 1;
      var head := tasks[..n];
      var f := Greedy(head, m);
      GreedyLoad(tasks, m, lane);
      if lane == LeastLane(Lanes(head, f, m)) {
        LptStep(tasks, f, best, m, t);
      } else {
        forall l: nat | l < m ensures Load(head, best[..n], l) <= t {
          LoadOfPrefix(tasks, best, l, n);
        }
        LptLaneBound(head, best[..n], m, t, lane);
      }
    }
  }

  /** The least-loaded lane stays within the bound when the last task joins it. */
  lemma LptStep(tasks: seq<nat>, f: seq<nat>, best: seq<nat>, m: nat, t: nat)
    requires m > 0 && tasks != [] && Descending(tasks)
    requires Assignment(best, tasks, m) && FinishesBy(tasks, best, m, t)
    requires Assignment(f, tasks[..|tasks| - 1], m)
    ensures var n := |tasks| - 1;
      WithinGraham(m, Load(tasks[..n], f, LeastLane(Lanes(tasks[..n], f, m))) + tasks[n], t)
  {
    var n := |tasks| - 1;
    var head, last := tasks[..n], tasks[n];
    var load := Load(head, f, LeastLane(Lanes(head, f, m)));
    if 3 * last > t {
      LastTaskFits(tasks, f, best, m, t);
      WholeFits(m, load + last, t);
    } else {
      LeastLoadBelowAverage(head, f, m);
      TotalAtMost(tasks, best, m, t);
      LoadsSumToTotal(tasks, best, m);
      ShortTaskArithmetic(m, load, last, Sum(head), t);
    }
  }

  lemma WholeFits(m: nat, load: nat, t: nat)
    requires m > 0 && load <= t
    ensures WithinGraham(m, load, t)
  {
    TimesMonotone(m, load, t);
  }

  lemma ShortTaskArithmetic(m: nat, load: nat, last: nat, before: nat, t: nat)
    requires m > 0 && Times(m, load) <= before && before + last <= Times(m, t) && 3 * last <= t
    ensures WithinGraham(m, load + last, t)
  {
    TimesAdd(m, load, last);
    TimesMonotone(m - 1, last, t);
  }

  // The order of the task list does not matter to what an assignment can achieve

  function RemoveAt<T>(s: seq<T>, j: nat): seq<T>
    requires j < |s|
  {
    s[..j] + s[j + 1..]
  }

  lemma {:induction false} LoadWithout(tasks: seq<nat>, f: seq<nat>, j: nat, lane: nat)
    requires |f| == |tasks| && j < |tasks|
    ensures Load(tasks, f, lane)
         == Load(RemoveAt(tasks, j), RemoveAt(f, j), lane) + if f[j] == lane then tasks[j] else 0
  {
    var n := |tasks| - 1;
    if j == n {
      assert RemoveAt(tasks, j) == tasks[..n] && RemoveAt(f, j) == f[..n];
    } else {
      LoadWithout(tasks[..n], f[..n], j, lane);
      var a, b := RemoveAt(tasks, j), RemoveAt(f, j);
      assert a[..n - 1] == RemoveAt(tasks[..n], j) && b[..n - 1] == RemoveAt(f[..n], j);
      assert a[n - 1] == tasks[n] && b[n - 1] == f[n];
    }
  }

  lemma RemoveAtMultiset(tasks: seq<nat>, other: seq<nat>, j: nat)
    requires tasks != [] && j < |other| && other[j] == tasks[|tasks| - 1]
    requires multiset(tasks) == multiset(other)
    ensures multiset(RemoveAt(other, j)) == multiset(tasks[..|tasks| - 1])
  {
    var n := |tasks| - 1;
    assert other == other[..j] + [other[j]] + other[j + 1..];
    assert tasks == tasks[..n] + [tasks[n]];
    assert multiset(RemoveAt(other, j)) == multiset(other) - multiset{other[j]};
    assert multiset(tasks[..n]) == multiset(tasks) - multiset{tasks[n]};
  }

  lemma ReinsertLane(other: seq<nat>, h: seq<nat>, j: nat, lane: nat, m: nat) returns (g: seq<nat>)
    requires j < |other| && Assignment(h, RemoveAt(other, j), m) && lane < m
    ensures Assignment(g, other, m)
    ensures forall l: nat :: Load(other, g, l) == Load(RemoveAt(other, j), h, l) + if l == lane then other[j] else 0
  {
    g := h[..j] + [lane] + h[j..];
    assert RemoveAt(g, j) == h;
    forall l: nat
      ensures Load(other, g, l) == Load(RemoveAt(other, j), h, l) + if l == lane then other[j] else 0
    {
      LoadWithout(other, g, j, l);
    }
  }

  /** Any assignment of a list carries over to any rearrangement of it, lane by lane. */
  lemma {:induction false} Rearranged(tasks: seq<nat>, f: seq<nat>, other: seq<nat>, m: nat) returns (g: seq<nat>)
    requires Assignment(f, tasks, m) && multiset(tasks) == multiset(other)
    ensures Assignment(g, other, m)
    ensures forall lane: nat :: Load(other, g, lane) == Load(tasks, f, lane)
    decreases |tasks|
  {
    if tasks == [] {
      assert |multiset(other)| == 0;
      g := [];
    } else {
      var n := |tasks| - 1;
      assert tasks[n] in multiset(tasks);
      assert tasks[n] in other;
      var j: nat :| j < |other| && other[j] == tasks[n];
      RemoveAtMultiset(tasks, other, j);
      var h := Rearranged(tasks[..n], f[..n], RemoveAt(other, j), m);
      g := ReinsertLane(other, h, j, f[n], m);
    }
  }

  lemma LptWithinGraham(tasks: seq<nat>, m: nat, best: seq<nat>, t: nat)
    requires m > 0 && Assignment(best, tasks, m) && FinishesBy(tasks, best, m, t)
    ensures WithinGraham(m, Max(GreedyLanes(SortedDescending(tasks), m)), t)
  {
    var sorted := SortedDescending(tasks);
    SortedIsSorted(tasks);
    var g := Rearranged(tasks, best, sorted, m);
    var lane := BusiestLane(sorted, Greedy(sorted, m), m);
    LptLaneBound(sorted, g, m, t, lane);
  }

  /** Graham's LPT theorem for the scheduler as written: against every assignment of the tasks to the lanes,
      and every time t by which that assignment finishes, makespan <= (4/3 - 1/(3m)) * t. */
  lemma LptQuality(tasks: seq<nat>, workers: int, best: seq<nat>, t: nat)
    requires Assignment(best, tasks, LaneCount(workers)) && FinishesBy(tasks, best, LaneCount(workers), t)
    ensures var m := LaneCount(workers);
      3 * m * Max(GreedyLanes(SortedDescending(tasks), m)) <= (4 * m - 1) * t
  {
    var m := LaneCount(workers);
    LptWithinGraham(tasks, m, best, t);
    GrahamInNumbers(m, Max(GreedyLanes(SortedDescending(tasks), m)), t);
  }

  lemma GrahamInNumbers(m: nat, load: nat, t: nat)
    requires WithinGraham(m, load, t)
    ensures 3 * m * load <= (4 * m - 1) * t
  {
    TimesIsProduct(m, load);
    TimesIsProduct(m, t);
    assert 3 * m * load == 3 * (m * load);
    assert (4 * m - 1) * t == 4 * (m * t) - t;
  }

  lemma BusiestLane(tasks: seq<nat>, f: seq<nat>, m: nat) returns (lane: nat)
    requires |f| == |tasks| && m > 0
    ensures lane < m && Load(tasks, f, lane) == Max(Lanes(tasks, f, m))
  {
    var lanes := Lanes(tasks, f, m);
    assert Max(lanes) in lanes;
    lane :| lane < m && lanes[lane] == Max(lanes);
  }

  lemma SumOfRearrangement(a: seq<nat>, b: seq<nat>)
    requires multiset(a) == multiset(b)
    ensures Sum(a) == Sum(b)
  {
    var f := Zeros(|a|);
    LoadsSumToTotal(a, f, 1);
    var g := Rearranged(a, f, b, 1);
    LoadsSumToTotal(b, g, 1);
    assert TotalLoad(a, f, 1) == TotalLoad(a, f, 0) + Load(a, f, 0);
    assert TotalLoad(b, g, 1) == TotalLoad(b, g, 0) + Load(b, g, 0);
  }

  /** The makespan lies between the average and the list-scheduling bound:
      total <= m * makespan <= total + (m - 1) * longest task. */
  lemma MakespanWithinList(tasks: seq<nat>, workers: int)
    ensures var sorted, m := SortedDescending(tasks), LaneCount(workers);
      var makespan := Max(GreedyLanes(sorted, m));
      Sum(tasks) <= m * makespan <= Sum(tasks) + (m - 1) * Max(tasks)
  {
    hide Greedy, Lanes, Max, SortedDescending;
    var sorted, m := SortedDescending(tasks), LaneCount(workers);
    SortedIsSorted(tasks);
    SumOfRearrangement(tasks, sorted);
    forall i | 0 <= i < |sorted| ensures sorted[i] <= Max(tasks) {
      assert sorted[i] in multiset(sorted);
      assert sorted[i] in tasks;
    }
    var makespan := Max(GreedyLanes(sorted, m));
    var lane := BusiestLane(sorted, Greedy(sorted, m), m);
    ListSchedulingBound(sorted, m, Max(tasks), lane);
    AverageBelowMakespan(sorted, Greedy(sorted, m), m);
    TimesIsProduct(m, makespan);
    TimesIsProduct(m - 1, Max(tasks));
  }

  lemma AverageBelowMakespan(tasks: seq<nat>, f: seq<nat>, m: nat)
    requires Assignment(f, tasks, m)
    ensures Sum(tasks) <= Times(m, Max(Lanes(tasks, f, m)))
  {
    var lanes := Lanes(tasks, f, m);
    forall l: nat | l < m ensures Load(tasks, f, l) <= Max(lanes) {
      assert lanes[l] in lanes;
    }
    TotalAtMost(tasks, f, m, Max(lanes));
    LoadsSumToTotal(tasks, f, m);
  }

  lemma LoadsWithinMakespan(tasks: seq<nat>, f: seq<nat>, m: nat)
    requires Assignment(f, tasks, m)
    ensures FinishesBy(tasks, f, m, Max(Lanes(tasks, f, m)))
  {
    var lanes := Lanes(tasks, f, m);
    forall l: nat | l < m ensures Load(tasks, f, l) <= Max(lanes) {
      assert lanes[l] in lanes;
    }
  }

  lemma SameLoadsAchieved(sorted: seq<nat>, f: seq<nat>, tasks: seq<nat>, m: nat) returns (g: seq<nat>, lane: nat)
    requires m > 0 && Assignment(f, sorted, m) && multiset(sorted) == multiset(tasks)
    ensures Assignment(g, tasks, m) && FinishesBy(tasks, g, m, Max(Lanes(sorted, f, m)))
    ensures lane < m && Load(tasks, g, lane) == Max(Lanes(sorted, f, m))
  {
    LoadsWithinMakespan(sorted, f, m);
    g := Rearranged(sorted, f, tasks, m);
    lane := BusiestLane(sorted, f, m);
  }

  /** The makespan is really reached: some assignment of the tasks, in their own order, finishes exactly then. */
  lemma GreedyIsAchieved(tasks: seq<nat>, workers: int) returns (g: seq<nat>, lane: nat)
    ensures var m := LaneCount(workers);
      var makespan := Max(GreedyLanes(SortedDescending(tasks), m));
      && Assignment(g, tasks, m) && FinishesBy(tasks, g, m, makespan)
      && lane < m && Load(tasks, g, lane) == makespan
  {
    var m, sorted := LaneCount(workers), SortedDescending(tasks);
    SortedIsSorted(tasks);
    g, lane := SameLoadsAchieved(sorted, Greedy(sorted, m), tasks, m);
  }
}
