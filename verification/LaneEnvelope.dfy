/** What rounding every job to 32 lanes can cost, when only the number of jobs, their vertex total and their total rounded
    to 64 lanes are known: the envelope that is computed, and exactly which totals job lists reach. */
module LaneEnvelope {
  import opened Arithmetic

  const LOCAL_SIZE_64 := 64
  const LOCAL_SIZE_32 := 32

  function RoundUp(value: nat, alignment: nat): nat
    requires alignment > 0
  {
    (value + alignment - 1) / alignment * alignment
  }

  function RoundDown(value: nat, alignment: nat): nat
    requires alignment > 0
  {
    value / alignment * alignment
  }

  function RoundedSum(vertices: seq<nat>, alignment: nat): nat
    requires alignment > 0
  {
    if vertices == [] then 0
    else RoundedSum(vertices[..|vertices| - 1], alignment) + RoundUp(vertices[|vertices| - 1], alignment)
  }

  lemma JobRounding(value: nat) returns (groups: nat)
    ensures RoundUp(value, LOCAL_SIZE_32) == 32 * groups && value <= 32 * groups <= value + 31
    ensures 32 * groups <= RoundUp(value, LOCAL_SIZE_64)
  {
    groups := (value + 31) / 32;
    assert groups <= 2 * ((value + 63) / 64);
  }

  lemma {:induction false} RoundedSumFacts(vertices: seq<nat>) returns (groups: nat)
    ensures RoundedSum(vertices, LOCAL_SIZE_32) == 32 * groups <= RoundedSum(vertices, LOCAL_SIZE_64)
    ensures Sum(vertices) <= 32 * groups <= Sum(vertices) + 31 * |vertices|
  {
    if vertices == [] {
      groups := 0;
    } else {
      var n := |vertices| - 1;
      var earlier := RoundedSumFacts(vertices[..n]);
      var last := JobRounding(vertices[n]);
      groups := earlier + last;
    }
  }

  lemma BetweenRoundings(low: nat, groups: nat, high: nat)
    requires low <= 32 * groups <= high
    ensures RoundUp(low, LOCAL_SIZE_32) <= 32 * groups <= RoundDown(high, LOCAL_SIZE_32)
  {
    assert (low + 31) / 32 <= groups <= high / 32;
  }

  /** The two ends as computed. */
  function EnvelopeLower(actual: nat): nat {
    RoundUp(actual, LOCAL_SIZE_32)
  }

  function EnvelopeUpper(n: nat, actual: nat, rounded64: nat): nat {
    Smaller(rounded64, RoundDown(actual + (LOCAL_SIZE_32 - 1) * n, LOCAL_SIZE_32))
  }

  /** The local-size-32 envelope holds for every job list the run could have had: whatever the jobs, if they add up to
      `actual` vertices and round to `rounded64` lanes of 64, then rounding them to 32 lands inside the envelope. */
  lemma LocalSize32Envelope(vertices: seq<nat>, actual: nat, rounded64: nat)
    requires Sum(vertices) == actual && RoundedSum(vertices, LOCAL_SIZE_64) == rounded64
    ensures EnvelopeLower(actual) <= RoundedSum(vertices, LOCAL_SIZE_32)
    ensures RoundedSum(vertices, LOCAL_SIZE_32) <= EnvelopeUpper(|vertices|, actual, rounded64)
  {
    var groups := RoundedSumFacts(vertices);
    BetweenRoundings(actual, groups, actual + 31 * |vertices|);
  }

  // Exactly which totals are reached

  /** Some list of n jobs, none of them empty, has these three totals. */
  ghost predicate Reached(n: nat, actual: int, rounded64: int, rounded32: int) {
    exists v: seq<nat> ::
      && |v| == n && (forall i | 0 <= i < n :: v[i] >= 1) && Sum(v) == actual
      && RoundedSum(v, LOCAL_SIZE_64) == rounded64 && RoundedSum(v, LOCAL_SIZE_32) == rounded32
  }

  /** A job of `groups` groups of 64 lanes whose last group is at most half full or not. */
  lemma JobLanes(value: int, groups: nat, half: nat)
    requires groups >= 1 && half <= 1 && 64 * groups - 32 * half - 31 <= value <= 64 * groups - 32 * half
    ensures value >= 1 && RoundUp(value, LOCAL_SIZE_64) == 64 * groups
    ensures RoundUp(value, LOCAL_SIZE_32) == 64 * groups - 32 * half
  {
    assert (value + 63) / 64 == groups;
    assert (value + 31) / 32 == 2 * groups - half;
  }

  lemma LanesOfJob(value: nat) returns (groups: nat, half: nat)
    requires value >= 1
    ensures groups >= 1 && half <= 1 && 64 * groups - 32 * half - 31 <= value <= 64 * groups - 32 * half
  {
    groups := (value + 63) / 64;
    half := if value <= 64 * groups - 32 then 1 else 0;
  }

  /** How many groups and half-full jobs a list has, and what that says about its total. */
  predicate LanesFit(n: nat, groups: nat, halves: nat, actual: int) {
    && halves <= n <= groups && (n == 0 ==> groups == 0)
    && 64 * groups - 32 * halves - 31 * n <= actual <= 64 * groups - 32 * halves
  }

  lemma {:induction false} LanesOfList(v: seq<nat>) returns (groups: nat, halves: nat)
    requires forall i | 0 <= i < |v| :: v[i] >= 1
    ensures LanesFit(|v|, groups, halves, Sum(v))
    ensures RoundedSum(v, LOCAL_SIZE_64) == 64 * groups
    ensures RoundedSum(v, LOCAL_SIZE_32) == 64 * groups - 32 * halves
  {
    if v == [] {
      groups, halves := 0, 0;
    } else {
      var n := |v| - 1;
      var g, h := LanesOfList(v[..n]);
      var lastGroups, half := LanesOfJob(v[n]);
      JobLanes(v[n], lastGroups, half);
      groups, halves := g + lastGroups, h + half;
    }
  }

  /** The last job takes one group, half full while there are halves to place; a single job takes everything. */
  lemma LastJob(n: nat, groups: nat, halves: nat, actual: int) returns (mine: nat, half: nat, last: int)
    requires n > 0 && LanesFit(n, groups, halves, actual)
    ensures 1 <= mine <= groups && half <= 1 && half <= halves
    ensures 64 * mine - 32 * half - 31 <= last <= 64 * mine - 32 * half
    ensures LanesFit(n - 1, groups - mine, halves - half, actual - last)
  {
    mine := if n == 1 then groups else 1;
    half := if halves > 0 then 1 else 0;
    var most := 64 * (groups - mine) - 32 * (halves - half);
    last := Larger(64 * mine - 32 * half - 31, actual - most);
  }

  lemma SumsOfLonger(v: seq<nat>, last: nat)
    ensures Sum(v + [last]) == Sum(v) + last
    ensures RoundedSum(v + [last], LOCAL_SIZE_64) == RoundedSum(v, LOCAL_SIZE_64) + RoundUp(last, LOCAL_SIZE_64)
    ensures RoundedSum(v + [last], LOCAL_SIZE_32) == RoundedSum(v, LOCAL_SIZE_32) + RoundUp(last, LOCAL_SIZE_32)
  {
    hide RoundUp;
    assert (v + [last])[..|v|] == v;
  }

  lemma {:induction false} ListOfLanes(n: nat, groups: nat, halves: nat, actual: int) returns (v: seq<nat>)
    requires LanesFit(n, groups, halves, actual)
    ensures |v| == n && (forall i | 0 <= i < n :: v[i] >= 1) && Sum(v) == actual
    ensures RoundedSum(v, LOCAL_SIZE_64) == 64 * groups
    ensures RoundedSum(v, LOCAL_SIZE_32) == 64 * groups - 32 * halves
  {
    if n == 0 {
      v := [];
    } else {
      hide LanesFit, RoundUp, RoundedSum, Sum;
      var mine, half, last := LastJob(n, groups, halves, actual);
      JobLanes(last, mine, half);
      var rest := ListOfLanes(n - 1, groups - mine, halves - half, actual - last);
      v := rest + [last];
      SumsOfLonger(rest, last);
    }
  }

  /** Multiples of 32 between two sharper bounds, with a total at 64 lanes that a list of so many jobs can have. */
  predicate Within(n: nat, actual: int, rounded64: int, rounded32: int) {
    && rounded64 % 64 == 0 && rounded64 >= 64 * n && (n == 0 ==> rounded64 == 0) && rounded32 % 32 == 0
    && Larger(actual, rounded64 - 32 * n) <= rounded32 <= Smaller(rounded64, actual + 31 * n)
  }

  lemma LanesAreWithin(n: nat, groups: nat, halves: nat, actual: int)
    ensures LanesFit(n, groups, halves, actual) <==>
              halves <= n && Within(n, actual, 64 * groups, 64 * groups - 32 * halves)
  {
  }

  lemma LanesOf(rounded64: int, rounded32: int) returns (groups: int, halves: int)
    requires rounded64 % 64 == 0 && rounded32 % 32 == 0
    ensures rounded64 == 64 * groups && rounded32 == 64 * groups - 32 * halves
  {
    groups := rounded64 / 64;
    halves := 2 * groups - rounded32 / 32;
  }

  /** The totals at 32 lanes that some job list reaches, exactly. */
  lemma ReachedExactly(n: nat, actual: int, rounded64: int, rounded32: int)
    ensures Reached(n, actual, rounded64, rounded32) <==> Within(n, actual, rounded64, rounded32)
  {
    if Reached(n, actual, rounded64, rounded32) {
      ReachedIsWithin(n, actual, rounded64, rounded32);
    }
    if Within(n, actual, rounded64, rounded32) {
      hide RoundedSum, Sum, RoundUp;
      var groups, halves := LanesOf(rounded64, rounded32);
      LanesAreWithin(n, groups, halves, actual);
      var v := ListOfLanes(n, groups, halves, actual);
    }
  }

  lemma ReachedIsWithin(n: nat, actual: int, rounded64: int, rounded32: int)
    requires Reached(n, actual, rounded64, rounded32)
    ensures Within(n, actual, rounded64, rounded32)
  {
    hide RoundedSum, Sum, RoundUp;
    var v: seq<nat> :|
      && |v| == n && (forall i | 0 <= i < n :: v[i] >= 1) && Sum(v) == actual
      && RoundedSum(v, LOCAL_SIZE_64) == rounded64 && RoundedSum(v, LOCAL_SIZE_32) == rounded32;
    var groups, halves := LanesOfList(v);
    LanesAreWithin(n, groups, halves, actual);
  }

  /** For totals that come from a run, the upper end is always reached, and the lower end exactly when half-full groups
      alone could account for it. */
  lemma EnvelopeEnds(n: nat, actual: nat, rounded64: nat)
    requires exists rounded32 :: Reached(n, actual, rounded64, rounded32)
    ensures Reached(n, actual, rounded64, EnvelopeUpper(n, actual, rounded64))
    ensures Reached(n, actual, rounded64, EnvelopeLower(actual)) <==> rounded64 - 32 * n <= EnvelopeLower(actual)
  {
    hide Reached;
    var rounded32 :| Reached(n, actual, rounded64, rounded32);
    ReachedExactly(n, actual, rounded64, rounded32);
    ReachedExactly(n, actual, rounded64, EnvelopeLower(actual));
    ReachedExactly(n, actual, rounded64, EnvelopeUpper(n, actual, rounded64));
    var groups, halves := LanesOf(rounded64, rounded32);
    UpperWithin(n, actual, groups, halves);
    LowerWithinIff(n, actual, groups, halves);
  }

  lemma MultipleWithin(n: nat, actual: nat, groups: int, k: int)
    requires 64 * groups >= 64 * n && (n == 0 ==> groups == 0)
    requires Larger(actual, 64 * groups - 32 * n) <= 32 * k <= Smaller(64 * groups, actual + 31 * n)
    ensures Within(n, actual, 64 * groups, 32 * k)
  {
    Multiples(groups, k);
  }

  lemma Multiples(groups: int, k: int)
    ensures 64 * groups % 64 == 0 && 32 * k % 32 == 0
  {
  }

  lemma UpperWithin(n: nat, actual: nat, groups: int, halves: int)
    requires groups >= 0 && Within(n, actual, 64 * groups, 64 * groups - 32 * halves)
    ensures Within(n, actual, 64 * groups, EnvelopeUpper(n, actual, 64 * groups))
  {
    var k := MostMultiple(actual + 31 * n, 2 * groups - halves);
    MultipleWithin(n, actual, groups, Smaller(2 * groups, k));
    hide RoundDown, Within;
  }

  lemma LowerWithinIff(n: nat, actual: nat, groups: int, halves: int)
    requires groups >= 0 && Within(n, actual, 64 * groups, 64 * groups - 32 * halves)
    ensures Within(n, actual, 64 * groups, EnvelopeLower(actual)) <==> 64 * groups - 32 * n <= EnvelopeLower(actual)
  {
    LeastMultiple(actual, 2 * groups - halves);
    hide RoundUp;
  }

  lemma LeastMultiple(low: nat, k: int)
    requires low <= 32 * k
    ensures RoundUp(low, LOCAL_SIZE_32) % 32 == 0 && low <= RoundUp(low, LOCAL_SIZE_32) <= 32 * k
    ensures RoundUp(low, LOCAL_SIZE_32) <= low + 31
  {
    assert (low + 31) / 32 <= k;
  }

  lemma MostMultiple(high: nat, k: int) returns (most: nat)
    requires 0 <= 32 * k <= high
    ensures RoundDown(high, LOCAL_SIZE_32) == 32 * most <= high && k <= most
  {
    most := high / 32;
  }

  /** Two jobs of one vertex that filled two groups of 64 can only take 64 lanes, though the computed lower end is 32. */
  lemma LowerEndMissed(rounded32: int)
    ensures EnvelopeLower(2) == 32
    ensures Reached(2, 2, 128, rounded32) <==> rounded32 == 64
  {
    ReachedExactly(2, 2, 128, rounded32);
  }
}
