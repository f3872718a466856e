/** The night-pressure recovery verdict: which relief frames are valid, what the recovery contract asks of them, and what
    a pass of the merged run establishes. */
module RecoveryWindow {
  import opened Arithmetic
  import opened RecoverySeries
  import opened Wrappers

  datatype Contract = Contract(minReliefFrames: nat, minSustainedValidFrames: nat, maxInvalidRunFrames: nat,
                               minFreshCompleteFrames: nat)

  const RECOVERY_CONTRACT := Contract(60, 60, 6, 8)

  datatype Phases = Phases(pressureStart: int, pressureEnd: int, reliefStart: int, reliefEnd: int)

  datatype Failure =
    | PhaseRowsMissing | InsufficientReliefFrames | RenderSerialDecreased | InvalidRunExceedsContract
    | NotSustainedToEnd | NoFreshCompleteRender | LastFrameInvalid | ReceiverInactive | CasterZero
    | CasterCapSkipNonzero | PartialShadowPublication

  datatype Verdict = Pass | Uncovered | Fail

  // Rows of a phase

  function Between(rows: seq<Row>, start: int, end: int): seq<Row> {
    if rows == [] then []
    else
      var last := rows[|rows| - 1];
      Between(rows[..|rows| - 1], start, end) + if start <= last.serial <= end then [last] else []
  }

  lemma {:induction false} BetweenKeeps(rows: seq<Row>, start: int, end: int)
    ensures forall r :: r in Between(rows, start, end) <==> r in rows && start <= r.serial <= end
    ensures Ascending(rows) ==> Ascending(Between(rows, start, end))
  {
    if rows != [] {
      var n := |rows| - 1;
      BetweenKeeps(rows[..n], start, end);
      assert rows == rows[..n] + [rows[n]];
      var earlier := Between(rows[..n], start, end);
      forall i | 0 <= i < |earlier| ensures Ascending(rows) ==> earlier[i].serial < rows[n].serial {
        assert earlier[i] in rows[..n];
      }
    }
  }

  // Whole parts

  /** A number without its fraction: the judgements on single frames see only this. */
  function Truncate(x: real): int {
    if x >= 0.0 then x.Floor else -(-x).Floor
  }

  lemma TruncateMeans(x: real)
    ensures Truncate(x) > 0 <==> x >= 1.0
    ensures Truncate(x) == 0 <==> -1.0 < x < 1.0
    ensures Truncate(x) == 1 <==> 1.0 <= x < 2.0
  {
  }

  // Which relief frames are valid

  function RenderSerial(r: Row): int {
    Truncate(r.renderSerial)
  }

  function MaxRenderSerial(rows: seq<Row>): (m: int)
    requires rows != []
    ensures exists r | r in rows :: RenderSerial(r) == m
    ensures forall r | r in rows :: RenderSerial(r) <= m
  {
    var n := |rows| - 1;
    assert rows[n] in rows;
    if n == 0 then RenderSerial(rows[0])
    else
      assert rows == rows[..n] + [rows[n]];
      Larger(MaxRenderSerial(rows[..n]), RenderSerial(rows[n]))
  }

  /** The largest render serial before relief frame i, counting the pressure phase. */
  function Seen(pressureMax: int, relief: seq<Row>, i: nat): int
    requires i <= |relief|
  {
    if i == 0 then pressureMax else Larger(Seen(pressureMax, relief, i - 1), RenderSerial(relief[i - 1]))
  }

  predicate Fresh(pressureMax: int, relief: seq<Row>, i: nat)
    requires i < |relief|
  {
    RenderSerial(relief[i]) > Seen(pressureMax, relief, i)
  }

  predicate ReceiverOk(r: Row) {
    Truncate(r.receiver) == 1 && Truncate(r.hasReceiver) == 1 && Truncate(r.casters) > 0
  }

  predicate Complete(r: Row) {
    Truncate(r.partial) == 0 && ReceiverOk(r) && Truncate(r.skipped) == 0
  }

  predicate Valid(pressureMax: int, relief: seq<Row>, i: nat)
    requires i < |relief|
  {
    Complete(relief[i]) && (Fresh(pressureMax, relief, i) || Truncate(relief[i].reused) == 1)
  }

  predicate FreshComplete(pressureMax: int, relief: seq<Row>, i: nat)
    requires i < |relief|
  {
    Fresh(pressureMax, relief, i) && Complete(relief[i])
  }

  function FreshCount(pressureMax: int, relief: seq<Row>, n: nat): nat
    requires n <= |relief|
  {
    if n == 0 then 0
    else FreshCount(pressureMax, relief, n - 1) + if FreshComplete(pressureMax, relief, n - 1) then 1 else 0
  }

  ghost predicate FlagsOf(flags: seq<bool>, pressureMax: int, relief: seq<Row>, n: nat)
    requires n <= |relief|
  {
    |flags| == n && forall i: nat | i < n :: flags[i] == Valid(pressureMax, relief, i)
  }

  method Classify(pressureMax: int, relief: seq<Row>) returns (valid: seq<bool>, newly: nat)
    ensures FlagsOf(valid, pressureMax, relief, |relief|) && newly == FreshCount(pressureMax, relief, |relief|)
  {
    valid, newly := [], 0;
    var previous := pressureMax;
    for i := 0 to |relief|
      invariant previous == Seen(pressureMax, relief, i)
      invariant FlagsOf(valid, pressureMax, relief, i) && newly == FreshCount(pressureMax, relief, i)
    {
      var r := relief[i];
      var serial := Truncate(r.renderSerial);
      var isFresh := serial > previous;
      var receiverOk := Truncate(r.receiver) == 1 && Truncate(r.hasReceiver) == 1 && Truncate(r.casters) > 0;
      var complete := Truncate(r.partial) == 0 && receiverOk && Truncate(r.skipped) == 0;
      valid := valid + [complete && (isFresh || Truncate(r.reused) == 1)];
      newly := newly + if isFresh && complete then 1 else 0;
      previous := Larger(previous, serial);
    }
  }

  // Runs of invalid frames

  predicate InRun(runs: seq<Gap>, i: int) {
    exists k | 0 <= k < |runs| :: runs[k].first <= i <= runs[k].last
  }

  /** The maximal runs of false flags among the first n, in order. */
  ghost predicate RunsOf(runs: seq<Gap>, flags: seq<bool>, n: nat)
    requires n <= |flags|
  {
    && (forall i | 0 <= i < n :: InRun(runs, i) <==> !flags[i])
    && (forall k | 0 <= k < |runs| :: 0 <= runs[k].first <= runs[k].last < n)
    && (forall k, l | 0 <= k < l < |runs| :: runs[k].last + 1 < runs[l].first)
  }

  ghost predicate OpenRun(start: nat, flags: seq<bool>, i: nat)
    requires i <= |flags|
  {
    start < i && (forall j | start <= j < i :: !flags[j]) && (start > 0 ==> flags[start - 1])
  }

  lemma CloseRun(runs: seq<Gap>, flags: seq<bool>, start: nat, n: nat)
    requires start < n <= |flags| && RunsOf(runs, flags, start) && OpenRun(start, flags, n)
    ensures RunsOf(runs + [Gap(start, n - 1)], flags, n)
  {
    var longer := runs + [Gap(start, n - 1)];
    forall i | 0 <= i < n ensures InRun(longer, i) <==> !flags[i] {
      if i < start {
        if InRun(runs, i) {
          var k :| 0 <= k < |runs| && runs[k].first <= i <= runs[k].last;
          assert longer[k] == runs[k];
        }
        assert InRun(longer, i) ==> InRun(runs, i);
      } else {
        assert longer[|runs|].first <= i <= longer[|runs|].last;
      }
    }
    forall k | 0 <= k < |runs| ensures runs[k].last + 1 < start {
      assert InRun(runs, runs[k].last);
    }
  }

  lemma KeepRuns(runs: seq<Gap>, flags: seq<bool>, n: nat)
    requires n < |flags| && RunsOf(runs, flags, n) && flags[n]
    ensures RunsOf(runs, flags, n + 1)
  {
  }

  method InvalidRuns(flags: seq<bool>) returns (runs: seq<Gap>)
    ensures RunsOf(runs, flags, |flags|)
  {
    runs := [];
    var start: Option<nat> := None;
    assert RunsOf(runs, flags, 0);
    hide RunsOf, InRun;
    for i := 0 to |flags|
      invariant start.None? ==> RunsOf(runs, flags, i) && (i > 0 ==> flags[i - 1])
      invariant start.Some? ==> start.value < i && RunsOf(runs, flags, start.value) && OpenRun(start.value, flags, i)
    {
      if flags[i] && start.None? {
        KeepRuns(runs, flags, i);
      }
      if !flags[i] && start.None? {
        start := Some(i);
      }
      if flags[i] && start.Some? {
        CloseRun(runs, flags, start.value, i);
        runs := runs + [Gap(start.value, i - 1)];
        KeepRuns(runs, flags, i);
        start := None;
      }
    }
    if start.Some? {
      CloseRun(runs, flags, start.value, |flags|);
      runs := runs + [Gap(start.value, |flags| - 1)];
    }
  }

  ghost predicate InvalidWindow(flags: seq<bool>, i: nat, length: nat) {
    i + length <= |flags| && forall j | i <= j < i + length :: !flags[j]
  }

  ghost predicate HasInvalidWindow(flags: seq<bool>, length: nat) {
    exists i: nat :: InvalidWindow(flags, i, length)
  }

  method LongestRun(runs: seq<Gap>, ghost flags: seq<bool>) returns (longest: nat)
    requires RunsOf(runs, flags, |flags|)
    ensures HasInvalidWindow(flags, longest) && !HasInvalidWindow(flags, longest + 1)
  {
    longest := 0;
    assert InvalidWindow(flags, 0, 0);
    for k := 0 to |runs|
      invariant HasInvalidWindow(flags, longest)
      invariant forall j | 0 <= j < k :: runs[j].last - runs[j].first + 1 <= longest
    {
      if runs[k].last - runs[k].first + 1 > longest {
        longest := runs[k].last - runs[k].first + 1;
        RunIsInvalid(runs, flags, k);
      }
    }
    NoWindowBeyond(runs, flags, longest);
  }

  lemma NoWindowBeyond(runs: seq<Gap>, flags: seq<bool>, longest: nat)
    requires RunsOf(runs, flags, |flags|)
    requires forall j | 0 <= j < |runs| :: runs[j].last - runs[j].first + 1 <= longest
    ensures !HasInvalidWindow(flags, longest + 1)
  {
    if HasInvalidWindow(flags, longest + 1) {
      var i: nat :| InvalidWindow(flags, i, longest + 1);
      var k := WindowInRun(runs, flags, i, longest + 1);
    }
  }

  lemma RunIsInvalid(runs: seq<Gap>, flags: seq<bool>, k: nat)
    requires RunsOf(runs, flags, |flags|) && k < |runs|
    ensures InvalidWindow(flags, runs[k].first, runs[k].last - runs[k].first + 1)
  {
    forall j | runs[k].first <= j <= runs[k].last ensures !flags[j] {
      assert InRun(runs, j);
    }
  }

  lemma WindowInRun(runs: seq<Gap>, flags: seq<bool>, i: nat, length: nat) returns (k: nat)
    requires RunsOf(runs, flags, |flags|) && length > 0 && InvalidWindow(flags, i, length)
    ensures k < |runs| && runs[k].first <= i && i + length - 1 <= runs[k].last
  {
    assert InRun(runs, i);
    k :| 0 <= k < |runs| && runs[k].first <= i <= runs[k].last;
    var after := runs[k].last + 1;
    assert after < i + length ==> InRun(runs, after);
  }

  /** The number of valid frames at the end. */
  method SustainedTail(flags: seq<bool>) returns (length: nat)
    ensures length <= |flags| && forall j | |flags| - length <= j < |flags| :: flags[j]
    ensures length < |flags| ==> !flags[|flags| - length - 1]
  {
    length := 0;
    while length < |flags| && flags[|flags| - length - 1]
      invariant length <= |flags| && forall j | |flags| - length <= j < |flags| :: flags[j]
    {
      length := length + 1;
    }
  }

  // The contract, frame by frame

  ghost predicate InvalidStretch(pressureMax: int, relief: seq<Row>, i: nat, length: nat) {
    i + length <= |relief| && forall j: nat | i <= j < i + length :: !Valid(pressureMax, relief, j)
  }

  ghost predicate HasStretch(pressureMax: int, relief: seq<Row>, length: nat) {
    exists i: nat :: InvalidStretch(pressureMax, relief, i, length)
  }

  /** Not all of the last `length` frames are there and valid. */
  predicate BreaksTail(pressureMax: int, relief: seq<Row>, length: nat) {
    |relief| < length || exists i: nat | |relief| - length <= i < |relief| :: !Valid(pressureMax, relief, i)
  }

  /** Unlike the other judgements this one compares the raw values. */
  predicate FallsAt(relief: seq<Row>, i: nat) {
    i + 1 < |relief| && relief[i + 1].renderSerial < relief[i].renderSerial
  }

  ghost predicate Fails(f: Failure, c: Contract, pressure: seq<Row>, relief: seq<Row>) {
    if pressure == [] || relief == [] then f == PhaseRowsMissing
    else
      var m, n := MaxRenderSerial(pressure), |relief|;
      match f
      case PhaseRowsMissing => false
      case InsufficientReliefFrames => n < c.minReliefFrames
      case RenderSerialDecreased => exists i: nat | i < n :: FallsAt(relief, i)
      case InvalidRunExceedsContract => HasStretch(m, relief, c.maxInvalidRunFrames + 1)
      case NotSustainedToEnd =>
        BreaksTail(m, relief, c.minSustainedValidFrames)
      case NoFreshCompleteRender => FreshCount(m, relief, n) < c.minFreshCompleteFrames
      case LastFrameInvalid => !Valid(m, relief, n - 1)
      case ReceiverInactive => forall r | r in relief :: !ReceiverOk(r)
      case CasterZero => exists r | r in relief :: Truncate(r.casters) <= 0
      case CasterCapSkipNonzero => exists r | r in relief :: Truncate(r.skipped) != 0
      case PartialShadowPublication => exists r | r in relief :: Truncate(r.partial) != 0
  }

  lemma StretchIsWindow(flags: seq<bool>, pressureMax: int, relief: seq<Row>, i: nat, length: nat)
    requires FlagsOf(flags, pressureMax, relief, |relief|)
    ensures InvalidWindow(flags, i, length) <==> InvalidStretch(pressureMax, relief, i, length)
  {
  }

  lemma LongestDecides(flags: seq<bool>, pressureMax: int, relief: seq<Row>, longest: nat, limit: nat)
    requires FlagsOf(flags, pressureMax, relief, |relief|)
    requires HasInvalidWindow(flags, longest) && !HasInvalidWindow(flags, longest + 1)
    ensures longest > limit <==> HasStretch(pressureMax, relief, limit + 1)
  {
    if longest > limit {
      var i: nat :| InvalidWindow(flags, i, longest);
      assert InvalidWindow(flags, i, limit + 1);
      StretchIsWindow(flags, pressureMax, relief, i, limit + 1);
    } else if HasStretch(pressureMax, relief, limit + 1) {
      var i: nat :| InvalidStretch(pressureMax, relief, i, limit + 1);
      StretchIsWindow(flags, pressureMax, relief, i, limit + 1);
      NoLongerWindow(flags, i, longest + 1, limit + 1);
    }
  }

  lemma NoLongerWindow(flags: seq<bool>, i: nat, short: nat, long: nat)
    requires InvalidWindow(flags, i, long) && short <= long
    ensures HasInvalidWindow(flags, short)
  {
    assert InvalidWindow(flags, i, short);
  }

  predicate FrameFailure(f: Failure) {
    f == ReceiverInactive || f == CasterZero || f == CasterCapSkipNonzero || f == PartialShadowPublication
  }

  lemma RunFailures(c: Contract, pressure: seq<Row>, relief: seq<Row>)
    requires pressure != [] && relief != []
    ensures var m, n := MaxRenderSerial(pressure), |relief|;
      forall f :: !FrameFailure(f) && Fails(f, c, pressure, relief) <==>
        || (f == InsufficientReliefFrames && n < c.minReliefFrames)
        || (f == RenderSerialDecreased && exists i: nat | i < n :: FallsAt(relief, i))
        || (f == InvalidRunExceedsContract && HasStretch(m, relief, c.maxInvalidRunFrames + 1))
        || (f == NotSustainedToEnd && BreaksTail(m, relief, c.minSustainedValidFrames))
        || (f == NoFreshCompleteRender && FreshCount(m, relief, n) < c.minFreshCompleteFrames)
        || (f == LastFrameInvalid && !Valid(m, relief, n - 1))
  {
    hide HasStretch, BreaksTail, FreshCount, Valid, MaxRenderSerial, FallsAt;
  }

  /** The judgements on runs of frames and on the render serials. */
  method JudgeRuns(c: Contract, pressure: seq<Row>, relief: seq<Row>) returns (failures: seq<Failure>)
    requires pressure != [] && relief != []
    ensures forall f :: f in failures <==> !FrameFailure(f) && Fails(f, c, pressure, relief)
  {
    var m := MaxRenderSerial(pressure);
    var longest, tail, newly, lastValid := Measure(m, relief, c);
    RunFailures(c, pressure, relief);
    hide HasStretch, BreaksTail, FreshCount, Valid, MaxRenderSerial, Fails, FrameFailure, FallsAt;
    failures := [];
    if |relief| < c.minReliefFrames {
      failures := failures + [InsufficientReliefFrames];
    }
    if exists i: nat | i < |relief| :: FallsAt(relief, i) {
      failures := failures + [RenderSerialDecreased];
    }
    if longest > c.maxInvalidRunFrames {
      failures := failures + [InvalidRunExceedsContract];
    }
    if tail < c.minSustainedValidFrames {
      failures := failures + [NotSustainedToEnd];
    }
    if newly < c.minFreshCompleteFrames {
      failures := failures + [NoFreshCompleteRender];
    }
    if !lastValid {
      failures := failures + [LastFrameInvalid];
    }
  }

  method Measure(m: int, relief: seq<Row>, c: Contract) returns (longest: nat, tail: nat, newly: nat, lastValid: bool)
    requires relief != []
    ensures longest > c.maxInvalidRunFrames <==> HasStretch(m, relief, c.maxInvalidRunFrames + 1)
    ensures tail < c.minSustainedValidFrames <==> BreaksTail(m, relief, c.minSustainedValidFrames)
    ensures newly == FreshCount(m, relief, |relief|) && lastValid == Valid(m, relief, |relief| - 1)
  {
    var flags;
    flags, newly := Classify(m, relief);
    var runs := InvalidRuns(flags);
    longest := LongestRun(runs, flags);
    tail := SustainedTail(flags);
    LongestDecides(flags, m, relief, longest, c.maxInvalidRunFrames);
    TailDecides(flags, m, relief, tail, c.minSustainedValidFrames);
    lastValid := flags[|flags| - 1];
  }

  /** The judgements on any single frame. */
  method JudgeFrames(c: Contract, pressure: seq<Row>, relief: seq<Row>) returns (failures: seq<Failure>)
    requires pressure != [] && relief != []
    ensures forall f :: f in failures <==> FrameFailure(f) && Fails(f, c, pressure, relief)
  {
    failures := [];
    if !exists r | r in relief :: ReceiverOk(r) {
      failures := failures + [ReceiverInactive];
    }
    if exists r | r in relief :: Truncate(r.casters) <= 0 {
      failures := failures + [CasterZero];
    }
    if exists r | r in relief :: Truncate(r.skipped) != 0 {
      failures := failures + [CasterCapSkipNonzero];
    }
    if exists r | r in relief :: Truncate(r.partial) != 0 {
      failures := failures + [PartialShadowPublication];
    }
  }

  lemma TailDecides(flags: seq<bool>, pressureMax: int, relief: seq<Row>, tail: nat, limit: nat)
    requires FlagsOf(flags, pressureMax, relief, |relief|)
    requires tail <= |flags| && forall j | |flags| - tail <= j < |flags| :: flags[j]
    requires tail < |flags| ==> !flags[|flags| - tail - 1]
    ensures tail < limit <==> BreaksTail(pressureMax, relief, limit)
  {
    if tail < limit <= |relief| {
      assert !Valid(pressureMax, relief, |relief| - tail - 1);
    }
  }

  /** None where the source raises for an inverted phase. */
  method EvaluateRecoveryWindow(rows: seq<Row>, p: Phases, c: Contract) returns (r: Option<seq<Failure>>)
    ensures r.Some? <==> p.pressureStart <= p.pressureEnd && p.reliefStart <= p.reliefEnd
    ensures r.Some? ==> forall f :: f in r.value <==>
              Fails(f, c, Between(rows, p.pressureStart, p.pressureEnd), Between(rows, p.reliefStart, p.reliefEnd))
  {
    if p.pressureStart > p.pressureEnd || p.reliefStart > p.reliefEnd {
      return None;
    }
    var pressure, relief := Between(rows, p.pressureStart, p.pressureEnd), Between(rows, p.reliefStart, p.reliefEnd);
    if pressure == [] || relief == [] {
      return Some([PhaseRowsMissing]);
    }
    var onRuns := JudgeRuns(c, pressure, relief);
    var onFrames := JudgeFrames(c, pressure, relief);
    return Some(onRuns + onFrames);
  }

  // The verdict on the merged run

  ghost predicate Recovered(rows: seq<Row>, p: Phases, c: Contract) {
    forall f :: !Fails(f, c, Between(rows, p.pressureStart, p.pressureEnd), Between(rows, p.reliefStart, p.reliefEnd))
  }

  ghost predicate Covered(rows: seq<Row>, p: Phases) {
    forall f | p.pressureStart <= f <= p.reliefEnd :: Present(rows, f)
  }

  /** Passes exactly when the contract is met and no business frame is missing. */
  method EvaluateUnion(rows: seq<Row>, p: Phases) returns (v: Option<Verdict>)
    ensures v.Some? <==> p.pressureStart <= p.pressureEnd && p.reliefStart <= p.reliefEnd
    ensures v.Some? ==> (v.value == Pass <==> Recovered(rows, p, RECOVERY_CONTRACT) && Covered(rows, p))
    ensures v.Some? ==> (v.value == Fail <==> !Recovered(rows, p, RECOVERY_CONTRACT))
  {
    var gaps := CoverageGaps(rows, p.pressureStart, p.reliefEnd);
    NoGaps(gaps, rows, p);
    var failures := EvaluateRecoveryWindow(rows, p, RECOVERY_CONTRACT);
    if failures.None? {
      return None;
    }
    if failures.value != [] {
      assert failures.value[0] in failures.value;
      return Some(Fail);
    }
    return Some(if gaps != [] then Uncovered else Pass);
  }

  lemma NoGaps(gaps: seq<Gap>, rows: seq<Row>, p: Phases)
    requires GapsOf(gaps, rows, p.pressureStart, p.reliefEnd + 1)
    ensures gaps == [] <==> Covered(rows, p)
  {
    if gaps != [] {
      assert InGap(gaps, gaps[0].first);
    }
  }

  // What a pass establishes

  predicate PhasesOrdered(p: Phases) {
    p.pressureStart <= p.pressureEnd < p.reliefStart <= p.reliefEnd
  }

  /** The relief rows of a covered ascending series are its frames one by one. */
  lemma {:induction false} ReliefIsContiguous(rows: seq<Row>, start: int, end: int, i: nat)
    requires Ascending(rows) && (forall f | start <= f <= end :: Present(rows, f)) && start + i <= end
    ensures var relief := Between(rows, start, end); i < |relief| && relief[i].serial == start + i
  {
    BetweenKeeps(rows, start, end);
    hide Between;
    var relief := Between(rows, start, end);
    if i > 0 {
      ReliefIsContiguous(rows, start, end, i - 1);
    }
    assert Present(rows, start + i);
    var k :| 0 <= k < |rows| && rows[k].serial == start + i;
    assert rows[k] in relief;
    var j :| 0 <= j < |relief| && relief[j] == rows[k];
    assert i <= j && relief[i] in relief;
  }

  lemma {:induction false} SeenGrows(pressureMax: int, relief: seq<Row>, n: nat)
    requires n <= |relief|
    ensures Seen(pressureMax, relief, n) >= pressureMax + FreshCount(pressureMax, relief, n)
    ensures Seen(pressureMax, relief, n) > pressureMax ==> exists i | 0 <= i < n :: RenderSerial(relief[i]) == Seen(pressureMax, relief, n)
  {
    if n > 0 {
      SeenGrows(pressureMax, relief, n - 1);
    }
  }

  ghost predicate OnlyAt(rows: seq<Row>, i: nat, frame: int) {
    i < |rows| && rows[i].serial == frame && forall j | 0 <= j < |rows| && j != i :: rows[j].serial != frame
  }

  /** Every business frame from pressure start to relief end occurs in the union exactly once. */
  lemma EveryFrameOnce(rows: seq<Row>, p: Phases, frame: int) returns (i: nat)
    requires Ascending(rows) && Covered(rows, p) && p.pressureStart <= frame <= p.reliefEnd
    ensures OnlyAt(rows, i, frame)
  {
    assert Present(rows, frame);
    i :| 0 <= i < |rows| && rows[i].serial == frame;
  }

  // What the judgements say about the raw values

  predicate IsOne(x: real) {
    1.0 <= x < 2.0
  }

  predicate IsNone(x: real) {
    -1.0 < x < 1.0
  }

  /** At least one caster; less than one skip and less than one partial map. */
  predicate Unharmed(r: Row) {
    r.casters >= 1.0 && IsNone(r.skipped) && IsNone(r.partial)
  }

  lemma ValidMeans(pressureMax: int, relief: seq<Row>, i: nat)
    requires i < |relief|
    ensures Valid(pressureMax, relief, i) <==>
              && Unharmed(relief[i]) && IsOne(relief[i].receiver) && IsOne(relief[i].hasReceiver)
              && (Fresh(pressureMax, relief, i) || IsOne(relief[i].reused))
  {
    var r := relief[i];
    TruncateMeans(r.partial);
    TruncateMeans(r.receiver);
    TruncateMeans(r.hasReceiver);
    TruncateMeans(r.casters);
    TruncateMeans(r.skipped);
    TruncateMeans(r.reused);
    hide Truncate;
  }

  lemma UnharmedIff(r: Row)
    ensures Unharmed(r) <==> Truncate(r.casters) > 0 && Truncate(r.skipped) == 0 && Truncate(r.partial) == 0
  {
    TruncateMeans(r.casters);
    TruncateMeans(r.skipped);
    TruncateMeans(r.partial);
  }

  ghost predicate MeetsContract(pressure: seq<Row>, relief: seq<Row>) {
    && pressure != []
    && var m, n := MaxRenderSerial(pressure), |relief|;
      && n >= 60
      && (forall i: nat | n - 60 <= i < n :: Valid(m, relief, i))
      && !HasStretch(m, relief, 7)
      && (forall i: nat | i < n :: Unharmed(relief[i]))
      && (forall i: nat | i < n :: !FallsAt(relief, i))
      && FreshCount(m, relief, n) >= 8
  }

  /** Nothing fails exactly when: at least 60 relief frames; the last 60 valid; of any seven in a row one valid; every
      frame with casters and, fractions aside, no skip and no partial map; render serials never falling; at least eight
      fresh and complete frames. */
  lemma PassIff(pressure: seq<Row>, relief: seq<Row>)
    ensures (forall f :: !Fails(f, RECOVERY_CONTRACT, pressure, relief)) <==> MeetsContract(pressure, relief)
  {
    if forall f :: !Fails(f, RECOVERY_CONTRACT, pressure, relief) {
      PassMeets(pressure, relief);
    }
    if MeetsContract(pressure, relief) {
      forall f ensures !Fails(f, RECOVERY_CONTRACT, pressure, relief) {
        MeetingPasses(pressure, relief, f);
      }
    }
  }

  lemma PassMeets(pressure: seq<Row>, relief: seq<Row>)
    requires forall f :: !Fails(f, RECOVERY_CONTRACT, pressure, relief)
    ensures MeetsContract(pressure, relief)
  {
    var c := RECOVERY_CONTRACT;
    assert !Fails(PhaseRowsMissing, c, pressure, relief);
    assert !Fails(InsufficientReliefFrames, c, pressure, relief) && !Fails(NotSustainedToEnd, c, pressure, relief);
    assert !Fails(RenderSerialDecreased, c, pressure, relief) && !Fails(NoFreshCompleteRender, c, pressure, relief);
    assert !Fails(CasterZero, c, pressure, relief) && !Fails(CasterCapSkipNonzero, c, pressure, relief);
    assert !Fails(PartialShadowPublication, c, pressure, relief);
    assert !Fails(InvalidRunExceedsContract, c, pressure, relief);
    hide Truncate, Unharmed;
    forall i: nat | i < |relief| ensures Unharmed(relief[i]) {
      assert relief[i] in relief;
      UnharmedIff(relief[i]);
    }
  }

  lemma MeetingPasses(pressure: seq<Row>, relief: seq<Row>, f: Failure)
    requires MeetsContract(pressure, relief)
    ensures !Fails(f, RECOVERY_CONTRACT, pressure, relief)
  {
    hide Truncate, Unharmed;
    var m, last := MaxRenderSerial(pressure), |relief| - 1;
    assert Valid(m, relief, last) && relief[last] in relief;
    forall r | r in relief ensures Truncate(r.casters) > 0 && Truncate(r.skipped) == 0 && Truncate(r.partial) == 0 {
      UnharmedIff(r);
    }
  }

  /** What a pass of the merged run establishes besides the contract itself: its relief rows are the frames of the relief
      phase one by one, and that phase gets as far beyond every render serial of the pressure phase as it has fresh and
      complete frames. */
  lemma PassMeans(rows: seq<Row>, p: Phases)
    requires Ascending(rows) && PhasesOrdered(p) && Covered(rows, p) && Recovered(rows, p, RECOVERY_CONTRACT)
    ensures var pressure, relief := Between(rows, p.pressureStart, p.pressureEnd), Between(rows, p.reliefStart, p.reliefEnd);
      && MeetsContract(pressure, relief)
      && var m, n := MaxRenderSerial(pressure), |relief|;
        && n == p.reliefEnd - p.reliefStart + 1
        && (forall i: nat | i < n :: relief[i].serial == p.reliefStart + i)
        && exists i: nat | i < n :: RenderSerial(relief[i]) >= m + FreshCount(m, relief, n)
  {
    var pressure, relief := Between(rows, p.pressureStart, p.pressureEnd), Between(rows, p.reliefStart, p.reliefEnd);
    PassMeets(pressure, relief);
    ReliefCount(rows, p);
    SeenGrows(MaxRenderSerial(pressure), relief, |relief|);
  }

  lemma ReliefCount(rows: seq<Row>, p: Phases)
    requires Ascending(rows) && PhasesOrdered(p) && Covered(rows, p)
    ensures var relief := Between(rows, p.reliefStart, p.reliefEnd);
      && |relief| == p.reliefEnd - p.reliefStart + 1
      && forall i: nat | i < |relief| :: relief[i].serial == p.reliefStart + i
  {
    var relief := Between(rows, p.reliefStart, p.reliefEnd);
    forall i: nat | p.reliefStart + i <= p.reliefEnd ensures i < |relief| && relief[i].serial == p.reliefStart + i {
      ReliefIsContiguous(rows, p.reliefStart, p.reliefEnd, i);
    }
    BetweenKeeps(rows, p.reliefStart, p.reliefEnd);
    var n: nat := p.reliefEnd - p.reliefStart + 1;
    ReliefIsContiguous(rows, p.reliefStart, p.reliefEnd, n - 1);
    assert |relief| > n ==> relief[n - 1].serial < relief[n].serial;
    forall i | 0 <= i < |relief| ensures relief[i].serial <= p.reliefEnd {
      assert relief[i] in relief;
    }
  }

  // A fraction the verdict does not see

  /** A frame with half a skip. */
  function HalfSkip(serial: nat): Row {
    Row(serial, serial, serial as real, 1.0, 1.0, 0.5, 1.0, 1.0, 1.0, 0.0, 0.0)
  }

  function HalfSkips(n: nat): (rows: seq<Row>)
    ensures |rows| == n && forall i: nat | i < n :: rows[i] == HalfSkip(i + 1)
  {
    if n == 0 then [] else HalfSkips(n - 1) + [HalfSkip(n)]
  }

  lemma {:induction false} HalfSkipPhases(n: nat)
    requires 1 <= n <= 61
    ensures Between(HalfSkips(n), 1, 1) == [HalfSkip(1)] && Between(HalfSkips(n), 2, 61) == HalfSkips(n)[1..]
  {
    var rows := HalfSkips(n);
    assert rows[..n - 1] == HalfSkips(n - 1);
    if n > 1 {
      HalfSkipPhases(n - 1);
    } else {
      assert Between(rows[..0], 1, 1) == [] && Between(rows[..0], 2, 61) == [];
    }
  }

  lemma {:induction false} HalfSkipSerials(relief: seq<Row>, n: nat)
    requires n <= |relief| && forall i: nat | i < |relief| :: relief[i] == HalfSkip(i + 2)
    ensures Seen(1, relief, n) == n + 1 && FreshCount(1, relief, n) == n
    ensures forall i: nat | i < n :: Valid(1, relief, i)
  {
    if n > 0 {
      HalfSkipSerials(relief, n - 1);
      ValidMeans(1, relief, n - 1);
    }
  }

  /** A run that skips half a caster in every frame passes. */
  lemma HalfSkipPasses()
    ensures var rows, p := HalfSkips(61), Phases(1, 1, 2, 61);
      && Ascending(rows) && PhasesOrdered(p) && Covered(rows, p) && Recovered(rows, p, RECOVERY_CONTRACT)
      && forall r | r in rows :: r.skipped == 0.5
  {
    var rows, p := HalfSkips(61), Phases(1, 1, 2, 61);
    forall f | 1 <= f <= 61 ensures Present(rows, f) {
      assert rows[f - 1].serial == f;
    }
    HalfSkipPhases(61);
    var pressure, relief := [HalfSkip(1)], rows[1..];
    assert MaxRenderSerial(pressure) == 1;
    HalfSkipSerials(relief, 60);
    HalfSkipMeets(pressure, relief);
    PassIff(pressure, relief);
  }

  lemma HalfSkipMeets(pressure: seq<Row>, relief: seq<Row>)
    requires pressure != [] && MaxRenderSerial(pressure) == 1 && |relief| == 60
    requires forall i: nat | i < 60 :: relief[i] == HalfSkip(i + 2) && Valid(1, relief, i)
    requires FreshCount(1, relief, 60) == 60
    ensures MeetsContract(pressure, relief)
  {
    hide Valid, FreshCount;
    assert forall i: nat :: InvalidStretch(1, relief, i, 7) ==> !Valid(1, relief, i);
  }
}
