/** Aggregation of classified cases into verdict matrices and counters, and what the totals are worth after any
    sequence of cases. */
module LockShadowAggregate {
  import opened Arithmetic
  import opened LockShadow

  type Matrix = map<(Verdict, Verdict), nat>

  const MAX_SAVED_EXAMPLES := 24
  const SETTLEMENTS: seq<Settlement> := [
    MutationGenerationViolation, ResetGenerationViolation, Reset, PoisonMutation, Retirement, NoPoisonFastPath,
    Reentry, NoNormalReturn, OuterFailure, OldReadFailure, LockProofFailure, TargetDrift, Eligible
  ]

  function Cell(m: Matrix, a: Verdict, b: Verdict): nat {
    if (a, b) in m then m[(a, b)] else 0
  }

  function Bumped(m: Matrix, a: Verdict, b: Verdict): Matrix {
    m[(a, b) := Cell(m, a, b) + 1]
  }

  function CountOf<K(==)>(counter: map<K, nat>, key: K): nat {
    if key in counter then counter[key] else 0
  }

  function Increment<K(==)>(counter: map<K, nat>, key: K): map<K, nat> {
    counter[key := CountOf(counter, key) + 1]
  }

  function EmptyMatrix(): Matrix {
    map[(N, N) := 0, (N, O) := 0, (N, R) := 0, (O, N) := 0, (O, O) := 0, (O, R) := 0, (R, N) := 0, (R, O) := 0,
        (R, R) := 0]
  }

  datatype Case = Case(scenario: Scenario, result: CaseResult)

  datatype Totals = Totals(total: nat, all: Matrix, eligible: Matrix, strict: Matrix, invalidated: Matrix,
                           settlements: map<Settlement, nat>, modes: map<LockMode, nat>,
                           predictedReasons: map<Reason, nat>, lockReasons: map<Reason, nat>,
                           mutationViolations: nat, resetViolations: nat, maxLivePoisons: nat, saved: seq<Case>)

  // What the totals must be, as counts over the cases seen

  datatype Cohort = AllCases | EligibleCases | StrictCases | InvalidatedCases

  datatype Query =
    | Verdicts(cohort: Cohort, predicted: Verdict, lock: Verdict)
    | Settled(settlement: Settlement)
    | InMode(mode: LockMode)
    | PredictedBecause(reason: Reason)
    | LockBecause(reason: Reason)
    | MutationViolated
    | ResetViolated

  predicate InCohort(cohort: Cohort, c: Case) {
    match cohort
    case AllCases => true
    case EligibleCases => c.result.eligible
    case StrictCases => c.result.strict
    case InvalidatedCases => !c.result.eligible
  }

  predicate Matches(q: Query, c: Case) {
    match q
    case Verdicts(cohort, a, b) => InCohort(cohort, c) && c.result.predicted.verdict == a && c.result.lock.verdict == b
    case Settled(s) => c.result.settlement == s
    case InMode(m) => c.result.mode == m
    case PredictedBecause(r) => c.result.predicted.reason == r
    case LockBecause(r) => c.result.lock.reason == r
    case MutationViolated => c.result.mutationViolation
    case ResetViolated => c.result.resetViolation
  }

  function Count(cases: seq<Case>, q: Query): nat {
    if cases == [] then 0
    else Count(cases[..|cases| - 1], q) + if Matches(q, cases[|cases| - 1]) then 1 else 0
  }

  ghost predicate CellsCount(m: Matrix, cases: seq<Case>, cohort: Cohort) {
    forall a, b :: Cell(m, a, b) == Count(cases, Verdicts(cohort, a, b))
  }

  predicate Interesting(c: Case) {
    c.result.predicted.verdict != c.result.lock.verdict || c.result.settlement != Eligible
  }

  function Examples(cases: seq<Case>): (r: seq<Case>)
    ensures |r| <= MAX_SAVED_EXAMPLES
  {
    if cases == [] then []
    else
      var earlier := Examples(cases[..|cases| - 1]);
      var last := cases[|cases| - 1];
      if Interesting(last) && |earlier| < MAX_SAVED_EXAMPLES then earlier + [last] else earlier
  }

  function MostLive(cases: seq<Case>): nat {
    if cases == [] then 0
    else
      var s := cases[|cases| - 1].scenario;
      Larger(MostLive(cases[..|cases| - 1]), Larger(|s.entryPoisons|, |s.settlePoisons|))
  }

  ghost predicate MatricesTally(all: Matrix, eligible: Matrix, strict: Matrix, invalidated: Matrix, cases: seq<Case>) {
    && CellsCount(all, cases, AllCases) && CellsCount(eligible, cases, EligibleCases)
    && CellsCount(strict, cases, StrictCases) && CellsCount(invalidated, cases, InvalidatedCases)
  }

  /** The counter holds, under each key, the number of cases the key's query matches. */
  ghost predicate CounterTallies<K(!new)>(counter: map<K, nat>, cases: seq<Case>, q: K -> Query) {
    forall k :: CountOf(counter, k) == Count(cases, q(k))
  }

  function SettledQuery(s: Settlement): Query { Settled(s) }

  function ModeQuery(m: LockMode): Query { InMode(m) }

  function PredictedQuery(r: Reason): Query { PredictedBecause(r) }

  function LockQuery(r: Reason): Query { LockBecause(r) }

  ghost predicate ReasonsTally(settlements: map<Settlement, nat>, modes: map<LockMode, nat>,
                               predictedReasons: map<Reason, nat>, lockReasons: map<Reason, nat>, cases: seq<Case>) {
    && CounterTallies(settlements, cases, SettledQuery) && CounterTallies(modes, cases, ModeQuery)
    && CounterTallies(predictedReasons, cases, PredictedQuery) && CounterTallies(lockReasons, cases, LockQuery)
  }

  ghost predicate ScalarsTally(mutationViolations: nat, resetViolations: nat, maxLivePoisons: nat, saved: seq<Case>,
                               cases: seq<Case>) {
    && mutationViolations == Count(cases, MutationViolated) && resetViolations == Count(cases, ResetViolated)
    && maxLivePoisons == MostLive(cases) && saved == Examples(cases)
  }

  /** Every total is the count, over the cases, of what its name says. */
  ghost predicate Tallies(t: Totals, cases: seq<Case>) {
    && t.total == |cases| && MatricesTally(t.all, t.eligible, t.strict, t.invalidated, cases)
    && ReasonsTally(t.settlements, t.modes, t.predictedReasons, t.lockReasons, cases)
    && ScalarsTally(t.mutationViolations, t.resetViolations, t.maxLivePoisons, t.saved, cases)
  }

  lemma CountNext(cases: seq<Case>, c: Case, q: Query)
    ensures Count(cases + [c], q) == Count(cases, q) + if Matches(q, c) then 1 else 0
  {
    assert (cases + [c])[..|cases|] == cases;
  }

  lemma CellsNext(m: Matrix, cases: seq<Case>, cohort: Cohort, c: Case)
    requires CellsCount(m, cases, cohort)
    ensures CellsCount(if InCohort(cohort, c) then Bumped(m, c.result.predicted.verdict, c.result.lock.verdict) else m,
                       cases + [c], cohort)
  {
    forall a, b ensures Count(cases + [c], Verdicts(cohort, a, b))
                     == Count(cases, Verdicts(cohort, a, b)) + if Matches(Verdicts(cohort, a, b), c) then 1 else 0 {
      CountNext(cases, c, Verdicts(cohort, a, b));
    }
  }

  /** One more case that only this key's query matches. */
  lemma CounterNext<K(!new)>(counter: map<K, nat>, cases: seq<Case>, q: K -> Query, c: Case, key: K)
    requires CounterTallies(counter, cases, q) && forall k :: Matches(q(k), c) <==> k == key
    ensures CounterTallies(Increment(counter, key), cases + [c], q)
  {
    forall k ensures CountOf(Increment(counter, key), k) == Count(cases + [c], q(k)) {
      CountNext(cases, c, q(k));
    }
  }

  lemma ScalarsNext(cases: seq<Case>, c: Case)
    ensures MostLive(cases + [c]) == Larger(MostLive(cases), Larger(|c.scenario.entryPoisons|, |c.scenario.settlePoisons|))
    ensures Examples(cases + [c]) ==
              if Interesting(c) && |Examples(cases)| < MAX_SAVED_EXAMPLES then Examples(cases) + [c] else Examples(cases)
  {
    assert (cases + [c])[..|cases|] == cases;
  }

  class Aggregate {
    var total: nat
    var allMatrix: Matrix
    var eligibleMatrix: Matrix
    var strictMatrix: Matrix
    var invalidatedMatrix: Matrix
    var settlements: map<Settlement, nat>
    var modes: map<LockMode, nat>
    var predictedReasons: map<Reason, nat>
    var lockReasons: map<Reason, nat>
    var mutationViolations: nat
    var resetViolations: nat
    var maxLivePoisons: nat
    var saved: seq<Case>
    ghost var cases: seq<Case>

    function Abs(): Totals
      reads this
    {
      Totals(total, allMatrix, eligibleMatrix, strictMatrix, invalidatedMatrix, settlements, modes, predictedReasons,
             lockReasons, mutationViolations, resetViolations, maxLivePoisons, saved)
    }

    ghost predicate Valid()
      reads this
    {
      Tallies(Abs(), cases)
    }

    constructor ()
      ensures Valid() && cases == []
    {
      total := 0;
      allMatrix, eligibleMatrix, strictMatrix, invalidatedMatrix :=
        EmptyMatrix(), EmptyMatrix(), EmptyMatrix(), EmptyMatrix();
      settlements, modes, predictedReasons, lockReasons := map[], map[], map[], map[];
      mutationViolations, resetViolations, maxLivePoisons := 0, 0, 0;
      saved := [];
      cases := [];
    }

    method Add(scenario: Scenario, result: CaseResult)
      requires Valid()
      modifies this
      ensures Valid() && cases == old(cases) + [Case(scenario, result)]
    {
      var c := Case(scenario, result);
      hide MatricesTally, ReasonsTally, Count, MostLive, Examples;
      AddVerdicts(c);
      AddReasons(c);
      AddViolations(c);
      AddExtremes(c);
      total := total + 1;
      cases := cases + [c];
    }

    method AddVerdicts(c: Case)
      requires MatricesTally(allMatrix, eligibleMatrix, strictMatrix, invalidatedMatrix, cases)
      modifies this`allMatrix, this`eligibleMatrix, this`strictMatrix, this`invalidatedMatrix
      ensures MatricesTally(allMatrix, eligibleMatrix, strictMatrix, invalidatedMatrix, cases + [c])
    {
      var a, b := c.result.predicted.verdict, c.result.lock.verdict;
      CellsNext(allMatrix, cases, AllCases, c);
      CellsNext(eligibleMatrix, cases, EligibleCases, c);
      CellsNext(strictMatrix, cases, StrictCases, c);
      CellsNext(invalidatedMatrix, cases, InvalidatedCases, c);
      allMatrix := Bumped(allMatrix, a, b);
      if c.result.eligible {
        eligibleMatrix := Bumped(eligibleMatrix, a, b);
      } else {
        invalidatedMatrix := Bumped(invalidatedMatrix, a, b);
      }
      if c.result.strict {
        strictMatrix := Bumped(strictMatrix, a, b);
      }
    }

    method AddReasons(c: Case)
      requires ReasonsTally(settlements, modes, predictedReasons, lockReasons, cases)
      modifies this`settlements, this`modes, this`predictedReasons, this`lockReasons
      ensures ReasonsTally(settlements, modes, predictedReasons, lockReasons, cases + [c])
    {
      CounterNext(settlements, cases, SettledQuery, c, c.result.settlement);
      CounterNext(modes, cases, ModeQuery, c, c.result.mode);
      CounterNext(predictedReasons, cases, PredictedQuery, c, c.result.predicted.reason);
      CounterNext(lockReasons, cases, LockQuery, c, c.result.lock.reason);
      settlements := Increment(settlements, c.result.settlement);
      modes := Increment(modes, c.result.mode);
      predictedReasons := Increment(predictedReasons, c.result.predicted.reason);
      lockReasons := Increment(lockReasons, c.result.lock.reason);
    }

    method AddViolations(c: Case)
      requires mutationViolations == Count(cases, MutationViolated) && resetViolations == Count(cases, ResetViolated)
      modifies this`mutationViolations, this`resetViolations
      ensures mutationViolations == Count(cases + [c], MutationViolated)
      ensures resetViolations == Count(cases + [c], ResetViolated)
    {
      CountNext(cases, c, MutationViolated);
      CountNext(cases, c, ResetViolated);
      hide Count;
      mutationViolations := mutationViolations + if c.result.mutationViolation then 1 else 0;
      resetViolations := resetViolations + if c.result.resetViolation then 1 else 0;
    }

    method AddExtremes(c: Case)
      requires maxLivePoisons == MostLive(cases) && saved == Examples(cases)
      modifies this`maxLivePoisons, this`saved
      ensures maxLivePoisons == MostLive(cases + [c]) && saved == Examples(cases + [c])
    {
      ScalarsNext(cases, c);
      hide MostLive, Examples, Interesting;
      maxLivePoisons := Larger(maxLivePoisons, Larger(|c.scenario.entryPoisons|, |c.scenario.settlePoisons|));
      if Interesting(c) && |saved| < MAX_SAVED_EXAMPLES {
        saved := saved + [c];
      }
    }

    /** The four summaries and the closures the report ends with; clean when the model classified every case. */
    method Result() returns (r: Report)
      requires Valid()
      ensures r == ReportOf(Abs()) && (Classified(cases) ==> Clean(r, |cases|))
    {
      r := ReportOf(Abs());
      hide Tallies, ReportOf, Clean;
      if Classified(cases) {
        ReportIsClean(Abs(), cases);
      }
    }
  }

  // The report

  datatype Summary = Summary(total: nat, rowN: nat, rowO: nat, rowR: nat, columnN: nat, columnO: nat, columnR: nat,
                             diagonal: nat, offDiagonal: int, unsafePredictedNLockO: nat,
                             safeConservativePredictedOLockN: nat, closureClean: bool)

  datatype Report = Report(all: Summary, eligible: Summary, strict: Summary, invalidated: Summary,
                           settlementPartition: bool, eligibleCount: bool, eligiblePlusInvalidated: bool)

  function Row(m: Matrix, a: Verdict): nat {
    Cell(m, a, N) + Cell(m, a, O) + Cell(m, a, R)
  }

  function Column(m: Matrix, b: Verdict): nat {
    Cell(m, N, b) + Cell(m, O, b) + Cell(m, R, b)
  }

  function Summarize(m: Matrix): Summary {
    var total := Row(m, N) + Row(m, O) + Row(m, R);
    var diagonal := Cell(m, N, N) + Cell(m, O, O) + Cell(m, R, R);
    Summary(total, Row(m, N), Row(m, O), Row(m, R), Column(m, N), Column(m, O), Column(m, R), diagonal,
            total - diagonal, Cell(m, N, O), Cell(m, O, N), Column(m, N) + Column(m, O) + Column(m, R) == total)
  }

  function SumOver<K(==)>(counter: map<K, nat>, keys: seq<K>): nat {
    if keys == [] then 0 else CountOf(counter, keys[0]) + SumOver(counter, keys[1..])
  }

  function ReportOf(t: Totals): Report {
    Report(Summarize(t.all), Summarize(t.eligible), Summarize(t.strict), Summarize(t.invalidated),
           SumOver(t.settlements, SETTLEMENTS) == t.total,
           CountOf(t.settlements, Eligible) == Summarize(t.eligible).total,
           Summarize(t.eligible).total + Summarize(t.invalidated).total == t.total)
  }

  // What the totals are worth when every case was classified by the model

  ghost predicate Classified(cases: seq<Case>) {
    forall i | 0 <= i < |cases| :: cases[i].result == ClassifyCase(cases[i].scenario)
  }

  lemma {:induction false} NeverCounted(cases: seq<Case>, q: Query)
    requires forall i | 0 <= i < |cases| :: !Matches(q, cases[i])
    ensures Count(cases, q) == 0
  {
    if cases != [] {
      NeverCounted(cases[..|cases| - 1], q);
    }
  }

  lemma {:induction false} AllIsSum(cases: seq<Case>, a: Verdict, b: Verdict)
    ensures Count(cases, Verdicts(AllCases, a, b))
         == Count(cases, Verdicts(EligibleCases, a, b)) + Count(cases, Verdicts(InvalidatedCases, a, b))
  {
    if cases != [] {
      AllIsSum(cases[..|cases| - 1], a, b);
    }
  }

  lemma {:induction false} StrictWithinEligible(cases: seq<Case>, a: Verdict, b: Verdict)
    requires Classified(cases)
    ensures Count(cases, Verdicts(StrictCases, a, b)) <= Count(cases, Verdicts(EligibleCases, a, b))
  {
    if cases != [] {
      StrictWithinEligible(cases[..|cases| - 1], a, b);
    }
  }

  /** After any sequence of classified cases: no eligible case was predicted clear and found overlapping, no eligible
      case is unread, strict cases lie on the diagonal and among the eligible, and eligible plus invalidated is
      everything, cell by cell. */
  lemma MatricesAreSafe(t: Totals, cases: seq<Case>)
    requires Tallies(t, cases) && Classified(cases)
    ensures Cell(t.eligible, N, O) == 0
    ensures forall v :: Cell(t.eligible, v, R) == 0 && Cell(t.eligible, R, v) == 0
    ensures forall a, b :: a != b ==> Cell(t.strict, a, b) == 0
    ensures forall a, b :: Cell(t.strict, a, b) <= Cell(t.eligible, a, b)
    ensures forall a, b :: Cell(t.all, a, b) == Cell(t.eligible, a, b) + Cell(t.invalidated, a, b)
  {
    forall a, b ensures Cell(t.all, a, b) == Cell(t.eligible, a, b) + Cell(t.invalidated, a, b)
                        && Cell(t.strict, a, b) <= Cell(t.eligible, a, b) {
      AllIsSum(cases, a, b);
      StrictWithinEligible(cases, a, b);
    }
    forall a, b | a != b && (a, b) != (O, N) ensures Cell(t.eligible, a, b) == 0 {
      NoEligible(cases, a, b);
    }
    NoEligible(cases, R, R);
    forall a, b | a != b ensures Cell(t.strict, a, b) == 0 {
      NoStrict(cases, a, b);
    }
  }

  lemma NoEligible(cases: seq<Case>, a: Verdict, b: Verdict)
    requires Classified(cases) && (a == R || b == R || (a == N && b == O))
    ensures Count(cases, Verdicts(EligibleCases, a, b)) == 0
  {
    forall i | 0 <= i < |cases| ensures !Matches(Verdicts(EligibleCases, a, b), cases[i]) {
      if cases[i].result.eligible {
        LockRefinesOld(cases[i].scenario);
      }
    }
    NeverCounted(cases, Verdicts(EligibleCases, a, b));
  }

  lemma NoStrict(cases: seq<Case>, a: Verdict, b: Verdict)
    requires Classified(cases) && a != b
    ensures Count(cases, Verdicts(StrictCases, a, b)) == 0
  {
    forall i | 0 <= i < |cases| ensures !Matches(Verdicts(StrictCases, a, b), cases[i]) {
      if cases[i].result.strict {
        StrictCasesAgree(cases[i].scenario);
      }
    }
    NeverCounted(cases, Verdicts(StrictCases, a, b));
  }

  function CohortSize(cases: seq<Case>, cohort: Cohort): nat {
    if cases == [] then 0
    else CohortSize(cases[..|cases| - 1], cohort) + if InCohort(cohort, cases[|cases| - 1]) then 1 else 0
  }

  lemma {:induction false} NineCells(cases: seq<Case>, cohort: Cohort)
    ensures CohortSize(cases, cohort)
         == Count(cases, Verdicts(cohort, N, N)) + Count(cases, Verdicts(cohort, N, O)) + Count(cases, Verdicts(cohort, N, R))
          + Count(cases, Verdicts(cohort, O, N)) + Count(cases, Verdicts(cohort, O, O)) + Count(cases, Verdicts(cohort, O, R))
          + Count(cases, Verdicts(cohort, R, N)) + Count(cases, Verdicts(cohort, R, O)) + Count(cases, Verdicts(cohort, R, R))
  {
    if cases != [] {
      NineCells(cases[..|cases| - 1], cohort);
    }
  }

  lemma {:induction false} CohortSizes(cases: seq<Case>)
    requires Classified(cases)
    ensures CohortSize(cases, EligibleCases) + CohortSize(cases, InvalidatedCases) == |cases|
    ensures CohortSize(cases, EligibleCases) == Count(cases, Settled(Eligible))
  {
    if cases != [] {
      CohortSizes(cases[..|cases| - 1]);
    }
  }

  function SettledIn(cases: seq<Case>, keys: seq<Settlement>): nat {
    if keys == [] then 0 else Count(cases, Settled(keys[0])) + SettledIn(cases, keys[1..])
  }

  function Occurrences(keys: seq<Settlement>, s: Settlement): nat {
    if keys == [] then 0 else (if keys[0] == s then 1 else 0) + Occurrences(keys[1..], s)
  }

  lemma {:induction false} SettledNext(cases: seq<Case>, keys: seq<Settlement>)
    requires cases != []
    ensures SettledIn(cases, keys)
         == SettledIn(cases[..|cases| - 1], keys) + Occurrences(keys, cases[|cases| - 1].result.settlement)
  {
    if keys != [] {
      SettledNext(cases, keys[1..]);
    }
  }

  lemma {:induction false} NothingSettled(keys: seq<Settlement>)
    ensures SettledIn([], keys) == 0
  {
    if keys != [] {
      NothingSettled(keys[1..]);
    }
  }

  /** Every settlement is listed once, so the settlement counters add up to the number of cases. */
  lemma {:induction false} SettlementsPartition(cases: seq<Case>, keys: seq<Settlement>)
    requires forall s :: Occurrences(keys, s) == 1
    ensures SettledIn(cases, keys) == |cases|
  {
    if cases == [] {
      NothingSettled(keys);
    } else {
      SettledNext(cases, keys);
      SettlementsPartition(cases[..|cases| - 1], keys);
    }
  }

  lemma {:induction false} SumOverIsSettledIn(t: Totals, cases: seq<Case>, keys: seq<Settlement>)
    requires Tallies(t, cases)
    ensures SumOver(t.settlements, keys) == SettledIn(cases, keys)
  {
    if keys != [] {
      SumOverIsSettledIn(t, cases, keys[1..]);
    }
  }

  lemma SummaryTotal(m: Matrix, cases: seq<Case>, cohort: Cohort)
    requires CellsCount(m, cases, cohort)
    ensures Summarize(m).total == CohortSize(cases, cohort) && Summarize(m).closureClean
  {
    NineCells(cases, cohort);
  }

  lemma SettlementsClose(t: Totals, cases: seq<Case>)
    requires Tallies(t, cases)
    ensures SumOver(t.settlements, SETTLEMENTS) == |cases|
  {
    SumOverIsSettledIn(t, cases, SETTLEMENTS);
    ListedOnce();
    SettlementsPartition(cases, SETTLEMENTS);
  }

  lemma Disagreements(t: Totals, cases: seq<Case>)
    requires Tallies(t, cases) && Classified(cases)
    ensures var e := Summarize(t.eligible);
      e.unsafePredictedNLockO == 0 && e.offDiagonal == e.safeConservativePredictedOLockN
    ensures Summarize(t.strict).offDiagonal == 0
  {
    hide CounterTallies, ScalarsTally;
    MatricesAreSafe(t, cases);
  }

  /** Every closure holds, nothing unsafe was seen in the eligible cohort, its only disagreements are the conservative
      ones, and the strict cohort has none. */
  predicate Clean(r: Report, cases: nat) {
    && r.settlementPartition && r.eligibleCount && r.eligiblePlusInvalidated
    && r.all.closureClean && r.eligible.closureClean && r.strict.closureClean && r.invalidated.closureClean
    && r.eligible.unsafePredictedNLockO == 0
    && r.eligible.offDiagonal == r.eligible.safeConservativePredictedOLockN
    && r.strict.offDiagonal == 0 && r.all.total == cases
  }

  /** The report on any sequence of classified cases is clean. */
  lemma ReportIsClean(t: Totals, cases: seq<Case>)
    requires Tallies(t, cases) && Classified(cases)
    ensures Clean(ReportOf(t), |cases|)
  {
    SummaryTotal(t.all, cases, AllCases);
    SummaryTotal(t.eligible, cases, EligibleCases);
    SummaryTotal(t.strict, cases, StrictCases);
    SummaryTotal(t.invalidated, cases, InvalidatedCases);
    CohortSizes(cases);
    EveryoneCounts(cases);
    SettlementsClose(t, cases);
    Disagreements(t, cases);
  }

  lemma {:induction false} EveryoneCounts(cases: seq<Case>)
    ensures CohortSize(cases, AllCases) == |cases|
  {
    if cases != [] {
      EveryoneCounts(cases[..|cases| - 1]);
    }
  }

  function Rank(s: Settlement): (r: nat)
    ensures r < |SETTLEMENTS| && SETTLEMENTS[r] == s
  {
    match s
    case MutationGenerationViolation => 0
    case ResetGenerationViolation => 1
    case Reset => 2
    case PoisonMutation => 3
    case Retirement => 4
    case NoPoisonFastPath => 5
    case Reentry => 6
    case NoNormalReturn => 7
    case OuterFailure => 8
    case OldReadFailure => 9
    case LockProofFailure => 10
    case TargetDrift => 11
    case Eligible => 12
  }

  lemma RankOfListed(i: nat)
    requires i < |SETTLEMENTS|
    ensures Rank(SETTLEMENTS[i]) == i
  {
  }

  lemma ListedOnce()
    ensures forall s :: Occurrences(SETTLEMENTS, s) == 1
  {
    forall s ensures Occurrences(SETTLEMENTS, s) == 1 {
      forall i: nat | i < |SETTLEMENTS| && SETTLEMENTS[i] == s ensures i == Rank(s) {
        RankOfListed(i);
      }
      OccursOnce(SETTLEMENTS, s, Rank(s));
    }
  }

  lemma {:induction false} OccursOnce(keys: seq<Settlement>, s: Settlement, at: int)
    requires forall i: nat | i < |keys| :: keys[i] == s <==> i == at
    requires at < |keys|
    ensures Occurrences(keys, s) == if at >= 0 then 1 else 0
  {
    if keys != [] {
      OccursOnce(keys[1..], s, at - 1);
    }
  }
}
