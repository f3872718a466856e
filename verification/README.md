# AutoTest model proofs

The `AutoTest/` directory of the repository holds executable models and strict evidence readers: Python code that decides
whether a GPU input lease may be released, whether a snapshot page may be reclaimed, how CPU skinning work is split and
scheduled, and whether a captured file of evidence is good enough to support a claim. This project models that code in
Dafny and proves what it is relied on for.

Code that updates objects in place is modelled twice. A transition system over values says what each operation does,
with the same branches, checks and error replies as the code (`LeaseProtocol`, `SnapshotPool`, `SessionRegistry`). A class
with the source's own fields runs the same operation with assignments and loops (`LeaseModel`, `SnapshotPoolModel`,
`SessionModel`, `LockShadowAggregate`), and each of its methods is proved equal to the transition. What holds over whole
runs is proved once, about the transition system. Readers and calculations are methods with the source's loops, or
functions where the source only computes a value.

| files | what they are about |
|---|---|
| `LeaseProtocol`, `LeaseInvariant`, `LeaseSafety`, `LeaseProgress`, `LeaseLedger`, `LeaseCalls`, `LeaseLife`, `LeasePolling`, `LeaseModel` | the GPU input-lease protocol |
| `SnapshotPool`, `SnapshotInvariant`, `SnapshotSafety`, `SnapshotHistory`, `SnapshotAnchor`, `SnapshotPoolModel` | the snapshot page pool |
| `LptSchedule`, `Coverage`, `CoarseTasks`, `RangeEncoding` | splitting, encoding and scheduling CPU skinning |
| `BucketBounds`, `LaneEnvelope` | vertex totals behind a job histogram, and rounding jobs to lanes |
| `LockShadow`, `LockShadowMeaning`, `LockShadowAggregate` | the predicted poison overlap against the exact vertex Lock |
| `CanonicalDecimal`, `SpanMatcher`, `SpanReading` | the frame-evidence reader |
| `PaletteEvent`, `PaletteWire`, `PaletteChain`, `PaletteVerdict`, `PaletteAccounting`, `PaletteFirstSight` | the palette-object reader |
| `RecoverySeries`, `RecoveryWindow` | the recovery verdict on a merged run |
| `GatherDecoding`, `GatherReading`, `GatherExactness`, `EvidenceSelection` | captured draw inputs |
| `SessionEvents`, `SessionRegistry`, `SessionModel` | AutoTest sessions and their event routing |
| `Arithmetic`, `Wrappers` | shared helpers |

Where a promise turned out narrower than its wording, the model keeps the code and states the exact boundary:

* A version-3 palette chain can be certified as recovered without any rejection, and an export that holds nothing else is
  reported complete (`FirstSightExportIsComplete`).
* The session index is right in one direction over every run; the other direction is kept by a call if and only if the
  session it names does not carry a pid that by now belongs to another running session (`StepKeepsRunningIff`,
  `StalePidUnroutesAnother`).
* A client polling for session events continues without a loss if and only if at most 4000 events are outstanding
  (`NothingSkippedIff`).
* A gathered draw is decoded correctly from every capture if and only if its separate blend stream is gathered or unused,
  or corner c is vertex c throughout, or its attribute layouts are refused anyway (`AlwaysRightIff`). Otherwise corner c
  gets the blend attributes of vertex number c, which `UngatheredBlendWitness` shows on a draw of one corner.
* The local-size-32 envelope always has a reachable upper end; its lower end is reachable if and only if it is at least
  the rounded total less 32 lanes a job (`EnvelopeEnds`, `LowerEndMissed`).
* The recovery verdict judges single frames on whole numbers, so a run that skips half a caster in every frame passes
  (`PassIff`, `HalfSkipPasses`).

The comment on tight bounds in `AutoTest/analyze_gpu_skin_offline_cost.py` and the one on the paired predicates in
`AutoTest/analyze_gpu_skin_vs_input_lease.py` are borne out by the code.

## Model

| member | source | states |
|---|---|---|
| LeaseInvariant.StepInv | AutoTest/analyze_gpu_skin_vs_input_lease.py:184-581 | every operation of the protocol keeps the invariant: consumer bits partition the request, the two pending indexes are inverse, reclaimed leases stay eligible |
| LeaseInvariant.AuditAgrees | AutoTest/analyze_gpu_skin_vs_input_lease.py:417-505 | in an invariant state the independent audit of a lease is empty if and only if the release predicate accepts it |
| LeaseInvariant.PageAuditAgrees | AutoTest/analyze_gpu_skin_vs_input_lease.py:507-531 | the page audit is empty if and only if every current lease of the page may be released |
| LeaseInvariant.ReusablePageUnblocked | AutoTest/analyze_gpu_skin_vs_input_lease.py:552-563 | a page marked reusable has no blocker |
| LeaseInvariant.PollInv | AutoTest/analyze_gpu_skin_vs_input_lease.py:533-563 | a poll never fails its safety assertion, succeeds exactly when no fence runs backwards, and keeps the invariant |
| LeaseInvariant.ReopenInv | AutoTest/analyze_gpu_skin_vs_input_lease.py:565-581 | a page reopens exactly when it is marked reusable |
| LeaseSafety.ReuseIsSafe | AutoTest/analyze_gpu_skin_vs_input_lease.py:417-563 | after any run: both predicates agree on every lease, no reusable page has a blocker, the unsafe-reuse count is 0 and the mismatched-index branch was never taken |
| LeaseSafety.NextCallIsSafe | AutoTest/analyze_gpu_skin_vs_input_lease.py:329-356 | after any run no further poll, commit or reopen can take its safety-violation branch |
| LeaseSafety.GenerationWaitsForLease | AutoTest/analyze_gpu_skin_vs_input_lease.py:376-399 | over any continuation, resets included, a page's generation passes a lease only once the lease has no open bit, no pending ticket and every fence complete |
| LeaseSafety.CommitsAtMostOnce | AutoTest/analyze_gpu_skin_vs_input_lease.py:329-356 | after a commit no run makes the same ticket id acceptable again |
| LeaseSafety.TicketStaysGood | AutoTest/analyze_gpu_skin_vs_input_lease.py:316-356 | an issued ticket stays committable through any run that does not commit it, and no other object is accepted in its place |
| LeaseSafety.TicketBalance | AutoTest/analyze_gpu_skin_vs_input_lease.py:316-356 | over any run, pending + committed = pending before + issued |
| LeaseSafety.ResetEndsEarlierLeases | AutoTest/analyze_gpu_skin_vs_input_lease.py:376-399 | after a reset no earlier lease can begin or settle a consumer, ever |
| LeaseSafety.MintedAccess | AutoTest/analyze_gpu_skin_vs_input_lease.py:234-297 | the access the model mints validates exactly for one open consumer bit of a lease of the current generation |
| LeaseSafety.PollDecides | AutoTest/analyze_gpu_skin_vs_input_lease.py:533-550 | after a poll a page is reusable if and only if it has leases and no blocker |
| LeaseSafety.PollReleasesQuietPage | AutoTest/analyze_gpu_skin_vs_input_lease.py:401-425 | one poll frees a page whose leases are queued, have nothing open or pending, and whose fences it completes, whatever happened before |
| LeaseProgress.NoPageIsWedged | AutoTest/analyze_gpu_skin_vs_input_lease.py:376-563 | after any run some continuation makes every page with leases reusable at its own generation, so no reachable state is a dead end |
| LeaseSafety.DeclinedOnlyCounts | AutoTest/analyze_gpu_skin_vs_input_lease.py:251-374 | a declined operation adds one to its own rejection counter and changes nothing else |
| LeaseSafety.RaisedChangesNothing | AutoTest/analyze_gpu_skin_vs_input_lease.py:376-550 | an operation that raises changes nothing, but a poll has by then counted itself and absorbed earlier fences |
| LeaseLedger.CommitFiles | AutoTest/analyze_gpu_skin_vs_input_lease.py:329-356 | a commit that succeeds files exactly the receipt it was given under the ticket's bit, and changes no other lease, bit, ticket or receipt |
| LeaseLedger.CommittedFenceGates | AutoTest/analyze_gpu_skin_vs_input_lease.py:329-425 | after a commit with a receipt, over any continuation, resets included, the page is let go only once the fence the caller named has reached the value the caller named |
| LeaseLedger.ProducerFenceGates | AutoTest/analyze_gpu_skin_vs_input_lease.py:189-425 | the same for the producer receipt a lease was registered with |
| LeaseLedger.ReleaseWaitsForReport | AutoTest/analyze_gpu_skin_vs_input_lease.py:329-550 | from the calls alone: a page with committed work is let go only after some poll reported the committed fence at the committed value or beyond |
| LeaseLedger.AbsorbMeans | AutoTest/analyze_gpu_skin_vs_input_lease.py:533-538 | a poll succeeds exactly when no report falls below what its fence stood at, and then every fence stands at its last report |
| LeaseCalls.RegisteredIff | AutoTest/analyze_gpu_skin_vs_input_lease.py:189-232 | exactly when a lease is registered, in numbers, and when it raises |
| LeaseCalls.AcceptedIff | AutoTest/analyze_gpu_skin_vs_input_lease.py:251-297 | an access is accepted exactly when it names one open bit of a lease of the current generation and repeats everything known about the lease |
| LeaseCalls.BlamesTheFirst | AutoTest/analyze_gpu_skin_vs_input_lease.py:251-297 | a refusal names the first reason, in the order of the checks, that is true of the access |
| LeaseCalls.RequestIsItsAccess | AutoTest/analyze_gpu_skin_vs_input_lease.py:189-249 | the accesses accepted after a registration are exactly those that repeat the request for one requested bit |
| LeaseCalls.RequestAfterReset | AutoTest/analyze_gpu_skin_vs_input_lease.py:376-399 | after a reset they are in the next generation and the epochs the reset was given |
| LeaseCalls.BitIsUsedOnce | AutoTest/analyze_gpu_skin_vs_input_lease.py:316-364 | once an access was used, no access to that bit of that lease is accepted again over any continuation |
| LeaseCalls.QueuedExactly | AutoTest/analyze_gpu_skin_vs_input_lease.py:366-399 | a lease waits to be retired exactly when a successful call queued it or reset the runtime; its page goes only then |
| LeaseCalls.QueueThenPollFrees | AutoTest/analyze_gpu_skin_vs_input_lease.py:366-425 | a successful queue followed by a poll that completes the fences frees the page of a lease with nothing pending |
| LeaseCalls.CountersCount | AutoTest/analyze_gpu_skin_vs_input_lease.py:316-399 | over any run polls, ticket ids, runtime generation, late commits and every rejection counter count the calls they are named after |
| LeaseCalls.GenerationCountsReopens | AutoTest/analyze_gpu_skin_vs_input_lease.py:565-581 | a page's generation is one more than the number of its reopens |
| LeaseLife.CallMoves | AutoTest/analyze_gpu_skin_vs_input_lease.py:316-399 | what each call makes of one consumer of one lease: in flight, filed under the receipt given, closed without the GPU, cancelled, or nothing |
| LeaseLife.LifeOfConsumer | AutoTest/analyze_gpu_skin_vs_input_lease.py:189-399 | from its registration on, over any run, a consumer stands where the calls put it |
| LeaseLife.ReleasableIff | AutoTest/analyze_gpu_skin_vs_input_lease.py:401-425 | a lease may be released exactly when it was queued, its producer's fence has got as far as it was given, and every requested consumer is cancelled, closed without the GPU, or filed under a fence that has got that far |
| LeaseModel.InputLeaseModel.AddPage | AutoTest/analyze_gpu_skin_vs_input_lease.py:184-187 | the object's step is the protocol's |
| LeaseModel.InputLeaseModel.AddLease | AutoTest/analyze_gpu_skin_vs_input_lease.py:189-232 | the object's step is the protocol's, with its range, receipt and overlap checks |
| LeaseModel.InputLeaseModel.ValidateOpenAccess | AutoTest/analyze_gpu_skin_vs_input_lease.py:251-297 | the first failing check, in source order |
| LeaseModel.InputLeaseModel.BeginGpuSubmission | AutoTest/analyze_gpu_skin_vs_input_lease.py:316-327 | the object's step is the protocol's; the ticket is a new object |
| LeaseModel.InputLeaseModel.CommitGpuSubmission | AutoTest/analyze_gpu_skin_vs_input_lease.py:329-356 | the object's step is the protocol's, by ticket identity |
| LeaseModel.InputLeaseModel.SettleWithoutGpu | AutoTest/analyze_gpu_skin_vs_input_lease.py:358-364 | the object's step is the protocol's |
| LeaseModel.InputLeaseModel.QueueRetirement | AutoTest/analyze_gpu_skin_vs_input_lease.py:366-374 | the object's step is the protocol's |
| LeaseModel.InputLeaseModel.Reset | AutoTest/analyze_gpu_skin_vs_input_lease.py:376-399 | the object's step is the protocol's, walking every lease |
| LeaseModel.InputLeaseModel.Poll | AutoTest/analyze_gpu_skin_vs_input_lease.py:533-563 | the object's loops over fences, leases and pages reach the protocol's state in any order of the walks |
| LeaseModel.InputLeaseModel.ReopenPage | AutoTest/analyze_gpu_skin_vs_input_lease.py:565-581 | the object's step is the protocol's |
| SnapshotPool.AlignIsLeast | AutoTest/analyze_stage11_snapshot_budget_model.py:20-23 | alignment gives the least multiple of 256 that holds the request, within 64 bits |
| SnapshotInvariant.StepInv | AutoTest/analyze_stage11_snapshot_budget_model.py:62-123 | every pool operation keeps slices contiguous inside their page, identities distinct, the books closed and the budgets respected |
| SnapshotSafety.PoolIsSafe | AutoTest/analyze_stage11_snapshot_budget_model.py:45-134 | after any run from a new pool: layout, identities, cap, class quotas, and created = active + reclaimed |
| SnapshotInvariant.SlicesDisjoint | AutoTest/analyze_stage11_snapshot_budget_model.py:89-93 | two slices of a page share no byte |
| SnapshotSafety.OwnedSliceStays | AutoTest/analyze_stage11_snapshot_budget_model.py:95-123 | an owned slice keeps its active page, bytes and owners through any run that does not release it |
| SnapshotSafety.UsedPageStays | AutoTest/analyze_stage11_snapshot_budget_model.py:104-123 | a page with an uncompleted GPU use stays active or retired through any run |
| SnapshotSafety.CompletionReturnsBacking | AutoTest/analyze_stage11_snapshot_budget_model.py:109-112 | completing every use of the retired pages empties the retired list |
| SnapshotSafety.GrantedIsFresh | AutoTest/analyze_stage11_snapshot_budget_model.py:62-93 | a granted slice holds the request, has one owner and shares no byte with any slice of its page |
| SnapshotSafety.RetryFindsNothing | AutoTest/analyze_stage11_snapshot_budget_model.py:74-77 | the second search after a collection never finds a page |
| SnapshotSafety.RejectedExactly | AutoTest/analyze_stage11_snapshot_budget_model.py:62-83 | exactly when a request is refused, in numbers of the pool before the call |
| SnapshotHistory.SubmitRecords | AutoTest/analyze_stage11_snapshot_budget_model.py:104-107 | exactly when a submit succeeds; it then records its use on the page the slice names and changes nothing else |
| SnapshotHistory.UsesAreSubmitted | AutoTest/analyze_stage11_snapshot_budget_model.py:104-123 | over any run a page is held for a use exactly when some submit put it there and no completion has reached it since |
| SnapshotHistory.SubmittedPageStays | AutoTest/analyze_stage11_snapshot_budget_model.py:104-123 | from the call: after a submit, through any run without a completion that reaches it, the page the slice names is active or retired |
| SnapshotHistory.OwnersAreCounted | AutoTest/analyze_stage11_snapshot_budget_model.py:89-102 | over any run from a new pool a slice has as many owners as it was granted and aliased, less its releases |
| SnapshotHistory.OwnersAllow | AutoTest/analyze_stage11_snapshot_budget_model.py:95-102 | an alias or a release is refused exactly when no owner is left |
| SnapshotHistory.CollectTakes | AutoTest/analyze_stage11_snapshot_budget_model.py:114-123 | a collection keeps exactly the pages with an owned slice, retires exactly those without one that the GPU still uses, and counts every page that goes |
| SnapshotHistory.GrantedWhere | AutoTest/analyze_stage11_snapshot_budget_model.py:62-93 | a slice goes at the end of the youngest page that suits it; only when none does, pages are collected and one is opened |
| SnapshotHistory.PageBytesIsLeast | AutoTest/analyze_stage11_snapshot_budget_model.py:78-78 | a page is the least multiple of the page size that holds its slice |
| SnapshotHistory.CountersCount | AutoTest/analyze_stage11_snapshot_budget_model.py:79-88 | the refusal counter counts the refusals, and the peak is the high-water mark of the active bytes |
| SnapshotAnchor.MixedScenario | AutoTest/analyze_stage11_snapshot_budget_model.py:137-152 | the mixed scenario completes min(count, cap / PAGE) cycles, each pinning a full page, and the next request is accepted if and only if one more page fits |
| SnapshotAnchor.GroupedScenario | AutoTest/analyze_stage11_snapshot_budget_model.py:137-152 | the grouped scenario completes min(count, 65536 * (pages in the cap - 1)) cycles, keeps exactly the packed anchors, and accepts the next request if and only if every cycle completed and one more page fits |
| SnapshotPoolModel.PagePool.Allocate | AutoTest/analyze_stage11_snapshot_budget_model.py:62-93 | the object's step is the pool's transition |
| SnapshotPoolModel.PagePool.FindFit | AutoTest/analyze_stage11_snapshot_budget_model.py:65-71 | finds the youngest page of the class with the room |
| SnapshotPoolModel.PagePool.Collect | AutoTest/analyze_stage11_snapshot_budget_model.py:114-123 | the collection loop keeps owned pages and retires those in GPU use |
| SnapshotPoolModel.PagePool.Submit | AutoTest/analyze_stage11_snapshot_budget_model.py:104-107 | the object's step is the pool's transition |
| SnapshotPoolModel.PagePool.Complete | AutoTest/analyze_stage11_snapshot_budget_model.py:109-112 | the object's step is the pool's transition |
| LptSchedule.GreedyWorkerMakespan | AutoTest/analyze_cpu_skin_mt_offline.py:479-484 | the loop yields the makespan of the list schedule of the tasks in descending order |
| LptSchedule.LptQuality | AutoTest/analyze_cpu_skin_mt_offline.py:479-484 | Graham's LPT bound: makespan <= (4/3 - 1/(3m)) times the finish time of every assignment |
| LptSchedule.MakespanWithinList | AutoTest/analyze_cpu_skin_mt_offline.py:479-484 | total <= m * makespan <= total + (m - 1) * longest task |
| LptSchedule.GreedyIsAchieved | AutoTest/analyze_cpu_skin_mt_offline.py:479-484 | some assignment of the tasks finishes exactly at the makespan |
| CoarseTasks.MakeCoarseTasks | AutoTest/analyze_cpu_skin_mt_offline.py:174-186 | raises exactly on bad input; otherwise a contiguous partition in which every task but the last reaches the target, and none reached it before its last job |
| CoarseTasks.TasksAreDetermined | AutoTest/analyze_cpu_skin_mt_offline.py:174-186 | any two task lists that meet that contract are the same list |
| CoarseTasks.TasksCoverJobs | AutoTest/analyze_cpu_skin_mt_offline.py:277-278 | the tasks cover every job exactly once |
| CoarseTasks.TaskIsBelow | AutoTest/analyze_cpu_skin_mt_offline.py:180-185 | a task holds less than the target plus its last job |
| CoarseTasks.TaskVertexCounts | AutoTest/analyze_cpu_skin_mt_offline.py:487-491 | the vertex counts of the tasks of such a partition |
| CoarseTasks.FewTasks | AutoTest/analyze_cpu_skin_mt_offline.py:487-491 | splitting loses no vertex and gives at most total / target + 1 tasks |
| CoarseTasks.CoarseSchedule | AutoTest/analyze_cpu_skin_mt_offline.py:503-520 | scheduling the split on m lanes: m * makespan <= total + (m - 1) * (target - 1 + longest job) |
| Coverage.ValidateExactCoverage | AutoTest/analyze_cpu_skin_mt_offline.py:198-205 | true if and only if every range is in bounds and every index is covered exactly once |
| Coverage.DisjointRangesCover | AutoTest/analyze_cpu_skin_mt_offline.py:189-195 | the chunks cover every vertex exactly once and none exceeds the chunk size |
| RangeEncoding.EncodeRange | AutoTest/analyze_cpu_skin_mt_offline.py:109-126 | each record of the range, up to the first vertex that cannot be encoded, stands at its place as the rendering of its own vertex with its own group slot; every other byte is unchanged, and nothing is written when the arguments are refused |
| RangeEncoding.AnySplitIsOnePass | AutoTest/analyze_cpu_skin_mt_offline.py:109-126 | ranges that together hold every vertex, in any order and of any size, write the bytes of one sequential pass |
| RangeEncoding.EncodeRanges | AutoTest/analyze_cpu_skin_mt_offline.py:230-238 | the loop over an exact coverage leaves the buffer of one pass, every vertex's record at its place |
| BucketBounds.BoundsAreExact | AutoTest/analyze_gpu_skin_small_job_batching.py:99-127 | the attainable totals of the chosen buckets are precisely the integers between the bounds |
| BucketBounds.RaisesIffImpossible | AutoTest/analyze_gpu_skin_small_job_batching.py:122-126 | the computation raises if and only if no job list has this histogram and total |
| BucketBounds.TightSubsetIsExact | AutoTest/analyze_gpu_skin_small_job_batching.py:99-127 | both, for the function as called, with its index errors |
| BucketBounds.FewerBucketsLowerBounds | AutoTest/analyze_gpu_skin_small_job_batching.py:130-143 | retaining fewer buckets lowers both bounds |
| BucketBounds.BucketIsLogOfGroups | AutoTest/analyze_gpu_skin_offline_cost.py:492-500 | a bucket's range is exactly the vertex counts with floor(log2(ceil(v/64))) equal to the bucket, and equals the hand-written table |
| BucketBounds.SuffixForm | AutoTest/analyze_gpu_skin_offline_cost.py:530-550 | the bounds from suffix totals are those of the subset form |
| BucketBounds.HybridThresholdModel | AutoTest/analyze_gpu_skin_offline_cost.py:503-568 | refuses exactly the histograms that do not close, are too long or admit no job list; otherwise one exact scenario per threshold |
| BucketBounds.ThresholdsAreMonotone | AutoTest/analyze_gpu_skin_offline_cost.py:530-568 | over the thresholds both bounds are non-increasing |
| LaneEnvelope.LocalSize32Envelope | AutoTest/analyze_gpu_skin_small_job_batching.py:347-353 | whatever the jobs were, rounding each to 32 lanes lands inside the envelope |
| LaneEnvelope.ReachedExactly | AutoTest/analyze_gpu_skin_small_job_batching.py:347-353 | the totals that job lists reach are exactly the multiples of 32 between max(actual, rounded64 - 32 per job) and min(rounded64, actual + 31 per job) |
| LaneEnvelope.EnvelopeEnds | AutoTest/analyze_gpu_skin_small_job_batching.py:347-353 | for totals some job list has, the upper end of the envelope is reached, and the lower end exactly when it is at least rounded64 - 32 per job |
| LaneEnvelope.LowerEndMissed | AutoTest/analyze_gpu_skin_small_job_batching.py:347-353 | two jobs with 2 vertices and 128 lanes of 64 can only take 64 lanes, below which the envelope still reaches 32 |
| LockShadow.OverlapIsSharedVertex | AutoTest/analyze_gpu_skin_outside_lock_shadow.py:189-192 | for non-empty intervals the comparison says that they share a vertex |
| LockShadow.LockIntervalInRing | AutoTest/analyze_gpu_skin_outside_lock_shadow.py:287-343 | a validated Lock covers whole vertices inside the ring, and a DISCARD lock starts it over |
| LockShadow.VerdictsMeanOverlap | AutoTest/analyze_gpu_skin_outside_lock_shadow.py:227-284 | a readable verdict is O exactly when a poison of its key overlaps its target |
| LockShadow.LockRefinesOld | AutoTest/analyze_gpu_skin_outside_lock_shadow.py:346-384 | in the cohort a Lock overlap was predicted, and the verdicts differ exactly when every predicted overlap was with another resource or generation |
| LockShadow.StrictCasesAgree | AutoTest/analyze_gpu_skin_outside_lock_shadow.py:411-432 | strict-identity cases have equal verdicts |
| LockShadow.OldNIsClean | AutoTest/analyze_gpu_skin_outside_lock_shadow.py:346-384 | a predicted N in the cohort: no byte the Lock maps belongs to a poisoned vertex of the locked resource |
| LockShadowMeaning.PredictedExactly | AutoTest/analyze_gpu_skin_outside_lock_shadow.py:195-284 | in the scenario's fields: a readable prediction is O exactly when some poison of the snapshot's device, buffer and format holds a vertex in [ringNext, ringNext + count), or in [0, count) when that would pass 0x4000; interval and flags likewise |
| LockShadowMeaning.LockedExactly | AutoTest/analyze_gpu_skin_outside_lock_shadow.py:287-384 | the exact verdict is O exactly when a vertex whose bytes the Lock maps is poisoned for the locked resource at its generation |
| LockShadowMeaning.EligibleExactly | AutoTest/analyze_gpu_skin_outside_lock_shadow.py:402-506 | a case is eligible exactly when nothing moved, both sides can be read and the Lock went where the snapshot said |
| LockShadowMeaning.SettlesFirst | AutoTest/analyze_gpu_skin_outside_lock_shadow.py:435-506 | a case settles as the first settlement, in order, that applies to it |
| LockShadowMeaning.CaseFlags | AutoTest/analyze_gpu_skin_outside_lock_shadow.py:411-506 | a case is strict exactly when it is eligible and every poison the prediction hits is of the locked resource at its generation; the violation flags say what they are named after |
| LockShadowAggregate.Aggregate.Add | AutoTest/analyze_gpu_skin_outside_lock_shadow.py:566-612 | after any sequence of cases every matrix cell, counter and saved example is the count or prefix its name says |
| LockShadowAggregate.MatricesAreSafe | AutoTest/analyze_gpu_skin_outside_lock_shadow.py:546-612 | the eligible N/O cell and the strict off-diagonal are 0; all = eligible + invalidated cell by cell; strict within eligible |
| LockShadowAggregate.ReportIsClean | AutoTest/analyze_gpu_skin_outside_lock_shadow.py:522-654 | the report is clean: every closure holds, nothing unsafe is eligible, and the eligible disagreements are only the conservative ones |
| CanonicalDecimal.SpelledIsAccepted | AutoTest/analyze_frame_evidence.py:90-92 | every 64-bit value is accepted in its usual spelling |
| CanonicalDecimal.AcceptedIsSpelled | AutoTest/analyze_frame_evidence.py:90-92 | an accepted string is the one spelling of its value, below 2^64 |
| SpanMatcher.DecodeIsInjective | AutoTest/analyze_frame_evidence.py:145-164 | two readable events with equal decoded fields are the same event, so comparing numbers compares the strings |
| SpanMatcher.Analyze | AutoTest/analyze_frame_evidence.py:141-189 | refuses exactly the lists with an unreadable event or one that breaks a sequence, clock, parent, span or caster rule; otherwise reports exactly the pairing |
| SpanMatcher.StillOpenMeans | AutoTest/analyze_frame_evidence.py:166-171 | an event is still open when it opened and no later event closed it |
| SpanMatcher.SpanIsPair | AutoTest/analyze_frame_evidence.py:169-174 | a reported span pairs a begin with a strictly later end of matching kind, identity and label, with a non-negative duration |
| SpanMatcher.NoBeginTwice | AutoTest/analyze_frame_evidence.py:169-174 | no begin is used by two spans |
| SpanMatcher.PairIsReported | AutoTest/analyze_frame_evidence.py:169-174 | every end event whose begin is open is reported |
| SpanMatcher.BeginsAreAccounted | AutoTest/analyze_frame_evidence.py:166-189 | begin events = reported spans + spans left open |
| SpanReading.DecodesIff | AutoTest/analyze_frame_evidence.py:145-164 | a raw event is read as an event exactly when it is that event written field by field, in canonical decimals and within the bounds of each field |
| SpanReading.AcceptedIff | AutoTest/analyze_frame_evidence.py:143-183 | a readable list is accepted exactly when sequence numbers and clocks run as the schema demands, parents come earlier, and every pair and binding agrees |
| SpanReading.ReportMeans | AutoTest/analyze_frame_evidence.py:165-189 | in event kinds and positions: the spans are the pairs, the unmatched events are the strays and the begins no event ends, and each flag stands for an event in the list |
| PaletteEvent.DecodingLosesNothing | AutoTest/analyze_palette_object_evidence.py:418-483 | for each format version, equal decoded records come from identical data strings and words |
| PaletteEvent.DecodedIsShaped | AutoTest/analyze_palette_object_evidence.py:355-400 | what each format version rules out |
| PaletteWire.EncodedDecodes | AutoTest/analyze_palette_object_evidence.py:418-483 | a record written slot by slot decodes to itself, for every format version |
| PaletteWire.DecodesIff | AutoTest/analyze_palette_object_evidence.py:418-483 | a wire event decodes to a record exactly when it is the wire form of that record; nothing else is accepted |
| PaletteChain.CheckNumbering | AutoTest/analyze_palette_object_evidence.py:646-656 | the first event out of number is a step back or a gap; neither exactly when the chain is numbered 1 .. n |
| PaletteChain.JudgeChain | AutoTest/analyze_palette_object_evidence.py:514-782 | refuses a second terminal; covered, observed and complete hold exactly under the stated conditions |
| PaletteChain.CertifiedChain | AutoTest/analyze_palette_object_evidence.py:514-782 | versions 1, 2 and 4: numbered 1 .. n, first Rejected < ServedCandidate < Enqueued < live Drawn, no FirstSight, one terminal, recovered, from a checked rejection |
| PaletteChain.NoFirstSight | AutoTest/analyze_palette_object_evidence.py:527-600 | only version 3 certifies from a FirstSight head; a certified chain has a Rejected stage exactly when it has no FirstSight |
| PaletteVerdict.SecondTerminal | AutoTest/analyze_palette_object_evidence.py:519-526 | the count that makes the reader raise exceeds 1 exactly when two events of the chain are terminal |
| PaletteVerdict.CertifiableIff | AutoTest/analyze_palette_object_evidence.py:527-750 | event by event: a chain is certified exactly when it is numbered 1 .. n, its stages happen in order, its largest hit count is the number of served events, submit and draw are flagged, frames are anchored, it ends in a sourced recovery after a checked rejection, and every event is proven to be of the one object |
| PaletteAccounting.GroupsPartition | AutoTest/analyze_palette_object_evidence.py:491-504 | every event is counted in exactly one chain |
| PaletteAccounting.ChainOfEvent | AutoTest/analyze_palette_object_evidence.py:485-504 | an event's chain holds exactly the events of the same object, chain type and window segment, in the order of the export |
| PaletteAccounting.Analyze | AutoTest/analyze_palette_object_evidence.py:784-945 | the export is complete exactly when nothing is missing and every chain is certified |
| PaletteAccounting.CompleteExportAccounts | AutoTest/analyze_palette_object_evidence.py:872-945 | emitted = exported = sum of chain sizes; objects = terminals = recoveries; every other settled bucket and every loss counter is 0 |
| PaletteAccounting.CompleteChainsAreNumbered | AutoTest/analyze_palette_object_evidence.py:646-656 | in a complete export each chain is numbered exactly 1 .. n |
| PaletteFirstSight.CertifiedChainExports | AutoTest/analyze_palette_object_evidence.py:872-945 | any certified chain, exported alone with counters to match, is a complete export |
| PaletteFirstSight.FirstSightHeadIsCertified | AutoTest/analyze_palette_object_evidence.py:677-750 | a concrete version-3 chain without any Rejected event is certified as recovered |
| PaletteFirstSight.FirstSightExportIsComplete | AutoTest/analyze_palette_object_evidence.py:784-945 | an export that holds only this chain passes every check and is complete |
| RecoverySeries.MergeRunSeries | AutoTest/analyze_night_pressure_recovery.py:1039-1064 | raises exactly on two different rows of one business frame; otherwise the union holds each row once, ascending, and counts the duplicates |
| RecoverySeries.MergeIgnoresOrder | AutoTest/analyze_night_pressure_recovery.py:1039-1064 | reports in any order merge to the same union, or conflict alike |
| RecoverySeries.CoverageGaps | AutoTest/analyze_night_pressure_recovery.py:1067-1079 | the gaps are the maximal runs of missing frames, in order |
| RecoveryWindow.InvalidRuns | AutoTest/analyze_night_pressure_recovery.py:719-730 | the maximal runs of invalid frames, in order |
| RecoveryWindow.SustainedTail | AutoTest/analyze_night_pressure_recovery.py:733-739 | the number of valid frames at the end |
| RecoveryWindow.Classify | AutoTest/analyze_night_pressure_recovery.py:765-785 | which relief frames are valid, and how many are fresh and complete |
| RecoveryWindow.EvaluateRecoveryWindow | AutoTest/analyze_night_pressure_recovery.py:742-831 | lists each failure exactly when the frames show it |
| RecoveryWindow.EvaluateUnion | AutoTest/analyze_night_pressure_recovery.py:1082-1093 | passes exactly when the contract is met and no business frame is missing |
| RecoveryWindow.EveryFrameOnce | AutoTest/analyze_night_pressure_recovery.py:1067-1093 | in a covered union every business frame from pressure start to relief end occurs exactly once |
| RecoveryWindow.ValidMeans | AutoTest/analyze_night_pressure_recovery.py:765-785 | a frame is valid exactly when, on its raw values, casters >= 1, skipped and partial lie in (-1, 1), both receiver columns in [1, 2), and it is fresh or reused lies in [1, 2) |
| RecoveryWindow.PassIff | AutoTest/analyze_night_pressure_recovery.py:742-831 | the default contract passes exactly when: 60 relief frames, the last 60 valid, no seven invalid in a row, casters >= 1 and skipped and partial in (-1, 1) in every frame, raw serials never falling, at least 8 fresh and complete frames |
| RecoveryWindow.HalfSkipPasses | AutoTest/analyze_night_pressure_recovery.py:742-831 | a concrete run that skips half a caster in every frame passes |
| RecoveryWindow.PassMeans | AutoTest/analyze_night_pressure_recovery.py:742-831 | what a pass establishes besides that: the relief rows are the frames of the relief phase one by one, and the render serial gets as far beyond the pressure phase as there are fresh frames |
| GatherDecoding.GatherPreservesPositions | AutoTest/analyze_frame_inputs.py:24-108 | a faithful gather of every stream in use reconstructs the same position at every corner as the plain draw, negative base vertex included, and raises exactly when the plain draw does |
| GatherDecoding.UngatheredBlendReadsByCorner | AutoTest/analyze_frame_inputs.py:61-72 | with the blend stream in use but not gathered, corner c gets the blend attributes of vertex number c |
| GatherReading.AttributeReads | AutoTest/analyze_frame_inputs.py:24-40 | reading a format of the right size gives exactly the bytes at its offset in the vertex's record, whatever surrounds them |
| GatherReading.AttributeRefused | AutoTest/analyze_frame_inputs.py:24-40 | and exactly when it is refused |
| GatherReading.IndexReads | AutoTest/analyze_frame_inputs.py:42-72 | corner c is the little-endian number at place firstIndex + c of the index buffer, of two or four bytes, plus the signed base vertex |
| GatherReading.PlainReads | AutoTest/analyze_frame_inputs.py:61-108 | corner c of a plain draw is the transform of the attribute bytes that stand in the record of the vertex it names |
| GatherReading.GatheredReads | AutoTest/analyze_frame_inputs.py:61-108 | so is corner c of a gathered draw, in terms of the buffers it was gathered from |
| GatherReading.AcceptedIffGathered | AutoTest/analyze_frame_inputs.py:61-100 | the checks accept a gather exactly when it is the gather of some source buffers |
| GatherReading.ReconstructedFromSource | AutoTest/analyze_frame_inputs.py:42-108 | a fully gathered draw is reconstructed to what the plain draw gives over such buffers, or refused when there are none |
| GatherExactness.UngatheredBlendAgreesIff | AutoTest/analyze_frame_inputs.py:42-108 | one such capture is decoded correctly exactly when every corner lands where it belongs, or both readings raise |
| GatherExactness.DecodableIsRight | AutoTest/analyze_frame_inputs.py:42-108 | a draw that meets a condition on the draw and its indices alone is decoded correctly from every capture, for every transform |
| GatherExactness.AlwaysRightIff | AutoTest/analyze_frame_inputs.py:42-108 | that condition is exact: every other gathered draw that has a capture has one that is decoded wrongly |
| GatherExactness.UngatheredBlendWitness | AutoTest/analyze_frame_inputs.py:61-72 | a concrete capture whose plain draw reads 2,2,2,2 and whose decoded gather reads 1,1,1,1 |
| EvidenceSelection.SelectEvidence | AutoTest/package_frame_input_research.py:25-41 | raises exactly when a chosen batch reaches past the file; otherwise copies each chosen batch, rebased back to back |
| EvidenceSelection.SelectionNeverRaises | AutoTest/package_frame_input_research.py:31-37 | a file that passes the layout checks can be selected from with any frame set |
| EvidenceSelection.SelectionPassesLayout | AutoTest/analyze_frame_inputs.py:124-147 | the derived file passes the reader's header, capacity, order, range, fence, draw-accounting and record checks |
| EvidenceSelection.SpansUnchanged | AutoTest/package_frame_input_research.py:31-38 | every copied span names the same bytes as in the original file |
| SessionEvents.PushKeepsLog | AutoTest/autotest_sessions.py:401-414 | the buffer is the last 4000 events pushed, numbered from 1 |
| SessionEvents.PollIsExact | AutoTest/autotest_sessions.py:416-422 | for any since id a poll returns, in order, the first matching events still visible, up to the clamped limit |
| SessionEvents.PollInNumbers | AutoTest/autotest_sessions.py:413-422 | in numbers: visible are the events after the since id among the last 4000; the rows are a prefix of the matching ones, of the limit's length read as at least 1 and at most 1000 if there are as many |
| SessionEvents.NothingSkippedIff | AutoTest/autotest_sessions.py:413-422 | a poll returns nothing when nothing is outstanding, and otherwise continues with the very next event exactly when at most 4000 are |
| SessionEvents.PollingLosesNothing | AutoTest/autotest_sessions.py:401-422 | over any interleaving of pushes and polls that keeps up, the client receives every matching event once, in order |
| SessionEvents.ShortPollDrains | AutoTest/autotest_sessions.py:416-422 | a poll below its limit has delivered every matching event so far |
| SessionRegistry.StepKeepsIndex | AutoTest/autotest_sessions.py:461-535 | every call keeps: a positive pid in the index names a registered session carrying that pid |
| SessionRegistry.RoutedToItsOwner | AutoTest/autotest_sessions.py:530-535 | after any run a routed event reaches exactly the session that carries the pid, as the last entry of its log; otherwise nothing changes |
| SessionRegistry.AttachRoutes | AutoTest/autotest_sessions.py:472-486 | an attach is refused exactly as stated; otherwise the new pid routes to the now running session, its earlier pid to none, and no other pid or session is touched |
| SessionRegistry.StopEndsRouting | AutoTest/autotest_sessions.py:513-521 | stopping ends the routing of the session's pid and of no other |
| SessionRegistry.RemoveEndsRouting | AutoTest/autotest_sessions.py:523-528 | removing forgets the session and ends all routing to it |
| SessionRegistry.StepKeepsRunningIff | AutoTest/autotest_sessions.py:472-528 | a successful call keeps every running session reachable by its pid if and only if it is careful |
| SessionRegistry.CarefulRunKeepsRunning | AutoTest/autotest_sessions.py:472-528 | over a run of careful calls the index is right in both directions |
| SessionRegistry.StalePidUnroutesAnother | AutoTest/autotest_sessions.py:523-528 | a concrete run in which removing a stopped session unroutes another running one |
| SessionModel.AutoTestSession.PushEvent | AutoTest/autotest_sessions.py:401-414 | the object's step is the log's |
| SessionModel.AutoTestSession.GetEvents | AutoTest/autotest_sessions.py:416-422 | the rows a poll returns |
| SessionModel.Registry.Reserve | AutoTest/autotest_sessions.py:461-470 | the object's step is the registry's transition |
| SessionModel.Registry.AttachPid | AutoTest/autotest_sessions.py:472-486 | the object's step is the registry's transition |
| SessionModel.Registry.Get | AutoTest/autotest_sessions.py:488-495 | finds the session a selector names |
| SessionModel.Registry.MarkStopped | AutoTest/autotest_sessions.py:513-521 | the object's step is the registry's transition |
| SessionModel.Registry.Remove | AutoTest/autotest_sessions.py:523-528 | the object's step is the registry's transition |
| SessionModel.Registry.RouteEvent | AutoTest/autotest_sessions.py:530-535 | the object's step is the registry's transition |

## Left out

- Consumer masks are sets of bit positions; a negative Python mask has no counterpart.
- The retained set of `tight_subset_vertex_bounds` holds non-negative indices; Python's negative indexing is not modelled.
- Percentages, timings, cost constants, float32 vertex arithmetic and every other floating-point result: work is counted in vertices, and the per-vertex transform, encoding and attribute conversion are parameters.
- Pages and slices of the snapshot pool are values inside the pool's page list, and a caller names a slice by page and offset; the list of all slices ever granted, which nothing reads back, is not kept. `stats` and `range_scenario` only summarise.
- Dictionary iteration order, and the sorting of report entries, where no result depends on it.
- The names inside the palette reader's issue, truncation, refusal and missing lists: the contracts say when each list is empty, which is what every verdict depends on.
- The header checks of `analyze_frame_evidence` (schema, capabilities, capacities, loss accounting) enter as the context of the event loop. Event fields are read before the loop instead of inside it; either way an unreadable field refuses the list.
- `link_screenshots` and the rest of the screenshot matching.
- Values of a workload series are exact real numbers: rounding of numbers beyond 2^53 to floating point is not modelled; the metrics beside the verdict are not reported.
- Palette events are those the reader has picked by kind 12 and label. The frame-evidence gaps, evicted count and gate that the palette reader takes from the header are inputs of `PaletteAccounting.Analyze`; export blocks and counter-name checks are not modelled. Events arrive in sequence order, as the frame-evidence reader demands.
- Draw-event matching in `analyze_inputs`, which may legitimately differ after a selection, and hashes of spans beyond the bytes they cover.
- Session start, artifacts, timestamps, message trimming, locks, the process handle, `list` and `cleanup_orphans`, which is a loop of `mark_stopped`. The `contains` filter is any predicate on events.
- Static audits of C++ sources, random case generators, image and model parsing, Win32 calls, packaging to a zip file, argument parsing and JSON report layout.
- CoarseTasks.TaskVertexCounts: says that some partition has these counts; by TasksAreDetermined there is only one.
- RangeEncoding.EncodeRange: normals, texture coordinates and diffuse colours are part of the rendered record, so a source list shorter than the vertex count is not modelled.
