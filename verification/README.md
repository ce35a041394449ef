# Measured-run machinery, modelled and verified

This project models the scripts that schedule, watch, authorize, record and compare measured test
runs, and a few self-contained algorithms of the same repository, and proves what they promise.

- `Scheduler`, `CriticalPath` (on `Greedy`, `Stability`, `Shares`, `Ordering`, `Sequences`):
  longest-first assignment, written twice in the source. Both copies are near-optimal, one refines the
  other, the result depends on the collection of nodes alone, and small changes of the costs move it
  only a little.
- `Reconciliation`, `Reporting`: workers disclose node outcomes as numbered streams and the parent
  reconciles them. The producer and the consumer compose: every interleaving of well-formed runs is
  accepted, and the verdict depends on the per-worker streams alone.
- `Watchdog`: three non-borrowable intervals under an internal total, with a first-violation latch.
- `Broker`, `Lease`: single-use controls under every interleaving of threads and brokers, and a lease
  that is exclusive exactly while nobody releases another's.
- `Evidence`: manifest-last sealing, as a class and as a model of every crash point.
- `ProofSearch`, `Reachability`: a memoised depth-first search with a cycle guard, and a worklist.
- `Backfill`, `ChunkPlan`: a resumable keyset loop under every schedule of crashes and restarts, and the
  overlapping windows each body is cut into.
- `Cursor`, `Delta`, `Comparison`, `Bundles`, `Grammar` (on `Text`): codecs and parsers with their
  round trips, and the comparison they carry.

Code that the source writes step by step is a method or a class here, proved equal to a specification
function; the lemmas are about that function. Hash functions, MACs, JSON codecs, rounding and case
folding are parameters, with the hypotheses they need stated where they are used. Times are exact
reals read from a clock that is a parameter, and the fresh name of a temporary file is one too. The
embedder is a parameter that answers one vector per text, as the repository's three do.
`dafny verify dfyconfig.toml` checks everything.

Where the code does less than its documentation or its callers may expect, the code is followed:

- The memo that `_proves` shares between tests can store a False that a cycle guard cut short.
  `ProofSearch.ExactIffNoTrap` says exactly which call graphs are safe in every order of calls and
  queries, `ProofSearch.ExactForRoots` what that needs of a fixed set of tests, and
  `ProofSearch.SharedMemoCanLie` gives a file that is not safe.
- `release_lease` unlinks by path without comparing the lease ID: `Lease.ExclusiveIffNoStaleRelease`.
- `leave` records the interval at one reading and checks at a later one, so an eligible run can carry
  an internal-total violation (`Watchdog.EligibleRunCanBlameTotal`), exactly when a judging reading
  came too late (`Watchdog.EligibleRunViolatesExactly`).
- The manifest stores base names, so a raw file in a subdirectory verifies only if a file of that base
  name and the same content stands in the run directory: `Evidence.CleanAtFinalizeExactly`,
  `Evidence.MissingTwinIsReported`.
- The cursor module says that ASCII payloads encode alike in both alphabets; a '?' or '>' in the
  wrong place is enough for them not to (`Cursor.AsciiStreamsCoincide`, `Cursor.AsciiIsNotEnough`). It
  also says that tokens with '+' or '/' do not decode; they do (`Cursor.DecodeEveryForm`).
- A bundle's outcome is re-derived from rounded timings and can differ from the one it was written
  with (`Bundles.OutcomeCanFlip`). `Bundles.DecidedExactly` says which verdicts are out of reach of the
  rounding, and `Bundles.DecidedOutcomeSurvives` that they survive.
- A recorded duration of zero is worth nothing to `assignments` and the fallback to `balance`
  (`CriticalPath.ZeroDurationDiverges`); the two agree exactly when all are positive
  (`CriticalPath.CopiesAgreeExactly`).
- The backfill never processes a fact whose ID is the null UUID (`Backfill.NullFactUntouched`).

## Model

| member | source | states |
|---|---|---|
| Scheduler.CostPositive | scripts/integration_scheduler.py:126-145 | Every node costs more than zero, whatever the history holds: recorded non-positive figures and an empty history fall back |
| Scheduler.CostIgnoresInsertionOrder | scripts/integration_scheduler.py:133-145 | Two histories with the same entries in any order give every node the same cost |
| Scheduler.Balance | scripts/integration_scheduler.py:198-250 | The greedy loop computes the schedule defined by sorting and placing longest first; a bad worker count, an empty collection and duplicate nodes are refused |
| Scheduler.BalanceDealsEveryNodeOnce | scripts/integration_scheduler.py:216-250 | The shares together hold exactly the nodes of the collection, each in ID order; each prediction is the sum of its share's costs; worker_for names exactly the holder |
| Scheduler.OwnerIsHolder | scripts/integration_scheduler.py:183-188 | For a scheduled node, worker_for answers a worker exactly when that worker's share holds the node |
| Scheduler.DigitsInjective | scripts/integration_scheduler.py:253-254 | Different worker indexes have different decimal names |
| Scheduler.BalanceIgnoresOrder | scripts/integration_scheduler.py:198-250 | Every permutation of the input gives the same result, refusals included |
| Scheduler.BalanceIsNearOptimal | scripts/integration_scheduler.py:228-250 | No worker's prediction exceeds 4/3 - 1/(3 workers) times the ceiling of any other assignment of the same nodes |
| Scheduler.BalanceIsNearAverage | scripts/integration_scheduler.py:228-250 | workers times a prediction is at most the total cost plus (workers - 1) times the largest cost |
| Greedy.LoadsConserve | scripts/integration_scheduler.py:231-237 | The loads of any assignment sum to the total cost |
| Greedy.ListSchedulingBound | scripts/integration_scheduler.py:231-237 | Placing on the least loaded worker, in any order, stays within the list-scheduling bound |
| Greedy.LongCostsFit | scripts/lifecycle_measurement.py:172-177 | While every cost placed is above a third of an alternative's ceiling, longest-first placement stays under that ceiling |
| Greedy.LongestFirstBound | scripts/lifecycle_measurement.py:172-177 | The longest-first bound over every alternative assignment of a descending sequence of costs |
| Shares.BucketsConserve | scripts/integration_scheduler.py:232-237 | The buckets hold exactly the elements dealt, with their multiplicity |
| Shares.BucketSum | scripts/integration_scheduler.py:232-237 | The sum over a bucket is the load the placement gives that worker |
| Ordering.SortCanonical | scripts/integration_scheduler.py:228-229 | Sorting by a key that separates the elements forgets the arrangement of the input |
| CriticalPath.BalancedCriticalPath | scripts/lifecycle_measurement.py:156-177 | The loop computes the largest load of the longest-first placement, with the empty and one-worker shortcuts and the refused worker count |
| CriticalPath.Assignments | scripts/lifecycle_measurement.py:180-191 | The loop computes the buckets of the same placement |
| CriticalPath.BalanceRefinesAssignments | scripts/lifecycle_measurement.py:156-191 | For positive durations equal to the predicted costs, balance deals the sorted buckets of assignments and its largest prediction is the balanced critical path, one worker included |
| CriticalPath.ZeroDurationDiverges | scripts/lifecycle_measurement.py:172-176 | A node recorded at zero seconds costs nothing here and the fallback in the scheduler, so the hypothesis of equal positive costs is needed |
| CriticalPath.CopiesAgreeExactly | scripts/lifecycle_measurement.py:156-191 | When the history is the durations themselves, balance and assignments give every worker the same share and load exactly when every recorded duration is positive |
| CriticalPath.CriticalPathIsNearOptimal | scripts/lifecycle_measurement.py:156-177 | The critical path is within 4/3 - 1/(3 workers) of the ceiling of any other assignment of the timings, equal timings on different workers included |
| Stability.LoadsNear | scripts/lifecycle_measurement.py:172-177 | When every cost moves by at most d, the sorted loads of the longest-first placement move by at most d per cost, at every worker count and however the costs reorder |
| Reconciliation.Reconciler.constructor | scripts/integration_scheduler.py:308-311 | A new reconciler holds no facts |
| Reconciliation.Reconciler.RecordEvent | scripts/integration_scheduler.py:313-359 | Refuses exactly as the specification's ordered checks do and then changes nothing; otherwise the new state is the recorded one |
| Reconciliation.Reconciler.Finalize | scripts/integration_scheduler.py:361-367 | Returns the outcomes when no scheduled node is unresolved, and names the unresolved otherwise |
| Reconciliation.Reconciler.OutcomesWithMissing | scripts/integration_scheduler.py:369-379 | Every scheduled node with its outcome, or missing |
| Reconciliation.OwnedIsScheduled | scripts/integration_scheduler.py:183-188 | A node has an owner exactly when it is scheduled |
| Reconciliation.ReplayConsistent | scripts/integration_scheduler.py:306-359 | After any calls: resolved nodes are started, started are scheduled, each worker's accepted events are numbered 1 to k, each came from the owner |
| Reconciliation.FinalizeIsExact | scripts/integration_scheduler.py:361-367 | finalize succeeds exactly when every scheduled node has one start and then one terminal event, and returns those outcomes and no others |
| Reconciliation.ProjectionAgrees | scripts/integration_scheduler.py:313-359 | In an accepted log, each worker's own events alone are accepted and leave the same facts about that worker |
| Reconciliation.AcceptedByWorker | scripts/integration_scheduler.py:313-359 | A log is accepted exactly when every worker's own stream is |
| Reconciliation.InterleavingIrrelevant | scripts/integration_scheduler.py:313-367 | Two interleavings of the same streams are both accepted or both refused, with equal starts, outcomes, numbers and answer from finalize |
| Reporting.WorkerReporter.Emit | scripts/integration_reporter.py:78-88 | Appends one event with the next number |
| Reporting.WorkerReporter.Promote | scripts/integration_reporter.py:90-93 | Keeps the worse-ranked of the recorded outcome and the candidate |
| Reporting.WorkerReporter.OnLogStart | scripts/integration_reporter.py:95-99 | Emits a start once per node |
| Reporting.WorkerReporter.OnLogReport | scripts/integration_reporter.py:101-109 | Promotes failed, skipped and call-passed reports; other reports change nothing |
| Reporting.WorkerReporter.OnLogFinish | scripts/integration_reporter.py:114-122 | Emits the pending outcome, if any, and forgets it |
| Reporting.WorstIsWorst | scripts/integration_reporter.py:48-53 | The folded outcome is one some report gives and none ranks above it; there is none exactly when no report gives one |
| Reporting.WorstIgnoresOrder | scripts/integration_reporter.py:90-109 | The folded outcome is the same for every order of the reports |
| Reporting.ReporterTracksNode | scripts/integration_reporter.py:95-122 | After any hooks, the reporter's fields about a node are the start seen and the worst report since its last finish |
| Reporting.StreamNumbered | scripts/integration_reporter.py:78-88 | Whatever the hooks, the stream is numbered 1 to k under the worker's own name |
| Reporting.StreamAcceptedExactly | scripts/integration_reporter.py:95-122 | The parent accepts a worker's stream exactly when every finish with something pending follows a start and is the first to disclose its node |
| Reporting.WellFormedDisciplined | scripts/integration_reporter.py:95-122 | One start, then reports, then one finish per node is such a discipline |
| Reporting.EveryInterleavingAccepted | scripts/integration_scheduler.py:313-359 | Every interleaving of the streams of well-formed hook traces is accepted |
| Reporting.EveryInterleavingReconciles | scripts/integration_scheduler.py:361-367 | finalize then succeeds exactly when every scheduled node had a failed, skipped or call-passed report, and each outcome is the worst-ranked report |
| Watchdog.IntervalWatchdog.constructor | scripts/integration_scheduler.py:453-467 | Starts at the first reading with nothing recorded |
| Watchdog.IntervalWatchdog.SetEnforcing | scripts/integration_scheduler.py:477-485 | Switches enforcement and touches nothing else |
| Watchdog.IntervalWatchdog.Enter | scripts/integration_scheduler.py:498-513 | Opens the next phase in order; the three refusals change nothing |
| Watchdog.IntervalWatchdog.Check | scripts/integration_scheduler.py:515-545 | Judges the open interval first, then the internal total, latching the first violation |
| Watchdog.IntervalWatchdog.Leave | scripts/integration_scheduler.py:547-571 | Records the closed interval before judging it, then checks again at the next reading |
| Watchdog.IntervalWatchdog.TotalSeconds | scripts/integration_scheduler.py:583-606 | The sum of the three durations, refused while incomplete or when the wall time differs by more than the tolerance |
| Watchdog.IntervalWatchdog.FailWith | scripts/integration_scheduler.py:608-616 | Latches a violation if none is latched and raises only when enforcing |
| Watchdog.Eligible | scripts/integration_scheduler.py:619-648 | The misses listed are exactly the intervals over their maxima, then the internal total, then the external real time |
| Watchdog.RunSound | scripts/integration_scheduler.py:498-571 | In every run under a monotone clock elapsed time is interval time plus open time plus outside time, and any latched violation is explained by the run |
| Watchdog.ViolationLatches | scripts/integration_scheduler.py:608-616 | A latched violation never changes, whatever is called later and however enforcement is switched |
| Watchdog.BudgetsSumToTotal | scripts/integration_scheduler.py:35-41 | Intervals within their maxima sum to at most the internal maximum |
| Watchdog.TotalBlamedOnlyForGaps | scripts/integration_scheduler.py:515-545 | The internal total is blamed only if at least its excess over 59 seconds passed outside every interval |
| Watchdog.CleanRunIsEligible | scripts/integration_scheduler.py:619-648 | A completed run with no violation, an accepted total and external time under 60 has no misses |
| Watchdog.EligibleRunBlamesOnlyTotal | scripts/integration_scheduler.py:619-648 | An eligible completed run carries no violation, or one of the internal total |
| Watchdog.EligibleRunCanBlameTotal | scripts/integration_scheduler.py:547-571 | A contiguous run at its maxima is eligible and yet carries an internal-total violation taken after its last interval closed |
| Watchdog.EligibleRunViolatesExactly | scripts/integration_scheduler.py:515-571 | An eligible completed run carries a violation exactly when some reading that judges the internal total, a check's or a closing leave's second, came more than 59 seconds after the start |
| Watchdog.AcceptedTotalBoundsGaps | scripts/integration_scheduler.py:583-606 | An accepted internal total bounds the time outside intervals, up to the last close, by 1e-6 |
| Broker.ControlBroker.Authenticate | scripts/integration_control.py:227-314 | The verdict is that of the ordered checks, and a marker is added exactly for an acceptance |
| Broker.ControlBroker.CloseAdmission | scripts/integration_control.py:224-225 | Closes admission and changes nothing else |
| Broker.MarkerDirectory.CreateExclusively | scripts/integration_control.py:296-314 | Succeeds exactly when the marker was absent, and leaves it present |
| Broker.RunSafe | scripts/integration_control.py:472-500 | Over every interleaving of threads, brokers, closings and file changes: every thread's stage is earned, and new markers are exactly the admitted digests |
| Broker.DigestAcceptedOnce | scripts/integration_control.py:296-314 | No digest is accepted by two threads, of one broker or of several sharing a directory, nor if it was already marked |
| Broker.MarkersAreDeserved | scripts/integration_control.py:227-274 | A digest is newly marked exactly when a thread was admitted with it, and that control was authentic, unexpired when judged and bound as expected |
| Broker.AloneIsAuthenticate | scripts/integration_control.py:227-314 | A thread that runs undisturbed gives the verdict and the marker of the sequential call |
| Broker.RefusedControlStillWorks | scripts/integration_control.py:227-274 | After any run that admitted nobody with a control, it is still admitted by an open broker with matching expectations before expiry |
| Broker.ClosedBrokerAdmitsNobodyNew | scripts/integration_control.py:224-230 | After closing, no thread still before its admission check is ever admitted |
| Lease.LeaseFile.AcquireLease | scripts/integration_control.py:354-378 | Succeeds exactly when no lease file exists, and is the acquire step of the run model |
| Lease.LeaseFile.ReleaseLease | scripts/integration_control.py:381-388 | Removes the file whoever's lease it is, and is the release step of the run model |
| Lease.ExclusiveIffNoStaleRelease | scripts/integration_control.py:354-388 | The lease is exclusive throughout a run exactly when nobody releases a lease it does not hold while somebody holds one |
| Lease.DoubleReleaseBreaksExclusion | scripts/integration_control.py:381-388 | A second release by the same caller lets two others hold the lease at once |
| Evidence.StepsAreWriteRaw | scripts/integration_evidence.py:126-149 | A raw write through its temporary file, whatever it passes through, ends where write_json ends, with no trace of the temporary file |
| Evidence.StepsAreFinalize | scripts/integration_evidence.py:252-274 | The sealing steps, whatever they pass through, leave what finalize leaves |
| Evidence.AbortUndoes | scripts/integration_evidence.py:146-148 | A write or a sealing that fails before its rename leaves files, record and sealing as they were |
| Evidence.EvidenceWriter.WriteRaw | scripts/integration_evidence.py:213-227 | Writes and records a raw file; a leak, a finalized run and the manifest's name are refused in that order and change nothing |
| Evidence.EvidenceWriter.Adopt | scripts/integration_evidence.py:229-241 | Records an existing file in place and refuses a missing one |
| Evidence.EvidenceWriter.Finalize | scripts/integration_evidence.py:252-274 | Seals once; fails exactly on a second call, a leak or a vanished raw file, and then writes nothing |
| Evidence.VerifyManifest | scripts/integration_evidence.py:340-363 | The loop reports exactly the mismatching names with their problems; without a manifest it refuses |
| Evidence.CleanIffUnchanged | scripts/integration_evidence.py:340-363 | For an injective hash, verification is clean exactly when the directory holds under each base name what the raw file held when sealed |
| Evidence.CleanFromFinalizeOn | scripts/integration_evidence.py:252-274 | With raw files directly in the run directory, the state finalize leaves verifies clean, and later states do exactly until a named file changes |
| Evidence.CleanAtFinalizeExactly | scripts/integration_evidence.py:260-273 | Wherever the raw files are and whatever their names, what finalize leaves verifies clean exactly when every raw file had a twin of the same content, itself or another, directly in the run directory; where the base name is the manifest's, the manifest is the twin |
| Evidence.CleanTextsExactly | scripts/integration_evidence.py:260-273 | For raw files with texts of their own: clean exactly when none has the manifest's base name and every one had a twin in the run directory |
| Evidence.MissingTwinIsReported | scripts/integration_evidence.py:265-266 | A raw file whose base name is not in the run directory is reported missing as soon as it is sealed |
| Evidence.NextKeepsManifestLast | scripts/integration_evidence.py:126-149 | Every step keeps: a manifest on disk is the one sealed, and it arrived by the last rename |
| Evidence.NextKeepsIntact | scripts/integration_evidence.py:252-274 | With raw files directly in the run directory, every step, aborts included, keeps: what the sealed manifest names is there and matches |
| Evidence.ManifestNeverLies | scripts/integration_evidence.py:252-274 | At every crash point of every run, a manifest on disk is the one sealed; with raw files directly in the run directory and other programs off the named files, every file it names verifies |
| Evidence.NoPartialArtifact | scripts/integration_evidence.py:126-149 | At every crash point, every file but the one temporary file is complete: old, a whole payload, or the sealed manifest |
| ProofSearch.Gate.ProvesSomething | scripts/check_test_assertions.py:209-244 | The search with its shared memo and visiting set computes the specified verdict and memo, restores the visiting set, and terminates on every graph |
| ProofSearch.RawViolations | scripts/check_test_assertions.py:286-308 | Reports exactly the tests whose verdict is False, one memo serving all |
| ProofSearch.ProvesSound | scripts/check_test_assertions.py:209-244 | True verdicts, stored ones included, always have a call chain to a direct proof |
| ProofSearch.ProvesCut | scripts/check_test_assertions.py:209-244 | False verdicts mean no chain avoids the functions being visited |
| ProofSearch.FreshQueryExact | scripts/check_test_assertions.py:209-244 | With an empty memo the verdict is True exactly when a chain exists, on every graph |
| ProofSearch.TrueVerdictsSound | scripts/check_test_assertions.py:286-295 | Whatever was asked before, a test that passes has a chain |
| ProofSearch.ExactIffNoTrap | scripts/check_test_assertions.py:209-244 | With the shared memo every verdict on every function is exact, in every order of calls and queries, exactly when no call path seals off its last function |
| ProofSearch.ExactForRoots | scripts/check_test_assertions.py:286-295 | Asked about some functions alone, the tests, verdicts are exact in every order when no such path starts at one of them, and are not when some test has chains that all pass through the end of such a path |
| ProofSearch.AcyclicIsExact | scripts/check_test_assertions.py:209-244 | On acyclic helper graphs every verdict is exact |
| ProofSearch.SharedMemoCanLie | scripts/check_test_assertions.py:291-295 | A cyclic file where a test with a chain is reported because of an earlier query |
| Reachability.ReachableFromMeasuredTiers | scripts/check_coverage_exemptions.py:175-201 | Terminates, and returns the files of the least module set holding the tests' imports and closed under the imports of resolved modules, whatever order the frontier is popped in |
| Reachability.LeastClosedIsReachable | scripts/check_coverage_exemptions.py:184-200 | That set is what import chains from the tests reach |
| ChunkPlan.MakeChunkPlan | contextplane/service/retrieval/embedding_drain.py:178-221 | Computes the specified plan, from the window and stride clamped as in the source |
| ChunkPlan.ReadWindows | contextplane/service/retrieval/embedding_drain.py:209-221 | The loop reads exactly the specified windows and stops at the first to reach the end |
| ChunkPlan.PlanIsNumbered | contextplane/service/retrieval/embedding_drain.py:205-221 | Every body, the empty one too, has at least one chunk, and the chunks are numbered from 0 |
| ChunkPlan.EveryWordIsEmbedded | contextplane/service/retrieval/embedding_drain.py:193-221 | Whatever window and stride are asked for, every word stands in some chunk, no chunk is wider than the cap, and a chunk's text splits back into its words |
| ChunkPlan.OneChunkExactly | contextplane/service/retrieval/embedding_drain.py:185-186 | A body is one chunk exactly when its words fit the window |
| Backfill.PlannedFactsAreValid | scripts/backfill_embeddings.py:176-184 | Facts planned by make_chunk_plan and embedded one vector per text are facts as the loop's results assume them |
| Backfill.InsertSettles | scripts/backfill_embeddings.py:184-220 | Inserting a fact's chunks embeds it completely, without duplicates, whatever a crashed run left, and touches no other fact |
| Backfill.PageIsInHand | scripts/backfill_embeddings.py:138-171 | A page holds the first unembedded facts past the cursor, and every fact it skips is settled |
| Backfill.ScheduleSound | scripts/backfill_embeddings.py:121-233 | Under every schedule of starts, steps and crashes, every fact at or below the saved cursor is settled and no row is duplicated |
| Backfill.NormalExitIsComplete | scripts/backfill_embeddings.py:121-233 | On a normal exit every fact is embedded, except the null ID, which is embedded exactly when it was before |
| Backfill.NullFactUntouched | scripts/backfill_embeddings.py:107-114 | No schedule ever touches the rows of the fact with the null ID |
| Backfill.BackfillScript.InsertChunks | scripts/backfill_embeddings.py:184-220 | The per-chunk conditional inserts give the specified rows |
| Backfill.BackfillScript.WorkThroughPage | scripts/backfill_embeddings.py:174-228 | One page keeps the invariant and moves the cursor to its last fact |
| Backfill.BackfillScript.RunBackfill | scripts/backfill_embeddings.py:121-233 | From whatever a crash leaves, one undisturbed run terminates with every fact past the null ID settled; the count is that of the unembedded facts past the loaded cursor, and those are the facts newly embedded |
| Backfill.WorkedCount | scripts/backfill_embeddings.py:174-225 | Working the pending facts off newly embeds all of them and nothing else, so the two counts agree |
| Cursor.DecodeEveryForm | contextplane/pagination.py:92-100 | Every byte sequence comes back from its token in either alphabet, padded or not |
| Cursor.TokenIsUrlSafe | contextplane/pagination.py:67-68 | A token holds only letters, digits, '-' and '_' |
| Cursor.TokenIsInjective | contextplane/pagination.py:60-68 | Different bytes have different tokens, and only no bytes have the empty token |
| Cursor.CursorRoundTrip | contextplane/pagination.py:60-106 | Decoding an encoded cursor, new or legacy, strict or not, gives the payload back |
| Cursor.AsciiStreamsCoincide | contextplane/pagination.py:27-32 | For ASCII payloads the standard and URL-safe texts are the same exactly when no byte 3E, 3F, 7E or 7F stands at an offset of 2 modulo 3 |
| Cursor.AsciiIsNotEnough | contextplane/pagination.py:27-32 | An ASCII JSON text whose two encodings differ |
| Cursor.RefusedByLength | contextplane/pagination.py:95-106 | A token of alphabet characters alone is refused exactly when its length is 1 modulo 4 |
| Delta.SourceDeltaManifest | scripts/lifecycle_measurement.py:423-438 | The index loop reads exactly the specified entries and sorts them by path; a short record is refused |
| Delta.EntriesOfRendered | scripts/lifecycle_measurement.py:424-437 | Reading the printed records gives their entries in order; a path beginning with ':' or holding spaces is never taken for a record |
| Delta.ManifestRoundTrip | scripts/lifecycle_measurement.py:423-438 | For distinct NUL-free paths the manifest is exactly those entries by ascending path |
| Delta.ManifestIgnoresOrder | scripts/lifecycle_measurement.py:438 | The manifest is the same whatever order the records come in |
| Delta.ClassifyDelta | scripts/lifecycle_measurement.py:464-490 | The loop puts each path in the list of its category, and each list is sorted |
| Delta.EveryPathInOneList | scripts/lifecycle_measurement.py:474-484 | A path stands in the list of its own category as often as it changed, and in no other list |
| Delta.OutcomeConsistencyFailures | scripts/lifecycle_measurement.py:493-524 | Which failures are reported, and that none is exactly when the label is consistent |
| Delta.LabelPassesExactly | scripts/lifecycle_measurement.py:464-524 | After classification, reverted passes exactly when every changed path is measurement-only; retained exactly when none is out of scope and one is not measurement-only |
| Comparison.ValidateSides | scripts/lifecycle_measurement.py:619-682 | The checks are made in order and the first failing one decides the error; otherwise both sides come back by run index |
| Comparison.AcceptedExactly | scripts/lifecycle_measurement.py:619-682 | Validation accepts exactly: two commits, run indexes 1 to n once per side on its commit, the wanted modules in every run, one provenance throughout |
| Comparison.ValidationIgnoresOrder | scripts/lifecycle_measurement.py:642-644 | An accepted collection of runs is accepted in every order, with the same sides |
| Bundles.ValidatedIsSettled | scripts/lifecycle_measurement.py:642-644 | What validation returns has each side's runs by ascending index |
| Bundles.RevertedForAReason | scripts/lifecycle_measurement.py:560-578 | An outcome is reverted exactly when there is a refusal reason |
| Bundles.LoadOfWritten | scripts/lifecycle_measurement.py:725-759 | Loading a written comparison gives it with its runs rounded, and the recorded checksum is that of both |
| Bundles.LoadedIsFixedPoint | scripts/lifecycle_measurement.py:725-759 | Writing and loading the loaded comparison changes nothing, checksum included |
| Bundles.OutcomeCanFlip | scripts/lifecycle_measurement.py:560-564 | A reverted comparison whose rounded runs are retained |
| Bundles.RunIsNear | scripts/lifecycle_measurement.py:305-314 | At every worker count the critical path of a run moves by at most three roundings per module |
| Bundles.DecidedExactly | scripts/lifecycle_measurement.py:546-564 | A condition on the figures and gates alone that holds exactly when all figures within the margin have the same outcome |
| Bundles.DecidedOutcomeSurvives | scripts/lifecycle_measurement.py:546-564 | At every worker count the figures move by at most the rounding of three timings per module, so under that condition the outcome survives the bundle |
| Bundles.LicensedLabelPasses | scripts/lifecycle_measurement.py:493-564 | The label the figures license passes the check on the classified delta exactly when a cleared change touches something in scope and nothing beyond it, and a refused one nothing but the measurement |
| Grammar.CsvAccepts | contextplane/config_grammar.py:27-31 | A parsed list holds only stripped, non-empty, comma-free items |
| Grammar.CsvRoundTrip | contextplane/config_grammar.py:27-31 | Every list of such items is what its printed form parses to |
| Grammar.ParseOperatorAllowlist | contextplane/config_grammar.py:34-69 | The loop reads every piece and the first malformed one refuses the variable |
| Grammar.OperatorsRoundTrip | contextplane/config_grammar.py:50-69 | The lists the variable can set are exactly those of clean non-empty pairs, each the parse of its own printed form |
| Grammar.ParseRoleMapping | contextplane/config_grammar.py:217-240 | The loop computes the specified mapping or the first missing delimiter |
| Grammar.RolesLastWins | contextplane/config_grammar.py:227-240 | Printing any pairs and parsing them keeps the last value of every key and no other key |
| Grammar.RolesRoundTrip | contextplane/config_grammar.py:227-240 | A parsed mapping comes back from its printed form, in whatever order its items are printed |
| Grammar.ParseExtractionExtraHeaders | contextplane/config_grammar.py:92-150 | The loop with its set of seen names accepts and refuses exactly as specified, naming the piece |
| Grammar.HeadersAccept | contextplane/config_grammar.py:92-150 | Accepted headers have token names, distinct with case folded, none owned by the transport or the auth header, and printable non-empty values |
| Grammar.HeadersRoundTrip | contextplane/config_grammar.py:92-150 | The header lists the variable can set are exactly the well-formed ones, each the parse of its own printed form |

## Left out

- Floating point: seconds are exact reals; only the explicit rounding to four and two places is kept, as an idempotent function.
- Backfill.ScheduleSound: a crash while the cursor file is written leaves it absent or complete; a cursor file cut in the middle of a UUID is not modelled.
- ProofSearch.ExactForRoots: between its two conditions lie the files whose tests pass each sealed function by some chain and are misjudged only if several sealed functions are remembered at once; which of those are misjudged is not characterised.
- Broker.RefusedControlStillWorks: the marker directory is touched by brokers alone, never by hand.
- Evidence.ManifestNeverLies: other programs leave the temporary file, the manifest and, once sealing has begun, the named files alone; a directory sync that fails after the rename, and a writer that goes on after it, are not modelled; the checksums of `finalize` are taken in one step; names are not normalised, so `./manifest.json` is not the manifest.
- Real SHA-256, HMAC, JSON, Git, AST and socket code, file modes beyond the control's, fsync ordering and process killing.
- `canonical_payload`, `issue`, `present_control` and the wire format of `BrokerServer`, including its reply to a malformed request.
- `_resolve_helper`, `_build_index` and the AST walk: the proof search starts from a call graph with a direct-proof flag per function.
- Module resolution and import extraction of the coverage gate: reachability starts from which file a module resolves to and what it imports.
- The secret scan of evidence payloads is a boolean parameter.
- `HistoryKey`, the refusal of negative durations when a history is built, `grace_seconds`, `elapsed` and `smallest_eligible`: single lookups.
- The text of error messages, and evidence dictionaries other than the comparison bundle.
- `build_comparison`'s cohort file and its digest check, and the optional extra keys of a bundle.
- `_resolve_extraction_base_url`, `_resolve_extraction_auth_template` and `_resolve_embedding_provider`: straight-line checks.
- The service itself, its settings, database engines, schedulers and the remaining gates.
