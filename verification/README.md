# Verified models of the Trikaal evaluation scripts

Trikaal's scripts forecast crypto bars, score the forecasts and keep the data lake they rest on. This
project models the parts of them that promise something for every input or every interleaving, and proves
those promises, or proves exactly when they hold. Where the original changes state step by step the model does
too: locked regions are steps of a state machine, caches are objects that grow in place, token and label arrays
are filled chunk by chunk. Each such method is tied to a function or predicate of its inputs, and the promises
are lemmas about that.

| area | modules |
|---|---|
| dashboard run protocol | `RunProtocol` (state machine, locked regions), `RunTheorems` (all interleavings) |
| dashboard upload | `ByteStrings`, `Decimal`, `Multipart` (the reader), `MultipartTheorems`, `UploadForm`, `UploadRoundTrip` |
| dashboard word wrap | `WordWrap` |
| context fill and rollout | `Transformer` (the network), `PrefillTheorems`, `AttentionLaws` (what attention and a fill are), `ContextFill` (caches in place), `Rollout` |
| segments and labels | `Segments`, `ForwardReturns` |
| frozen token stream | `TokenStream`, `NeededBars` |
| break-even cost | `RealAlgebra`, `Renetting`, `BreakEven` |
| clip scan | `Floats`, `Normalization`, `ClipScan` |
| lake compaction | `CompactLake` |
| universe ingest | `SubsetSelection`, `IngestBooks` (what is listed, in flight, staged, held), `IngestLog` (what a run leaves behind, in order), `IngestCauses` (why a symbol is built or fails), `IngestRun` |
| id grids | `GridTable` |
| canary | `Canary` |

Reals stand for floats where rounding is not the point. Where not-a-number or an infinity is the point (labels,
z-scores, validation losses), `Floats` adds them with the comparisons of IEEE 754 and Python's `max` and `min`.
Weights, encoders, hashes, square roots, clocks, disks and downloads are arbitrary functions or arbitrary
choices, so every statement is about all of them. Several proofs hide products behind names
(`RealAlgebra.Times`, `RealAlgebra.Over`); these are ordinary multiplication and division.

## What the code does that its documentation does not say

Each of these is a lemma or a method's contract below, with the exact condition.

- A job of the dashboard can end with a result and an error: the watchdog decides on a snapshot and delivers
  later, and `_fail` looks at `error` only. Once a success is written this can still happen exactly when the
  watchdog has its verdict in hand at that moment (`RunTheorems.BothExactlyByLateVerdict`,
  `BothNeedsAVerdictInHand`, `BothIsReachable`).
- The watchdog is there to fail a stuck job instead of letting it hang forever. If the worker hangs, it does so
  exactly when the last entry of the trace is open; a worker that hangs before its first entry or between two
  stages is never failed (`RunTheorems.HungJobIsFailedExactly`, `NothingOpenNothingHappens`).
- The upload reader splits at `--boundary` wherever it stands, while the delimiter of RFC 2046 section 5.1.1
  begins with a line break; a file survives exactly when it does not hold those bytes at all
  (`UploadRoundTrip.BodySurvivesExactly`, `InnerDashesCutTheFile`). A field is also routed by its file's name
  (`UploadForm.RoutingExact`). A file's name with a semicolon, which browsers send as it is, is cut there; any
  other comes back (`UploadForm.NameSurvivesExactly`, `SemicolonCutsTheName`). A parameter after `boundary=`
  becomes part of the boundary, so the boundary comes back exactly when no parameter follows it
  (`UploadRoundTrip.BoundaryNeedsTheLastPlace`, `CharsetJoinsTheBoundary`).
- `_wrap` with a budget of zero or less never ends on a non-empty word (`WordWrap.NoBudgetNoEnd`).
- `forward_returns` says it reads only bars after `t`. Its prefix sums read the segment from its start, so a
  non-finite value there destroys labels it is no input of (`ForwardReturns.LabelIsMeantExactly`,
  `EditsKeepLabelExactly`).
- `segment_bounds` of the feature script gives one empty range for an empty lake, the library's gives none
  (`Segments.ScriptBoundsAreMaximal`).
- `root_of_ir` gives no number for a one-period series, whatever its return (`BreakEven.RootOfIr`). The
  discrimination check fails on a healthy series that has an entry opposite to the perturbation
  (`BreakEven.MovesExactly`, `CancelledEntryFailsTheCheck`), and the identity check does not depend on the claimed
  cost except through the bracket (`BreakEven.TheClaimedCostIsNotChecked`).
- The poisoning claim has one exception under the old clip: minus infinity on the first bar of a segment makes
  its second bar read the upper clip, if that bar is live. The warm-up floors in the configuration keep it from
  being live (`Normalization.PoisonReachesTheEnd`).
- The compaction gate sees neither the segment ids and other unhashed columns, nor rows of another frequency,
  nor symbols outside the ledger (`CompactLake.OtherColumnsAreNotCovered`, `UnreadRowsAreNotCovered`).
- `select_subset` can leave the byte budget twice: before its exchange exactly when the smallest symbol alone is
  above it (`SubsetSelection.GreedyStaysInBudget`), and by its exchange exactly when the difference does not fit
  (`SubsetSelection.ExchangeWeighs`, `ExchangeCanBreakTheBudget`). A negative symbol bound with a delisted symbol
  is an IndexError (`SubsetSelection.NoPlanIsANegativeBound`).
- A bound of zero selects as no bound does (`SubsetSelection.ZeroIsNoBound`), but the exit gate takes it for a
  bound: exit zero guarantees a green sweep of both classes exactly when neither bound was given
  (`IngestRun.ZeroBoundLosesTheGuarantee`). A second run over a finished universe exits zero without any sweep
  under a bound of zero, and exits with a failure without a bound, since it has nothing left to sweep
  (`IngestRun.SecondRun`).
- A planned symbol is built or reported as failed by a run that is not aborted exactly when it has a month to
  download (`IngestRun.Orchestrator.Run`, `SymbolWithoutMonths`).
- The orchestrator says that no path can delete an unrecorded symbol's raw. Two paths do, both for a symbol that
  has failed: its staged months go with it and its late downloads after it. A month's raw is deleted without a
  record exactly when its symbol failed (`IngestLog.FateOfRaw`, `IngestRun.StagedMonthIsDropped`).
- "The last 5,000 steps" of the canary's extension clause are exactly 5,000 only when the evaluation interval
  divides 5,000 (`Canary.CapSpan`), and its clause about a complete schedule never decides anything
  (`Canary.DecideOnTrainedCells`).

## Model

| member | source | states |
|---|---|---|
| RunProtocol.Job.constructor | scripts/m6_csv_dashboard.py:531-548 | a job starts with an empty trace and no outcome |
| RunProtocol.Job.Emit | scripts/m6_csv_dashboard.py:569-586 | one locked emit: a finished job is left alone, a running stage of the same name is completed in place, anything else is appended |
| RunProtocol.Job.Fail | scripts/m6_csv_dashboard.py:733-753 | one locked failure: the first wins, the running stage is relabelled or a failing one appended, and the job is done |
| RunProtocol.Job.Commit | scripts/m6_csv_dashboard.py:685-704 | one locked commit: nothing after an error, result and done together otherwise |
| RunProtocol.Job.Snapshot | scripts/m6_csv_dashboard.py:605-613 | what the watchdog decides from one look: leave, keep watching, or fire with the stage and the age it saw |
| RunProtocol.WorkMovesLock | scripts/m6_csv_dashboard.py:631-641 | a worker's step takes the run lock only when it is free and frees it only from inside the region |
| RunProtocol.StepKeepsLock | scripts/m6_csv_dashboard.py:631-706 | every step of every thread keeps: at most one worker in the region, and the lock held exactly while one is |
| RunProtocol.StepKeepsInv | scripts/m6_csv_dashboard.py:569-753 | every step of every thread keeps the whole invariant of jobs, threads and lock |
| RunTheorems.ReachableStates | scripts/m6_csv_dashboard.py:594-710 | the invariant holds after every interleaving from an empty server |
| RunTheorems.RunsAreSticky | scripts/m6_csv_dashboard.py:578-590 | over every interleaving done never reverts, the first error is final and freezes result and trace, the trace never shrinks and a closed entry stays at its index |
| RunTheorems.EmitRespectsDone | scripts/m6_csv_dashboard.py:578-586 | no emit changes a finished job; on an open one the emitted entry is last, in place of the last entry exactly when that was running the same stage, and everything before is untouched |
| RunTheorems.FailClosesTheTrace | scripts/m6_csv_dashboard.py:733-753 | a first failure leaves a failing entry last, the running one or a new one named after its kind; a second failure changes nothing |
| RunTheorems.OutcomeOfEveryRun | scripts/m6_csv_dashboard.py:685-753 | done exactly when there is a result or an error, the trace is in time order although stamps are taken outside the lock, no thread of a job ends before its outcome, a time-out verdict is never early |
| RunTheorems.CommittedStays | scripts/m6_csv_dashboard.py:685-704 | what the worker commits on an error-free job is the job's result after every continuation |
| RunTheorems.ResultWasCommitted | scripts/m6_csv_dashboard.py:685-704 | over every run a job's result is a text its own worker committed on the way |
| RunTheorems.ThrownVerdictIsTheError | scripts/m6_csv_dashboard.py:642-710 | a verdict thrown in the region is, unchanged, the error of the job, unless a time-out came first |
| RunTheorems.ErrorWasThrown | scripts/m6_csv_dashboard.py:637-710 | over every run an error other than a time-out was thrown by the job's own worker, or its worker gave up the queue |
| RunTheorems.ReportReachesTheTrace | scripts/m6_csv_dashboard.py:569-586 | what a forecast reports is last in the trace with the time of the report, however long the lock is busy in between |
| RunTheorems.QueueIsOneEntry | scripts/m6_csv_dashboard.py:631-641 | a wait for the model is one entry of the trace, completed in place; the worker may give up exactly when ten minutes have passed |
| RunTheorems.WatchdogsLeave | scripts/m6_csv_dashboard.py:605-608 | the watchdog of a finished job leaves at its next turn and touches nothing |
| RunTheorems.VerdictsAreDelivered | scripts/m6_csv_dashboard.py:605-621 | over every interleaving a verdict once decided is in hand unchanged, and delivering it leaves the job with an error, or it has been delivered and the job has one |
| RunTheorems.OverdueStageIsFailed | scripts/m6_csv_dashboard.py:594-621 | a stage open for the budget or longer ends its job in two turns of the watchdog, with its name and age |
| RunTheorems.NothingOpenNothingHappens | scripts/m6_csv_dashboard.py:608-613 | a job with no open entry whose worker takes no step stays as it is over every interleaving |
| RunTheorems.HungJobIsFailedExactly | scripts/m6_csv_dashboard.py:594-621 | when its worker hangs an unfinished job can get an error if and only if its last entry is open |
| RunTheorems.StepToBoth | scripts/m6_csv_dashboard.py:605-621 | the only step that gives a job both outcomes is a verdict delivered after the commit |
| RunTheorems.BothExactlyByLateVerdict | scripts/m6_csv_dashboard.py:605-621 | a job ends with both a result and an error if and only if a late verdict was delivered somewhere along the run |
| RunTheorems.BothNeedsAVerdictInHand | scripts/m6_csv_dashboard.py:605-704 | after a success is written, some continuation gives the job an error too if and only if the watchdog is between its snapshot and its verdict at the commit |
| RunTheorems.BothIsReachable | scripts/m6_csv_dashboard.py:594-704 | an interleaving from an empty server that ends with both |
| RunTheorems.OneForecastAtATime | scripts/m6_csv_dashboard.py:565-706 | over every interleaving at most one worker forecasts, the lock is held exactly while one does, each worker takes it at most once and gives it back exactly once |
| RunTheorems.OnlyTheHolderReleases | scripts/m6_csv_dashboard.py:642-706 | every exit from the region frees the lock through the one release, by its holder, for the first time |
| RunTheorems.GivingUpNeverReleases | scripts/m6_csv_dashboard.py:637-641 | a worker that timed out in the queue neither holds nor frees the lock, then or ever after |
| RunTheorems.PastStaysPast | scripts/m6_csv_dashboard.py:706-710 | a worker past the region never touches the lock again |
| RunTheorems.WorkersAreNeverStuck | scripts/m6_csv_dashboard.py:631-710 | a live worker lacks an enabled step exactly while it queues for a held lock within its patience |
| RunTheorems.QueuedJobsAlwaysEnd | scripts/m6_csv_dashboard.py:635-641 | an orphaned holder cannot silence the queue: a waiter past its patience is past the region for good, and ends its job in two steps of its own |
| ByteStrings.FindSpec | scripts/m6_csv_dashboard.py:1563-1566 | the search finds the leftmost occurrence, or there is none |
| ByteStrings.SplitAs | scripts/m6_csv_dashboard.py:1563 | splitting cuts at the leftmost separator and goes on with the rest |
| ByteStrings.SplitAcross | scripts/m6_csv_dashboard.py:1563 | a separator without line breaks never straddles one, so splitting a text of sections is splitting the sections |
| Decimal.IntRoundTrip | scripts/m6_csv_dashboard.py:1592 | a number written in decimal reads back up to the interpreter's digit limit, and not beyond it |
| Decimal.NumbersAre | scripts/m6_csv_dashboard.py:1592 | of a trimmed text: a sign and a run of digits up to the limit is a number with the value of its digits, nothing else is |
| Multipart.RefusedExactly | scripts/m6_csv_dashboard.py:1555-1561 | refused above 64 MiB, and below exactly when the content type lacks one of its two marks |
| Multipart.OnlyTheLengthIsRead | scripts/m6_csv_dashboard.py:1554-1558 | nothing after the announced length is read |
| Multipart.NothingIsDefaults | scripts/m6_csv_dashboard.py:1559 | a form without any part gives the default name, an empty text and the default horizon |
| Multipart.ReadUpload | scripts/m6_csv_dashboard.py:1552-1595 | the reader as it loops computes the reading function: size limit, form check, defaults, every part in order |
| Multipart.ReadAll | scripts/m6_csv_dashboard.py:1559-1595 | the loop over the parts, with the three variables it updates |
| Multipart.ReadOne | scripts/m6_csv_dashboard.py:1564-1594 | one part: skipped without a blank line, else value and headers routed |
| Multipart.OpenPart | scripts/m6_csv_dashboard.py:1564-1571 | first blank line, exactly one trailing line break dropped |
| Multipart.FindDisposition | scripts/m6_csv_dashboard.py:1578-1582 | the first Content-Disposition line, in any letter case |
| Multipart.FindFileName | scripts/m6_csv_dashboard.py:1585-1589 | the last non-empty file name among the tokens |
| Multipart.KeepField | scripts/m6_csv_dashboard.py:1583-1594 | the csv field sets text and name, the h field the horizon or its default, others nothing |
| Multipart.RoutedSpec | scripts/m6_csv_dashboard.py:1583-1590 | a field is recognised exactly by the characters of its name pair anywhere in the header |
| MultipartTheorems.SectionContains | scripts/m6_csv_dashboard.py:1563 | a section holds the delimiter exactly when a header or the body does |
| MultipartTheorems.SectionIsRead | scripts/m6_csv_dashboard.py:1564-1594 | one encoded section is read as its headers and its body, byte for byte |
| MultipartTheorems.FormRoundTrip | scripts/m6_csv_dashboard.py:1552-1595 | any form of any number of well-formed fields that avoid the delimiter is read as what it means, or refused for its size |
| UploadForm.RoutingExact | scripts/m6_csv_dashboard.py:1583 | a field with a file is recognised as v exactly when its name or its file name is v |
| UploadForm.PlainRoutingExact | scripts/m6_csv_dashboard.py:1590 | a field without a file is recognised exactly by its own name |
| UploadForm.FileNameIsRead | scripts/m6_csv_dashboard.py:1585-1589 | the file name comes back whole, or the name before it when it is empty |
| UploadForm.NameSurvivesExactly | scripts/m6_csv_dashboard.py:1585-1589 | the name of a file comes back if and only if there is one and it has no semicolon |
| UploadForm.SemicolonCutsTheName | scripts/m6_csv_dashboard.py:1585-1589 | with a semicolon the part before it comes back instead |
| UploadRoundTrip.BoundaryTakesTheRest | scripts/m6_csv_dashboard.py:1562 | everything after boundary= is the boundary, less outer space and quotes |
| UploadRoundTrip.BoundaryIsRead | scripts/m6_csv_dashboard.py:1562 | a boundary comes back from the header, bare or quoted |
| UploadRoundTrip.BoundaryNeedsTheLastPlace | scripts/m6_csv_dashboard.py:1562 | after any earlier parameters and with optional space after it, the boundary comes back if and only if no further parameter follows |
| UploadRoundTrip.CharsetJoinsTheBoundary | scripts/m6_csv_dashboard.py:1562 | a header on which the boundary read is not the client's |
| UploadRoundTrip.HorizonIsClean | scripts/m6_csv_dashboard.py:1562-1563 | the horizon field never holds a delimiter |
| UploadRoundTrip.PageRoundTrip | scripts/m6_csv_dashboard.py:1552-1595 | what the page sends comes back: file byte for byte, its name exactly when it has one without a semicolon, the horizon, whatever headers follow Content-Disposition |
| UploadRoundTrip.BodySurvivesExactly | scripts/m6_csv_dashboard.py:1562-1574 | the file comes back if and only if it holds the delimiter characters nowhere |
| UploadRoundTrip.InnerDashesCutTheFile | scripts/m6_csv_dashboard.py:1562-1563 | a file without any RFC delimiter that the reader hands on as another one |
| WordWrap.Wrap | scripts/m6_csv_dashboard.py:133-153 | the loop with its hard splits ends for every positive budget and computes the greedy wrap |
| WordWrap.HardSplitCutsFullLines | scripts/m6_csv_dashboard.py:141-148 | an over-long word finishes the line begun, then fills whole lines with its front; a word that fits is left alone |
| WordWrap.NoBudgetNoEnd | scripts/m6_csv_dashboard.py:143-148 | with a budget of zero or less the guard of the inner loop holds again after every number of passes; from the first pass on what is left is the same slice of the word |
| WordWrap.EveryLineFits | scripts/m6_csv_dashboard.py:133-153 | every line is non-empty and within the budget |
| WordWrap.NothingIsLost | scripts/m6_csv_dashboard.py:133-153 | no character but space is lost, doubled or moved, hard splits included |
| WordWrap.GreedyStaysAhead | scripts/m6_csv_dashboard.py:133-153 | against any order-preserving wrap of the same words the greedy one has no more lines |
| WordWrap.WrapIsFaithfulAndShortest | scripts/m6_csv_dashboard.py:133-153 | when no word is too long, joining gives the same word list back and no wrap has fewer lines |
| AttentionLaws.SdpaIsTheAverage | src/trikaal/model/attention.py:128-129 | attention is the weighted average of the visible values: weighted, they pull away from it in no direction |
| AttentionLaws.AverageStaysInRange | src/trikaal/model/attention.py:128-129 | weights that are not negative keep it between the least and the greatest of them |
| AttentionLaws.BlockIsALayer | src/trikaal/model/block.py:68-71 | a block adds causal attention of the normed bars, and the feed-forward of the normed sum |
| AttentionLaws.ForwardIsAFill | src/trikaal/model/predictor.py:181-200 | the parallel forward is a tower of such layers over the embedded bars, read by the heads at its last bar, with every layer's keys and values in the caches |
| PrefillTheorems.MaskIsPrefix | scripts/m6_decode_profile.py:59 | causal masking of a whole context is attention without a mask over the columns seen so far |
| PrefillTheorems.BlockIsCausal | src/trikaal/model/block.py:68-71 | a block's first n columns depend on the first n columns only |
| PrefillTheorems.BlockStepIsLast | src/trikaal/model/block.py:74-80 | a cached step of a block is the last column of the block over everything, and leaves the cache a whole pass would |
| PrefillTheorems.TrunkStepIsLast | src/trikaal/model/predictor.py:125-136 | the same through any number of blocks |
| PrefillTheorems.StepIsForward | src/trikaal/model/predictor.py:138-165 | one model step after a fill gives the last bar of a parallel forward: hidden state, coarse choice, both logits, all caches |
| PrefillTheorems.ForwardIsCausal | src/trikaal/model/predictor.py:181-200 | the parallel forward of a prefix is the prefix of the parallel forward |
| PrefillTheorems.SteppingIsForward | scripts/m3_stage2_btcusdt.py:159-167 | stepping through any bars after any fill equals the parallel forward bar by bar |
| PrefillTheorems.FillsAgree | scripts/m6_decode_profile.py:63-78 | for any number of blocks and any context the step loop and the single pass leave the same keys and values column by column, and the same outputs |
| PrefillTheorems.RolloutAfterEitherFill | scripts/m6_decode_profile.py:63-78 | continuing after either fill gives the same outputs |
| ContextFill.KvCache.constructor | src/trikaal/model/predictor.py:120-122 | a new cache is empty |
| ContextFill.InitCaches | src/trikaal/model/predictor.py:120-122 | one empty cache object per block, none shared |
| ContextFill.AttentionStep | src/trikaal/model/attention.py:116-131 | one key and one value column appended in place; the output is the heads' weighted averages over all of them |
| ContextFill.RunTrunk | src/trikaal/model/predictor.py:125-136 | the loop over the blocks updates every cache as the pure step does |
| ContextFill.RunStep | src/trikaal/model/predictor.py:138-165 | one model call on caches in place |
| ContextFill.FillContext | src/trikaal/eval/predict.py:158-163 | the step loop ends with the caches and the output of the parallel forward, a tower of attention layers read at its last bar; without a bar there is no output |
| ContextFill.AttentionPrefill | scripts/m6_decode_profile.py:50-60 | keys and values of the whole context written at once; every bar's output is the weighted average of the values up to it |
| ContextFill.BatchedFill | scripts/m6_decode_profile.py:63-78 | the pass over the blocks ends with the caches and the output of the parallel forward, a tower of attention layers read at its last bar |
| Rollout.Roll | scripts/m6_mu_estimator_comparison.py:89-115 | a cached rollout, tokens chosen by argmax or drawn, equals the rollout that runs the whole model again for every bar; the entry bar contributes nothing |
| Rollout.RolloutIsASum | scripts/m6_mu_estimator_comparison.py:94-115 | a rollout is the sum of what its steps from the second on contribute, each context being the one before and the bar chosen from it a minute later |
| Rollout.SampledMean | scripts/m6_mu_estimator_comparison.py:120-136 | the sampled mean averages independent rollouts, each from a fresh fill |
| Segments.ScriptBoundsAreMaximal | scripts/m2_feature_ic.py:79-83 | the difference expression gives the maximal equal-id ranges in order; one empty range on an empty lake |
| Segments.CutsAreChanges | scripts/m2_feature_ic.py:81 | the cuts are exactly the places where the id changes |
| Segments.SegmentBounds | src/trikaal/data/segments.py:34-46 | the library's loop gives the maximal equal-id ranges in order, none on an empty lake |
| Segments.SegmentationIsUnique | src/trikaal/data/segments.py:34-46 | there is only one such partition, so script and library agree |
| ForwardReturns.ForwardReturnLabels | scripts/m2_feature_ic.py:86-117 | bar t is valid exactly when t+h is in its range, and holds the difference of prefix sums, or the next return when h is one |
| ForwardReturns.LabelIsMeantExactly | scripts/m2_feature_ic.py:89-95 | the stored label is the sum of the returns t+2 to t+h if and only if h is one, the segment is finite up to t+1, or that sum is not a number itself |
| ForwardReturns.LabelIgnoresThePast | scripts/m2_feature_ic.py:95 | over finite data a label is unchanged by any edit to bars up to t or after t+h |
| ForwardReturns.LabelIs | scripts/m2_feature_ic.py:102-115 | beyond a horizon of one the stored label is the meant one if the segment is finite up to t+1, and not a number otherwise |
| ForwardReturns.LabelIsASum | scripts/m2_feature_ic.py:89-115 | over finite data the label is the number that the returns t+2 to t+h sum to, or the next return |
| ForwardReturns.EditsKeepLabelExactly | scripts/m2_feature_ic.py:95 | two lakes that agree on the bars of the label have the same label if and only if h is one, both or neither segment are finite up to t+1, or the label is not a number itself |
| ForwardReturns.MissingPastDestroysLabel | scripts/m2_feature_ic.py:102-115 | a missing value before t that is no input of the label and destroys it |
| TokenStream.ChunkRanges | src/trikaal/train/token_stream.py:28-34 | chunks cut the lake in order, start whole windows into a segment, never cross one, and are a window long unless the segment ends |
| TokenStream.ChunkOfLakeIs | src/trikaal/train/token_stream.py:28-34 | a chunk lies in one maximal range of one id, starts a multiple of the window into it and ends a window later or with the range |
| TokenStream.ChunksAreTidy | src/trikaal/train/token_stream.py:29 | chunks are non-empty, at most a window long and apart from each other |
| TokenStream.EveryBarHasAChunk | src/trikaal/train/token_stream.py:28-34 | every bar lies in a chunk |
| TokenStream.WriteChunk | scripts/m6_h_sweep.py:341-347 | one slice assignment: the chunk's tokens, nothing else touched |
| TokenStream.WriteChunks | scripts/m6_h_sweep.py:331-347 | full windows in batches, then the tails: every given chunk written, everything else as before |
| TokenStream.TokenizeFeatures | src/trikaal/train/token_stream.py:38-82 | the full stream holds the encoder's tokens of every chunk |
| TokenStream.TokenizeNeeded | scripts/m6_h_sweep.py:293-348 | the restricted stream holds them on the chunks somebody needs, and -1 everywhere else |
| NeededBars.SearchSorted | src/trikaal/eval/xsection.py:184 | the first place whose stamp is not below the instant |
| NeededBars.DecisionsAre | src/trikaal/eval/xsection.py:176-190 | a decision is exactly a bar on the grid with enough history and a label bar in range |
| NeededBars.ArangeHolds | src/trikaal/eval/xsection.py:156-161 | the grid holds exactly the instants of its block at whole strides from its start |
| NeededBars.DecisionsOfBlock | src/trikaal/eval/xsection.py:156-190 | a decision of a block is exactly a bar with history and label bar, a whole number of horizons of minutes after the block's start and before its end |
| NeededBars.EveryHorizonIsCovered | scripts/m6_h_sweep.py:354-356 | every decision of every horizon is a decision of the one-bar grid |
| NeededBars.NeededBarMask | scripts/m6_h_sweep.py:351-374 | the mask marks exactly the bars from a context before a block's first one-bar decision to its last |
| NeededBars.ContextIsNeeded | scripts/m6_h_sweep.py:354-356 | every bar of every context of every decision of every horizon is marked |
| NeededBars.ChunksAreUnique | scripts/m6_h_sweep.py:308-311 | segments and window determine the chunks, so both tokenizers use the same ones |
| NeededBars.RestrictedRefinesFull | scripts/m6_h_sweep.py:305-311 | on every bar the full stream holds its chunk, and the restricted stream has the same tokens or, where no bar of the chunk is needed, a hole |
| NeededBars.OnChunk | scripts/m6_h_sweep.py:331-347 | a stream that holds a chunk has at each bar the tokens the encoder gives it in that chunk; a chunk is kept exactly when one of its bars is needed |
| NeededBars.ReadersSeeTheFullStream | scripts/m6_h_sweep.py:305-320 | no reader of any horizon meets a hole or a token that differs from the full stream's |
| Renetting.VarianceIsMoments | src/trikaal/eval/metrics.py:33 | the population variance is the mean square less the squared mean |
| Renetting.RenettedMean | scripts/m6_horizon_break_even.py:51-57 | the re-netted mean is the activity times the distance of the cost from the mean gross return |
| Renetting.RenettedVariance | scripts/m6_horizon_break_even.py:101-106 | the re-netted variance is a scatter no cost enters plus what the flat periods add |
| Renetting.SignOfIr | scripts/m6_horizon_break_even.py:57-62 | the ratio has the sign of the mean gross return less the cost, so it vanishes exactly there |
| Renetting.FlatSeriesHasNoEdge | scripts/m6_horizon_break_even.py:181-190 | without an active period the ratio is zero at every cost |
| Renetting.RatioIs | src/trikaal/eval/metrics.py:24-36 | the ratio times the deviation with its floor is the mean times the root of the periods of a year |
| Renetting.IrFallsWithCost | scripts/m6_horizon_break_even.py:101-103 | with positions fixed the ratio strictly falls as the cost rises |
| Renetting.CauchySchwarz | scripts/m6_horizon_break_even.py:104-106 | the squared sum is at most the number of non-zero terms times the sum of squares |
| Renetting.BoundIsAFraction | scripts/m6_horizon_break_even.py:251-254 | the bound is the squared ratio as a fraction of itself and the periods of a year: below one, zero only at zero |
| Renetting.BoundRises | scripts/m6_horizon_break_even.py:251-254 | the bound rises with the size of the ratio |
| Renetting.ActivityBound | scripts/m6_horizon_break_even.py:104-106 | on every series of two periods or more the activity is at least the bound from its ratio; multiplied out, activity times (periods + squared ratio) is at least the squared ratio |
| BreakEven.RootOfIr | scripts/m6_horizon_break_even.py:193-205 | a root is reported if and only if there are two periods, an active one, and a mean gross return strictly inside the bracket; it is then within half of the last bracket |
| BreakEven.WidthIs | scripts/m6_horizon_break_even.py:196-205 | after k halvings the bracket is 0.1 over two to the k |
| BreakEven.WidthIsTiny | scripts/m6_horizon_break_even.py:211-220 | three hundred halvings are far below the agreement tolerance |
| BreakEven.VerifyIdentity | scripts/m6_horizon_break_even.py:211-220 | the check agrees if and only if there is a root to report, which is then within half the last bracket of the mean gross return |
| BreakEven.TheClaimedCostIsNotChecked | scripts/m6_horizon_break_even.py:66-74 | claiming another cost moves both sides alike, so only leaving the bracket can make the check fail |
| BreakEven.PerturbedMean | scripts/m6_horizon_break_even.py:223-232 | how far the mean gross return of the perturbed series really moves |
| BreakEven.MovesExactly | scripts/m6_horizon_break_even.py:226-227 | it moves by exactly the perturbation if and only if no active entry is cancelled or what is left sums to nothing |
| BreakEven.VerifyIdentityDiscriminates | scripts/m6_horizon_break_even.py:223-246 | when each of the three verdicts holds, the third up to half the last bracket of the bisection; it follows from the first two |
| BreakEven.NothingCancelledNoSlip | scripts/m6_horizon_break_even.py:223-246 | without a cancelled entry the mean moves as expected |
| BreakEven.CancelledEntryFailsTheCheck | scripts/m6_horizon_break_even.py:229-240 | a measurable series on which the check fails although nothing is wrong |
| Normalization.CausalZscore | src/trikaal/data/normalize.py:72-90 | the loop emits zero in warm-up and the clipped score from the statistics before the bar after it |
| Normalization.RecursionIsTheVariance | src/trikaal/data/normalize.py:85-89 | the incremental recursion is the exponentially weighted mean, and the weighted mean square less its square, which is never negative: the clamp at zero never acts |
| Normalization.ScoreIsTheDeviation | src/trikaal/data/normalize.py:83-84 | over finite data a live bar's score is its distance from the weighted mean before it in units of the root of the weighted variance and 1e-8 |
| Normalization.ClipsToFive | src/trikaal/data/normalize.py:108-110 | a finite score is kept between -5 and 5 |
| Normalization.ScoresAreCausal | src/trikaal/data/normalize.py:3-5 | the score of a bar is the same in every series that agrees up to it |
| Normalization.PoisonStays | scripts/m6_clip_nan_scan.py:12-15 | nothing cures a poisoned state |
| Normalization.PoisonReachesTheEnd | scripts/m6_clip_nan_scan.py:11-15 | under the old clip every live bar after the first non-finite one reads the lower clip, with the one exception spelled out |
| Normalization.NaNCoversTheTail | scripts/m6_clip_nan_scan.py:11-17 | not-a-number makes every live bar from its own on read the lower clip |
| Normalization.TripwireIsExact | src/trikaal/data/normalize.py:93-110 | under the propagating clip the finiteness check fails if and only if a non-finite input has a live bar at or after it |
| Normalization.OldClipNeverTrips | src/trikaal/data/normalize.py:96-103 | under the old clip the finiteness check can never fail |
| ClipScan.SameIsland | scripts/m6_clip_nan_scan.py:113-127 | two hits get one group key exactly when only hits lie between them |
| ClipScan.IslandIsTheRun | scripts/m6_clip_nan_scan.py:113-127 | the group of a hit is exactly the maximal run around it, and its size the run's length |
| ClipScan.LongestRun | scripts/m6_clip_nan_scan.py:99-106 | the direct scan finds the longest run |
| ClipScan.LargestIslandIsTheLongestRun | scripts/m6_clip_nan_scan.py:113-134 | the query's first row is the longest run, and there is no row exactly when there is no hit |
| ClipScan.RunIsAtMostTheCount | scripts/m6_clip_nan_scan.py:138-150 | a run never exceeds the count of hits and equals it exactly when the hits are one block |
| ClipScan.FilteredTwiceCounts | scripts/m6_clip_nan_scan.py:101-106 | numbering both over the filtered rows collapses a segment into one group of the size of the count, right exactly for one block |
| ClipScan.TrailingIsTheSuffix | scripts/m6_clip_nan_scan.py:66-79 | the trailing query keeps exactly the maximal suffix of hits |
| ClipScan.PoisonedTailIsReported | scripts/m6_clip_nan_scan.py:11-20 | a segment with not-a-number at bar i is reported with every bar from there on past the warm-up |
| CompactLake.ReadsAgree | scripts/compact_lake.py:6-10 | whatever the files and the order of ties, the hash sees one sequence if rows of one opening time look alike to it |
| CompactLake.BarsAreColumns | scripts/compact_lake.py:68-73 | the hash sees two reads as one exactly when they agree bar by bar in opening time, features and mask |
| CompactLake.SomeReadExists | src/trikaal/data/lake.py:91-96 | every lake can be read in order, whatever its ties |
| CompactLake.TiesComeBackEitherWay | scripts/compact_lake.py:6-10 | and only then: otherwise the same lake can be read as two different sequences |
| CompactLake.Compact | scripts/compact_lake.py:46-65 | no row is lost, added or changed; one file per symbol, frequency and month, each row in its own |
| CompactLake.SamePartSameMonth | scripts/compact_lake.py:54-62 | two rows go into one file exactly when symbol, frequency, year and month agree |
| CompactLake.LastBuiltIsLast | scripts/compact_lake.py:36-43 | the hash kept for a symbol is of a build after which the ledger records no other; none exactly when it records none |
| CompactLake.LedgerHashes | scripts/compact_lake.py:36-43 | the last build of each symbol wins, other events and blank lines are skipped |
| CompactLake.Gate | scripts/compact_lake.py:97-123 | passes if and only if no ledger symbol mismatches and the seal over the sorted ledger is the expected one; the mismatches and the bar total it prints |
| CompactLake.NoMismatchMeansSameBars | scripts/compact_lake.py:97-108 | with an injective hash a symbol matches exactly when its opening times, features and masks read back as recorded |
| CompactLake.PassesExactly | scripts/compact_lake.py:97-123 | with an injective hash the gate passes exactly when that is so for every ledger symbol and the seal is the expected one |
| CompactLake.OneReadRecordsTheLake | scripts/compact_lake.py:68-73 | a ledger written from one read holds for every read of the same lake |
| CompactLake.CompactedLakePasses | scripts/compact_lake.py:1-11 | ledger written from the day files, rewritten, read back in any order: no symbol mismatches, if rows of one opening time look alike, as distinct times do |
| CompactLake.UnreadRowsAreNotCovered | src/trikaal/data/lake.py:91-96 | rows of another frequency, of a symbol outside the ledger or outside the time range do not reach the gate |
| CompactLake.ReadRowsAreCovered | src/trikaal/data/lake.py:91-96 | every other row does: with one more or less of it no read stays as it was |
| CompactLake.OtherColumnsAreNotCovered | scripts/compact_lake.py:68-73 | changing an unhashed column anywhere leaves what the hash sees as it was |
| SubsetSelection.BySizeSorts | scripts/m4b_universe_ingest.py:116 | the sorted list is an ascending rearrangement |
| SubsetSelection.BySizeIsStable | scripts/m4b_universe_ingest.py:116 | candidates of one size stay in the order of the plan |
| SubsetSelection.SelectSubset | scripts/m4b_universe_ingest.py:112-132 | the plan is a greedy prefix by size, its last replaced by the smallest delisted symbol if it has none; no plan when there is nothing to replace |
| SubsetSelection.ZeroIsNoBound | scripts/m4b_universe_ingest.py:118-122 | on every list a bound of zero gives the plans that no bound gives |
| SubsetSelection.TakeSmallest | scripts/m4b_universe_ingest.py:117-126 | the loop takes candidates in size order up to the first place where the count or the budget stops it, the first one whatever its size |
| SubsetSelection.ExchangeLast | scripts/m4b_universe_ingest.py:127-132 | a delisted symbol goes into the last place exactly when there is one and none was taken |
| SubsetSelection.GreedyTakesTheMost | scripts/m4b_universe_ingest.py:112-126 | no choice within both limits takes more symbols |
| SubsetSelection.GreedyStaysInCount | scripts/m4b_universe_ingest.py:121-122 | a positive symbol bound is kept, under a negative one nothing is taken |
| SubsetSelection.GreedyStaysInBudget | scripts/m4b_universe_ingest.py:118-126 | the prefix is within the budget exactly when its first symbol is |
| SubsetSelection.ExchangeKeepsThePlan | scripts/m4b_universe_ingest.py:127-132 | after the exchange as many symbols as before, all different, all live, a delisted one exactly when there is one |
| SubsetSelection.NoPlanIsANegativeBound | scripts/m4b_universe_ingest.py:121-131 | there is no plan exactly when a negative bound meets a delisted symbol |
| SubsetSelection.ExchangeTakesTheSmallest | scripts/m4b_universe_ingest.py:127-131 | what the exchange brings in is a smallest delisted symbol |
| SubsetSelection.ExchangeWeighs | scripts/m4b_universe_ingest.py:127-131 | what the exchange adds to the total, never less than nothing; the plan is in the budget if and only if that fits too |
| SubsetSelection.ExchangeCanBreakTheBudget | scripts/m4b_universe_ingest.py:127-131 | a budget the prefix keeps and the exchanged plan breaks |
| IngestBooks.SubmittedKeeps | src/trikaal/data/ingest_orchestrator.py:254-268 | submitting keeps every month in one place and the counter equal to the bytes reserved and held |
| IngestBooks.ReceivedKeeps | src/trikaal/data/ingest_orchestrator.py:295-301 | a download swaps its reservation for its real bytes and its month from flight to staged |
| IngestBooks.DownloadFailedKeeps | src/trikaal/data/ingest_orchestrator.py:320-342 | a failed download releases its reservation and everything its symbol holds, once |
| IngestBooks.BuildFailedKeeps | src/trikaal/data/ingest_orchestrator.py:320-342 | a failed build releases everything its symbol holds and no reservation twice |
| IngestBooks.RecordedKeeps | src/trikaal/data/ingest_orchestrator.py:303-310 | recording and evicting releases exactly the symbol's bytes |
| IngestBooks.NothingLeftNothingHeld | src/trikaal/data/ingest_orchestrator.py:241-365 | when nothing is left to do every planned symbol with a month is built or failed, and no byte is held or counted |
| IngestCauses.BuiltExactly | src/trikaal/data/ingest_orchestrator.py:303-336 | of the settled symbols exactly those are built whose months all arrived, that have a stream and a build that does not raise, and whose class was swept by then |
| IngestRun.AbortMeansNever | src/trikaal/data/ingest_orchestrator.py:132-166 | a download is refused for good exactly when not even an emptied cache would admit it |
| IngestRun.FirstBooks | src/trikaal/data/ingest_orchestrator.py:243-244 | the first list holds every month of every symbol not yet built, once |
| IngestLog.LogOneMore | src/trikaal/data/ingest_orchestrator.py:16-21 | an event with what it needs before it keeps the log in order: sweep, lake, ledger, eviction; failure, deletion |
| IngestLog.RecordedIsSwept | scripts/m4b_universe_ingest.py:305-343 | a recorded symbol has a green sweep of its class before it: tail if it was delisted before the window ends, live otherwise |
| IngestLog.DeletionsHaveReasons | src/trikaal/data/ingest_orchestrator.py:16-21 | every deletion of raw has its symbol's record before it or, without a record, its symbol's failure |
| IngestLog.FateOfRaw | src/trikaal/data/ingest_orchestrator.py:286-336 | a month fetched is evicted if and only if its symbol is built, deleted without a record if and only if its symbol failed, and staged otherwise |
| IngestRun.Orchestrator.constructor | src/trikaal/data/ingest_orchestrator.py:221-229 | a new run is in order, with what the ledger held already |
| IngestRun.Orchestrator.RunSweep | scripts/m4b_universe_ingest.py:305-326 | a sweep is recorded, and fatal unless passed with full coverage and at least one check |
| IngestRun.Orchestrator.Finalize | scripts/m4b_universe_ingest.py:328-354 | it succeeds if and only if there is a stream, its class is swept already or now by a green sweep, and the build does not raise; it is fatal if and only if the sweep it runs is not green |
| IngestRun.Orchestrator.SubmitMore | src/trikaal/data/ingest_orchestrator.py:254-268 | downloads are submitted while the governor admits them, so a reservation never takes the cache past its cap; it stops only with nothing left, all slots taken, or the governor's wait, and aborts only on the governor's abort |
| IngestRun.Orchestrator.Consume | src/trikaal/data/ingest_orchestrator.py:284-342 | one ended download: the new books and log of a failed, late or staged one; everything that holds between events holds again unless fatal |
| IngestRun.Orchestrator.Stage | src/trikaal/data/ingest_orchestrator.py:297-301 | the reservation becomes real bytes, the month is staged and its file logged |
| IngestRun.Orchestrator.DropLate | src/trikaal/data/ingest_orchestrator.py:287-296 | a late month of a failed symbol is deleted and its reservation released |
| IngestRun.Orchestrator.Fail | src/trikaal/data/ingest_orchestrator.py:317-336 | a failed symbol loses its staged raw, its bytes and its remaining downloads |
| IngestRun.Orchestrator.Complete | src/trikaal/data/ingest_orchestrator.py:303-319 | the symbol is built if and only if its finalization succeeds, failed if it raises, and on a fatal sweep the books are as they were: nothing recorded, nothing deleted |
| IngestRun.Orchestrator.Settle | src/trikaal/data/ingest_orchestrator.py:303-336 | recorded and evicted, failed, or the end of the run, as the build went |
| IngestRun.Orchestrator.Record | src/trikaal/data/ingest_orchestrator.py:305-308 | recorded, then evicted, in this order and nothing between |
| IngestRun.Orchestrator.Run | src/trikaal/data/ingest_orchestrator.py:241-365 | with downloads ending in any order and grouping: a run that is not aborted has only green sweeps, built or failed a planned symbol if and only if it has a month, built it if and only if all its months arrived, it has a stream, a build that does not raise and a swept class, and ends with the counter at zero; it is aborted only by a red sweep or the governor |
| IngestRun.RunToExit | scripts/m4b_universe_ingest.py:413-433 | exit zero if and only if there was no abort and, on an unbounded run, both classes were swept, then green; unless aborted, a planned symbol is built or failed if and only if it has a month, and built exactly as its outcomes decide; every symbol built has its class's green sweep before it and every month fetched its fate, whatever the exit |
| IngestRun.ZeroBoundLosesTheGuarantee | scripts/m4b_universe_ingest.py:427-432 | exit zero guarantees a green sweep of both classes if and only if neither bound was given |
| IngestRun.RunOfNothing | scripts/m4b_universe_ingest.py:413-433 | over any plan with nothing to download: nothing built, failed or swept, and the exit code says only whether a bound was given |
| IngestRun.SymbolWithoutMonths | src/trikaal/data/ingest_orchestrator.py:243-244 | a successful run that neither builds nor reports its one symbol |
| IngestRun.SecondRun | scripts/m4b_universe_ingest.py:427-432 | one finished universe, run again: success under a bound of zero without a sweep, failure without a bound |
| IngestRun.StagedMonthIsDropped | src/trikaal/data/ingest_orchestrator.py:326-331 | a run that deletes a month whose symbol was never recorded |
| GridTable.PeelColumn | scripts/m6_mu_estimator_comparison.py:57-60 | one turn of the column loop: the digits of one column, what is left of every id, no other column touched |
| GridTable.GroupGridTable | scripts/m6_mu_estimator_comparison.py:51-68 | the loop from the last column gives every id its digits dequantized, for both quantizers |
| GridTable.DigitsAddUp | scripts/m6_mu_estimator_comparison.py:57-60 | an id is what is left of it times the radices plus its digits |
| GridTable.FlattenInvertsDigits | src/trikaal/tokenizer/fsq.py:33-38 | nothing is left over and flattening gives the id back, both exactly below the product of the radices |
| GridTable.DigitsInvertFlatten | src/trikaal/tokenizer/fsq.py:33-38 | a flattened code is below the product and its digits are the code |
| GridTable.LevelsAre | scripts/m6_mu_estimator_comparison.py:61-67 | BSQ levels are minus and plus one over the root; FSQ levels are whole steps centred on zero |
| GridTable.RowsAreDistinct | scripts/m6_mu_estimator_comparison.py:61-67 | distinct ids have distinct rows, on FSQ and BSQ grids |
| Canary.BestIsTheMinimum | scripts/m6_canary.py:578-640 | the running best is the least loss so far, not-a-number aside, and never not-a-number |
| Canary.SpikeIsARise | scripts/m6_canary.py:624-625 | a spike is exactly a loss above some earlier one by more than the margin |
| Canary.EntriesAre | scripts/m6_canary.py:590-613 | an entry for every whole interval of steps, with its step, loss and correlation |
| Canary.SpikesAreListed | scripts/m6_canary.py:614-625 | listed are exactly the losses more than the margin above some earlier one, each with its step, its loss and the least loss before it |
| Canary.SpikesInOrder | scripts/m6_canary.py:614-625 | the spikes stand in the order of their steps, once each |
| Canary.ArAttempt | scripts/m6_canary.py:555-647 | an attempt has an entry for every interval of steps and lists exactly its spikes; if it is to abort it ends exactly at the first |
| Canary.TrainCell | scripts/m6_canary.py:649-658 | one attempt exactly when the first is calm, else two; the first cut at its first spike, the last complete and never aborted |
| Canary.CrossStep | scripts/m6_canary.py:965-971 | the step of the first two consecutive crossings, if there are any |
| Canary.CorrsOfProbed | scripts/m6_canary.py:965-970 | when every entry is probed the reported step belongs to the crossing |
| Canary.DetectionIs | scripts/m6_canary.py:965-981 | detection in numbers: two probed correlations in a row at 0.3 or more, a final loss more than 0.1 below the noise cell's |
| Canary.FullStopIs | scripts/m6_canary.py:974-982 | the full stop in numbers |
| Canary.DescentIs | scripts/m6_canary.py:953-959 | descending at the cap in numbers: the last loss more than 0.05 below the one before the span |
| Canary.NeverBoth | scripts/m6_canary.py:981-982 | detection and full stop never hold together |
| Canary.Stage1Decision | scripts/m6_canary.py:962-998 | each branch is reported exactly when its own clause holds, with the step of the first two consecutive crossings |
| Canary.DecideOnTrainedCells | scripts/m6_canary.py:649-998 | on trained cells the schedule clause is always true and drops out of the full stop; without an evaluation the verdict is inconclusive |
| Canary.CapSpan | scripts/m6_canary.py:953-959 | the span compared at the cap: whole intervals, at most 5,000 steps unless one interval is more, exactly 5,000 when the interval divides it |

## Left out

- Rounding, overflow and the ULP differences of GPU kernels: reals and exact attention throughout; the batch
  dimension, dropout and the maximal length of the rotary table are not modelled.
- `_JOBS`, forgetting and listing jobs, the export file, HTTP, SVG and disclosures of the dashboard; a failing
  `print` after an emit, which could leave the region between taking the run lock and entering it.
- RunProtocol.Job.Commit: the result is one text, not the dictionary the page receives.
- Multipart.ReadUpload: UTF-8 replacement, quoting and escapes in file names, a negative or non-numeric
  Content-Length, and non-ASCII digits or space in the horizon are not modelled; bytes are characters.
- UploadRoundTrip.PageRoundTrip: file names are free of quotes and line breaks, which a browser escapes.
- Canary.ArAttempt: losses are recorded unrounded; the original rounds them to four digits in its records. The
  training step and its non-finite loss error are not modelled.
- Normalization.CausalZscore: the rolling-window estimator and the two planted leaks are not modelled; the
  poisoning argument is about the exponentially weighted one.
- ClipScan.LargestIslandIsTheLongestRun: one segment at a time, rows in time order; the choice of the worst symbol,
  segment and dimension, and the report around it, are not modelled.
- CompactLake.Compact: Parquet, compression and reading files are not modelled; a lake is its rows. The manual swap
  of directories is not modelled.
- IngestRun.Orchestrator.SubmitMore: the governor's eviction plan is not modelled, because nothing is evictable when
  it is asked, and the free disk is looked at once per decision; a month listed twice for a symbol is excluded.
- IngestRun.Orchestrator.Record: recording and evicting never raise; in the original an error of the file system
  while a recorded symbol's raw is unlinked would put a built symbol among the failed.
- WordWrap.Wrap: words are separated by ASCII space; `str.split()` also splits on the space of Unicode.
- The feature pipeline, the causal sweep itself, the manifest, and everything that talks to a network, a disk or a
  database: arbitrary outcomes, or not part of this model.
- Rollout.Roll: softmax, draws and decoding are arbitrary functions of the model's output.
- `implied_break_even`, `required_horizon_for_fee`, intervals, bootstraps and information coefficients: labelled as
  inference by the scripts themselves, or statistics of a library.
- Receipts, audits, index assembly, cost extrapolations and set-comparison gates are not modelled: each is a
  comparison or a formula without state, which its own body says in full.
