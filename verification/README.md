# Verification of the evaluation, review and control core

This project models the parts of the repository whose correctness is hardest to
see by reading one function, and proves what they promise. Every module follows
one source file or one protocol.

- **Sealed re-runs** (`bounded_log`, `rerun_evidence`, `rerun_engine`,
  `rerun_agreement`, `rerun_completion`, `rerun_limits`, `rerun_outcome`,
  `rerun_tampering`, `rerun_status`, `rerun_reading`, `rerun_lock`,
  `rerun_concurrency`). The engine writes evidence step by step into a create-only
  directory. Three readers look at that directory independently: the report validator, the directory validator and
  the inspector behind the release review. The main results say that the producer
  and all readers agree on every run, that a report tells exactly what the processes did,
  that an accepted directory proves its report and no longer passes once a file of it is
  changed, that the inspector reads every listing for what it is, that no evidence is
  lost under concurrent callers, and that `technical_passed` means six passes.
- **The human review ledger** (`review_ledger`, `review_rules`, `review_progress`,
  `review_evidence`, `evidence_meaning`, `review_service`, `review_refusals`,
  `review_integrity`, `review_list`). Transactions interleave and
  their reads may be stale, so only the unique indexes protect the table. The main
  results: revisions stay 1..n, a submission takes effect exactly once, each command is
  refused for exactly the stated reasons, the summary and the exported evidence are the
  meaning of the history, and the evidence always satisfies its own validator, in
  whatever order the rows arrive.
- **The recommend-only controller** (`policy_candidate`, `recommendation`,
  `recommendation_outcome`). Each anomaly gets exactly the decision that series, gate and
  policy call for. Weight moves between copied slices within bounds and is conserved; repeated candidates
  end at the exploration floor; the store accepts what the builder builds; repeated
  batches add nothing.
- **Token budgets and summaries** (`tokens`, `summary`). The greedy truncation is
  compared with an independent search from the other end, and the flag-guarded
  summariser covers the history exactly once.
- **Create-once sealing** (`seal`, `seal_meaning`, `seal_race`). What is built passes the validator,
  what is altered does not, and a race to publish has one winner whose report everyone gets.

`text`, `separators`, `sequences`, `options` and `integers` hold what the services take
from Go and its libraries: trimming, byte order, sorting, joining, rearranged sequences
and 64-bit integers.

## How it is modelled

Objects the source updates in place are classes (the bounded writer, the run
directory, the ledger, the report held by reference, the store, the summary memory,
the copied policy slices); their methods are proved against specification
functions, and the results are proved about those functions. Concurrent callers are
state machines over atomic steps: creating the lock, reading, inserting, renaming,
taking the flag. Stale reads see any earlier prefix of the append-only table.

Hashing, JSON encoding and time stamps are function values in a `Codec`. Its
predicate `Good` asks only for digests of 64 characters and for decoding to undo
encoding (in the review modules also for hex digests, and decimals and JSON without
NUL); `WellPrinted` describes the run-id time stamp up to the year 10000, and
`Economical` bounds what indented JSON adds to a report. Collision freedom is never
assumed in general; the few lemmas that need it name the two texts that must not
collide. Strings are sequences of code points, so the length checks on digests are those
of ASCII text.

Integers are 64 bits wide where that can show: the start of a listed page, the revision
after the expected one, and the duration of a step, which a Duration clamps. Elsewhere
they are unbounded: weights of a validated policy are within 1..10000, and no group of
reviews, text or file comes near 2^63.

## What the proofs found

- The start of a listed page wraps: page 922337203685477581 of size 20 panics, and the
  next one shows entries again (`LargePagePanics`, `LargePageShowsAgain`); `PageIsExact`
  says when a page is the one asked for.
- A plan whose document is larger than the 2 MiB the directory validator reads runs to
  its end and is then refused (`LongGuardrailIsRefused`); with a clock that never runs
  backwards that is the only way the two disagree, and it can be told before the run
  (`AgreementIsKnownBeforehand`). A sealed report over 1 MiB would be refused as well
  (`LongDatasetVersionIsRefused`), though the review table's column of 64 characters
  keeps dataset versions short.
- When a rule already lists eight strategies and its fallback is not among them, an
  otherwise eligible reduction ends in an error and no decision is recorded
  (`FullRuleIsRefused`); `AnswersExactly` gives the exact condition.
- Joining the parts of a recommendation id with `|` makes it ambiguous exactly for
  identities with a `|` in some part (`SharedIffBarred`), and a second decision with the
  same text is lost as a duplicate (`SharedIdLosesADecision`). What the detector reports
  holds a `|` in the policy version at most, and there ids do tell identities apart
  (`ProductionIdsDecide`).
- Reconcile refuses an empty rules version but lets a blank one through, and every
  examined series then fails (`BlankRulesVersionStoresNothing`).
- The evidence validator does not count: a snapshot that calls rejected reviews approvals
  and is hashed again is accepted, even as ready for sealing (`CountsAreNotChecked`,
  `ReadyDespiteRejections`). What the service exports counts correctly
  (`ExportedCountsAreTrue`).
- The summary is cut for the whole budget but the working messages for what the
  prompt and the summary leave of it, so messages can be in neither
  (`FirstMessageInNeither`, exact condition in `NothingFallsBetween`).
- A repeated submission whose first read is stale is answered with a conflict or a
  database error rather than with its row (`StaleRepeatsAreReached`); it never creates
  a second one (`RepeatedSubmitReturnsTheRow`).

## Model

| member | source | states |
|---|---|---|
| `BoundedLog.BoundedWriter.Write` | internal/catalogrerun/service.go:801-829 | One write moves the state exactly as specified for every payload, allowance and reply of the underlying writer, short writes and errors included |
| `BoundedLog.KeepsExactlyThePrefix` | internal/catalogrerun/service.go:801-829 | Any sequence of writes stores exactly the first min(total, limit) bytes of all payloads and sets the flag iff the total exceeds the limit |
| `BoundedLog.ReportsFullLength` | internal/catalogrerun/service.go:807-829 | Over a willing writer every call reports its full length |
| `BoundedLog.NeverOutgrowsLimit` | internal/catalogrerun/service.go:807-829 | Whatever the underlying writer does, what is stored and what is left add up to the allowance |
| `RerunEvidence.ValidateReport` | internal/catalogrerun/service.go:357-420 | Accepts a report iff header, status shape, the fixed step order with status-specific exit codes, distinct output paths over all steps, status/step agreement and self-hash hold |
| `RerunEvidence.CheckSteps` | internal/catalogrerun/service.go:377-410 | The step loop with its shared set of seen outputs and two flags decides exactly the quantified conditions on steps and which failures occurred |
| `RerunEvidence.CheckEvidence` | internal/catalogrerun/service.go:439-459 | Every log and recorded output hashes and measures as reported, and the file names the steps may own are collected exactly |
| `RerunEvidence.CheckCheckpoints` | internal/catalogrerun/service.go:460-468 | Exactly the expected checkpoint indexes are read and each holds a legal prefix of the report |
| `RerunEvidence.CheckEntries` | internal/catalogrerun/service.go:469-480 | No entry is a link, a directory (as a nested output makes one) or an unexpected name |
| `RerunEvidence.ValidateRunDirectory` | internal/catalogrerun/service.go:425-482 | Returns a report iff it, the plan, the evidence, the checkpoints and the directory listing all agree, and then that report |
| `RerunEngine.RunDirectory.Create` | internal/catalogrerun/service.go:782-799 | A file is created iff its name is free, and an existing file is never rewritten |
| `RerunEngine.RunDirectory.CollectOutputs` | internal/catalogrerun/service.go:667-682 | The declared outputs up to the first missing or empty one; sorted by path when all are there |
| `RerunEngine.RunDirectory.RunStep` | internal/catalogrerun/service.go:298-339 | One step through two bounded logs, the process, output collection and the exit-code decision, log creation failures included |
| `RerunEngine.RunDirectory.FinishReport` | internal/catalogrerun/service.go:341-355 | The last checkpoint and the result file are written before the report is judged; either file existing stops it |
| `RerunEngine.RunDirectory.ExecuteIn` | internal/catalogrerun/service.go:257-296 | The mutable run refines its recursive specification: plan file, checkpoint 0, steps with their checkpoints, stop at the first failed step |
| `RerunEngine.SealDirectory.Execute` | internal/catalogrerun/service.go:220-296 | A busy or existing run changes nothing, the lock is gone afterwards, the new run directory is the only one added and no other run is in the frame |
| `RerunAgreement.ProducerAndValidatorAgree` | internal/catalogrerun/service.go:220-355 | For every valid plan, confined executor and clock the run reaches its result file, and the independent directory validator returns the very report Execute returned, iff Execute returned one and the documents fit the readers' size limits |
| `RerunAgreement.CheckpointTrail` | internal/catalogrerun/service.go:268-287 | Every returned run leaves exactly the expected checkpoints, running checkpoint k holding the first k step results, with a gap before the last checkpoint iff a step failed |
| `RerunAgreement.ReturnedReportIsValid` | internal/catalogrerun/service.go:341-355 | Execute returns only reports that pass the validator and carry its own run and plan |
| `RerunAgreement.LoopIsLegal` | internal/catalogrerun/service.go:268-296 | From any legal trail the step loop ends with exactly the allowed files, whichever step fails |
| `RerunAgreement.StepKeepsTrail` | internal/catalogrerun/service.go:298-339 | A step adds its own logs and outputs and leaves every earlier log, output and checkpoint as it was |
| `RerunAgreement.StepReportsItsLogs` | internal/catalogrerun/service.go:298-339 | A finished step reports hash and size of exactly the first bytes each log was given, and a cut iff there were more; its milliseconds round down |
| `RerunAgreement.CheckpointKeepsTrail` | internal/catalogrerun/service.go:655-665 | The next checkpoint name is always free and saving it keeps the trail |
| `RerunAgreement.RunningCheckpointMatches` | internal/catalogrerun/service.go:611-624 | A running checkpoint read back is the prefix the validator wants iff it is within the reader's size limit |
| `RerunAgreement.CheckpointsMatch` | internal/catalogrerun/service.go:599-624 | All expected checkpoints are accepted iff all stored reports fit the size limit |
| `RerunAgreement.LegalEndAccepted` | internal/catalogrerun/service.go:425-482 | A legally ended directory is accepted iff its report is valid and its documents fit |
| `RerunLimits.AgreementIsKnownBeforehand` | internal/catalogrerun/service.go:425-437 | For every valid plan, confined executor and clock that never runs backwards Execute returns a report, and the directory validator returns that same report iff the plan's own document is within two mebibytes |
| `RerunLimits.RunReportsFit` | internal/catalogrerun/service.go:460-467 | Every report a run stores is within the validator's limit, release ids being at most 64 KiB |
| `RerunLimits.OversizedPlanIsRefused` | internal/catalogrerun/service.go:434-437 | A valid plan with a larger document runs to its end and its directory is then refused |
| `RerunLimits.LongGuardrailIsRefused` | internal/catalogrerun/service.go:513-533 | Such a plan: any valid one with one more guardrail of over two mebibytes, hashed again |
| `RerunConcurrency.ExecuteAlone` | internal/catalogrerun/service.go:231-296 | Execute with nobody in between is a sequence of the interleaved machine's actions: refused, name taken, or locked, filled and left |
| `RerunConcurrency.InterleavedRunIsAccepted` | internal/catalogrerun/service.go:231-296 | In any interleaving a caller that has put the files of its run leaves a directory the validator answers as it would the run alone |
| `RerunCompletion.EveryRunReturnsAReport` | internal/catalogrerun/service.go:220-355 | Under a clock that never runs backwards no confined run gets stuck or is rejected by its own validator |
| `RerunCompletion.FinalReportValid` | internal/catalogrerun/service.go:341-420 | Sound step results always make a report that passes ValidateReport, failed, gate-failed or passed |
| `RerunCompletion.PathsDistinct` | internal/catalogrerun/service.go:484-511 | Outputs of different fixed steps never share a path |
| `RerunOutcome.ReportTellsTheRun` | internal/catalogrerun/service.go:268-355 | The report of any run tells what its processes did: step k is failed iff its logs did not close, its exit code is not allowed or an output is missing or empty, else passed iff the code is 0; the run stops at the first failed step or after six; outputs, times and the verdict likewise |
| `RerunOutcome.DisallowedExitStopsTheRun` | internal/catalogrerun/service.go:269-276 | Under a clock that never runs backwards the first step with a code it is not allowed ends the run there: k + 1 steps, failed, naming that step |
| `RerunOutcome.StepIsTold` | internal/catalogrerun/service.go:298-339 | One step's verdict, times and recorded outputs in terms of its process alone, whatever earlier steps left |
| `RerunOutcome.GateFailuresAreForeseen` | internal/catalogrerun/service.go:484-511 | A gate failure is reported only for rag with code 1 or unified with code 2, a pass only with code 0 |
| `RerunOutcome.PlansRunSpelled` | internal/catalogrerun/service.go:201-218 | A plan that runs is unaltered since it was hashed, its environment is in place, and its six steps and their exit codes are the fixed ones |
| `RerunTampering.AcceptanceProves` | internal/catalogrerun/service.go:425-482 | Whatever a directory holds: if it is accepted then its name, its coherent report, its sound plan, every checkpoint as the run then stood, every log and recorded output by length and digest, and the list of its files are as the report says |
| `RerunTampering.TamperedFileIsRefused` | internal/catalogrerun/service.go:439-459 | A log or recorded output replaced by bytes of another length or digest is refused |
| `RerunTampering.MissingFileIsRefused` | internal/catalogrerun/service.go:425-468 | Without the plan, the result, an expected checkpoint, a log or a recorded output, or with a link in its place, the directory is refused |
| `RerunTampering.ForeignFileIsRefused` | internal/catalogrerun/service.go:469-480 | A file with no place under report and plan, or anything that is not a regular file, is refused |
| `RerunTampering.RewrittenResultIsRefused` | internal/catalogrerun/service.go:460-468 | A result file that holds any other report, hashed anew or not, is refused because the last checkpoint disagrees |
| `RerunTampering.ValidIsCoherent` | internal/catalogrerun/service.go:357-420 | A valid report is coherent in all its fields: fixed steps, exit codes, outputs of no two steps alike, verdict and failed step, own hash |
| `RerunStatus.Inspector.CollectRunNames` | internal/catalogrerun/status.go:61-70 | The listing is read completely iff every entry is the lock or a run directory |
| `RerunStatus.Inspector.Status` | internal/catalogrerun/status.go:32-108 | Every branch of the inspector refines one classification of the seal's directory |
| `RerunStatus.InspectorSatisfiesReview` | controller/evaluation/g10_review.go:364-430 | Every status the inspector returns is accepted by the review, and the progress built from it passes the review's re-run block |
| `RerunStatus.TechnicalPassedMeansSixPasses` | internal/catalogrerun/status.go:89-108 | technical_passed is reached only from a report of the six fixed steps in order, all passed with exit code 0; only then can the baseline guard hold |
| `RerunStatus.LatestIsARun` | internal/catalogrerun/status.go:61-80 | The name taken as latest is one of the listed runs and no listed run sorts after it |
| `RerunStatus.RunIdIsValid` | internal/catalogrerun/status.go:141-151 | Every run id the engine makes passes the inspector's run-id check |
| `RerunStatus.RunIdOrder` | internal/catalogrerun/service.go:239-240 | One run id sorts before another iff it started earlier, or in the same instant with a smaller plan hash, so the greatest name is the latest run |
| `RerunStatus.StatusReportsTheRun` | internal/catalogrerun/status.go:32-108 | End to end: after a run the inspector's latest is that run and its status is the one the run ended with |
| `RerunStatus.ReviewNamesTheRun` | controller/evaluation/g10_review.go:416-430 | What the review is told after a run carries that run's id, plan, release, own report hash, progress and failed step, and a passed gate iff it passed |
| `RerunReading.LockNamesTheActiveRun` | internal/catalogrerun/status.go:57-75 | Among legal entries a lock file that names a run means that this run is active, with no latest run and nothing verified; one that names none is an error |
| `RerunReading.LatestRunDecides` | internal/catalogrerun/status.go:76-108 | Without a lock the greatest run decides: failed and named without a result, otherwise its accepted report of this seal by status, or an error |
| `RerunReading.NothingMeansNotStarted` | internal/catalogrerun/status.go:43-51 | An absent or empty seal directory reads as not started |
| `RerunReading.UnexpectedEntryIsAnError` | internal/catalogrerun/status.go:62-69 | Any entry but the lock file and run directories is an error, whatever else is there |
| `RerunReading.EveryListingIsRead` | internal/catalogrerun/status.go:32-108 | Every listing with unique names falls under one of these cases |
| `RerunReading.RunIdsSpelled` | internal/catalogrerun/status.go:141-151 | A run id is 'rerun-' and at least eight characters of 0-9, a-f, T, Z, '.' and '-' |
| `RerunReading.SealIdsSpelled` | internal/catalogrerun/status.go:129-139 | A seal id is 'catalog-seal-' and thirty-two lower-case hexadecimal digits |
| `RerunReading.ActiveMeansAtWork` | internal/catalogrerun/status.go:57-75 | In every interleaving of Execute callers: while one is writing the files of a run the inspector names that run as active, and it calls a run active only while a caller holds the lock |
| `RerunReading.AcceptedStatusFinalizes` | controller/evaluation/g10_review.go:364-430 | Any status that passes the review's check gives a progress that passes its finalizer's re-run block |
| `RerunReading.OnlyPassedRunsBind` | controller/evaluation/g10_review.go:571-684 | The review binds a baseline only to a ready candidate and a passed run of six steps with plan, report, release and commit |
| `RerunLock.AtMostOneActive` | internal/catalogrerun/service.go:231-256 | In every interleaving at most one caller is between lock creation and deferred removal |
| `RerunLock.OnlyTheHolderUnlocks` | internal/catalogrerun/service.go:232-252 | Only the caller that created the lock removes it; a refused caller changes nothing |
| `RerunLock.NoEvidenceIsLost` | internal/catalogrerun/service.go:253-260 | No later activity changes a file of a run that has finished |
| `ReviewLedger.Ledger.Append` | internal/catalogreview/repository.go:41-85 | One transaction with stale reads refines the step: replay, key conflict, revision conflict, index failure or exactly one appended row |
| `ReviewLedger.AppendIsFourSteps` | internal/catalogreview/repository.go:48-77 | A transaction run alone is the four interleaved steps in a row |
| `ReviewLedger.StaleCheckIsSafe` | internal/catalogreview/repository.go:61-75 | An insert after a stale revision check either breaks a unique index or takes exactly the next revision |
| `ReviewLedger.LedgerIsSafe` | internal/catalogreview/repository.go:41-85 | After any interleaving of transactions with stale reads the revisions of every group are exactly 1..n, each held once, and the unique indexes hold |
| `ReviewLedger.RowsAreKept` | internal/catalogreview/repository.go:41-85 | No row is ever changed, moved or lost |
| `ReviewLedger.OneWinnerPerRevision` | internal/catalogreview/repository.go:61-75 | Two submissions against the same expected revision never both create a row |
| `ReviewLedger.OneRowPerKey` | internal/catalogreview/repository.go:48-59 | All submissions that succeed under one key return one row with one request hash, created by at most one of them |
| `ReviewLedger.KeyTakenIsFinal` | internal/catalogreview/repository.go:48-77 | Once a key is stored a read that sees it replays or conflicts, and a staler one fails; none creates a row |
| `ReviewLedger.StaleRepeatFailsInTheDatabase` | internal/catalogreview/repository.go:48-77 | An interleaving in which the repeated request, both its reads stale, ends in a database error |
| `ReviewLedger.StaleRepeatFindsTheRevisionTaken` | internal/catalogreview/repository.go:48-77 | An interleaving in which the repeated request, its first read stale, ends in a revision conflict |
| `ReviewLedger.RevisionsAreOneToN` | model/evaluation_catalog_review.go:11-24 | In a contiguous table a revision is held in a group iff it is between 1 and the group's size |
| `ReviewRules.CollectReasons` | internal/catalogreview/service.go:672-689 | The seen-set loop keeps the trimmed, non-blank reasons and refuses exactly when one repeats |
| `ReviewRules.Normalize` | internal/catalogreview/service.go:672-705 | Refines the normal form of reasons for either decision, with every refusal |
| `ReviewRules.NormalFormIsStable` | internal/catalogreview/service.go:672-705 | The normal form is sorted, free of duplicates and blanks, holds the given reasons, and normalizes to itself |
| `ReviewRules.NormalFormForgetsOrder` | internal/catalogreview/service.go:690-705 | Order and spacing of the given reasons do not matter, refusals included |
| `ReviewRules.CandidateContent` | internal/catalogreview/service.go:595-636 | A candidate holds the command's trimmed content for a case listed in the catalog |
| `ReviewRules.SubmittedIsValid` | internal/catalogreview/service.go:733-764 | Whatever Submit builds passes validateReview iff the truncated clock is not the zero time and the next revision does not wrap |
| `ReviewRules.RequestDecidesContent` | internal/catalogreview/service.go:766-772 | Request hashes are equal iff the contents are, short of a collision between the two texts, though the comment may hold the separator |
| `ReviewRules.KeyHashDecidesKey` | internal/catalogreview/service.go:619-621 | Key hashes are equal iff reviewer hash and key are, short of a collision between the two texts |
| `ReviewProgress.EnterCases` | internal/catalogreview/service.go:783-791 | The case loop maps every case to its slice and counts each slice's cases |
| `ReviewProgress.Gather` | internal/catalogreview/service.go:792-815 | The row loop accepts exactly consistent rows and gathers all counts and hash inputs |
| `ReviewProgress.FillPending` | internal/catalogreview/service.go:816-820 | Every slice's pending becomes its total minus its reviewed, in whatever order the map is walked |
| `ReviewProgress.BuildProgress` | internal/catalogreview/service.go:783-823 | Succeeds iff the rows are valid, of this catalog, of their case's slice and one per case, and then returns the summary |
| `ReviewProgress.ListLatestIsAView` | internal/catalogreview/repository.go:22-39 | The latest-revision query returns the rows of highest revision, each once |
| `ReviewProgress.LatestIsLast` | internal/catalogreview/repository.go:22-39 | The row of highest revision of a case is the one appended last |
| `ReviewProgress.LatestViewIsConsistent` | internal/catalogreview/service.go:792-797 | The latest rows of a sound history never make the summary fail |
| `ReviewProgress.ProgressIsTheHistory` | internal/catalogreview/service.go:783-823 | Total and per-slice approved, rejected and pending count the cases by their last decision, for any order of the rows |
| `ReviewProgress.ReadyMeansAllApproved` | internal/catalogreview/service.go:822-822 | Ready iff the last decision on every case is an approval |
| `ReviewProgress.SlicesAddUp` | internal/catalogreview/service.go:783-823 | Added up over the slices in any order the lines give the totals |
| `ReviewEvidence.CheckEntries` | internal/catalogreview/evidence.go:125-154 | The entry loop with its seen set and running maximum accepts exactly strictly ascending, canonical entries |
| `ReviewEvidence.Validate` | internal/catalogreview/evidence.go:109-171 | Accepts a snapshot iff identity, counts, readiness, status, entries, set hash, latest time and, when asked, self-hash hold |
| `ReviewEvidence.Report.Finalize` | internal/catalogreview/evidence.go:93-107 | Through the reference: hash cleared, validated, hashed, validated again; the object ends in exactly the stated value |
| `ReviewEvidence.CollectEntries` | internal/catalogreview/evidence.go:77-88 | Entries follow the rows and the latest time is their running maximum |
| `ReviewEvidence.Export` | internal/catalogreview/evidence.go:47-91 | The whole export refines its specification |
| `ReviewEvidence.BuilderSatisfiesValidator` | internal/catalogreview/evidence.go:47-171 | For any accepted rows of a loaded catalog the export succeeds iff each row keeps its reasons in normal form, and then passes its validator with the hash required |
| `ReviewEvidence.EvidenceForgetsOrder` | internal/catalogreview/evidence.go:89-91 | The exported snapshot is the same in whatever order the rows arrive |
| `ReviewEvidence.ProgressForgetsOrder` | internal/catalogreview/service.go:783-823 | So is the summary |
| `ReviewEvidence.AscendingStep` | internal/catalogreview/evidence.go:137-142 | The order check alone already excludes duplicate cases |
| `EvidenceMeaning.EvidenceTellsTheHistory` | internal/catalogreview/evidence.go:47-107 | An exported snapshot has one entry for every reviewed case, its last review, in order; counts, readiness, last time and own hash are those of the history |
| `EvidenceMeaning.ExportedCountsAreTrue` | internal/catalogreview/evidence.go:47-91 | The counts of an exported snapshot are those of its entries |
| `EvidenceMeaning.ValidEvidenceCoheres` | internal/catalogreview/evidence.go:109-171 | An accepted snapshot is coherent in all its fields: entries, reasons, sums, readiness, status and hashes |
| `EvidenceMeaning.CountsAreNotChecked` | internal/catalogreview/evidence.go:109-171 | Any share of the reviews may be called approvals and the snapshot hashed again: it is accepted; so an accepted snapshot counts its entries iff it says as many approvals as it has |
| `EvidenceMeaning.ReadyDespiteRejections` | internal/catalogreview/evidence.go:109-171 | Such a snapshot of a whole catalog is accepted as ready although its entries hold rejections |
| `ReviewService.Service.Submit` | internal/catalogreview/service.go:581-651 | Screening, loading, candidate, transaction and answer in the source's order; the table and the result are exactly those of the specification |
| `ReviewService.InterleavedSubmissions` | internal/catalogreview/repository.go:41-85 | Every interleaving of submitted candidates leaves a table of valid submissions with contiguous revisions |
| `ReviewService.SubmitKeepsTable` | internal/catalogreview/service.go:581-651 | Every Submit keeps such a table, alters no row and adds at most one |
| `ReviewService.ReadersNeverFail` | internal/catalogreview/service.go:653-670 | On such a table loading, summary and evidence never fail in any row order; the evidence is one and the same, valid, and matches its catalog |
| `ReviewService.SubmitAnswersTheTransaction` | internal/catalogreview/service.go:637-651 | Submit reports exactly what the transaction did; reading back never turns a stored row into an error |
| `ReviewService.RepeatedSubmitReturnsTheRow` | internal/catalogreview/service.go:620-640 | Repeating a request over any later table returns the original row and creates nothing; with a stale first read it fails and still creates nothing |
| `ReviewService.StaleRepeatsAreReached` | internal/catalogreview/service.go:637-640 | On the table of a first review its own repetition is answered in each of the three ways, by what its reads see |
| `ReviewService.ReusedKeyConflicts` | internal/catalogreview/repository.go:48-59 | The same key with other content is always a conflict and creates nothing, short of a hash collision |
| `ReviewService.FreshSubmitCreates` | internal/catalogreview/repository.go:61-77 | With fresh reads a row is created iff the key is new, the expected revision is the current one and the review hash is new |
| `ReviewRefusals.NormalizedExactly` | internal/catalogreview/service.go:672-705 | Reasons normalize iff an approval gives just label_verified, or a rejection gives one to three different ones of the nine; the result holds exactly those given, sorted |
| `ReviewRefusals.ScreenExactly` | internal/catalogreview/service.go:581-603 | A command passes the screening iff reviewer, revision, acknowledgment, key, comment and reasons are as asked, each spelled out |
| `ReviewRefusals.SubmitExactly` | internal/catalogreview/service.go:604-651 | Over any table of submissions: a command that fails the screening, was made from another catalog or governance, names an unlisted case or one that has changed leaves the table alone and is told which; every other command reaches the transaction |
| `ReviewRefusals.NoCatalogNoSubmission` | internal/catalogreview/service.go:600-603 | A catalog that does not load fails every command that passes the screening, and only those |
| `ReviewRefusals.FreshSubmitExactly` | internal/catalogreview/repository.go:41-85 | With fresh reads: a used key replays its own request and refuses another, a wrong expected revision conflicts, a used hash fails, and everything else is appended |
| `ReviewRefusals.SubmitTells` | internal/catalogreview/service.go:637-651 | A receipt tells the table it leaves: its row is there, its reasons are the stored ones, every progress line counts cases by last decision; a created row holds the command |
| `ReviewRefusals.SpoiledRowBlocksSubmission` | internal/catalogreview/service.go:653-670 | One latest row of the reviewer that is not valid makes every submission fail without a change |
| `ReviewIntegrity.AlteredReviewIsRefused` | internal/catalogreview/service.go:733-781 | Under the identifier of a stored review no other row is valid, whichever field is altered, short of a collision between the two texts |
| `ReviewIntegrity.SetHashDecidesReviews` | internal/catalogreview/service.go:783-823 | Two lists of reviews have one set hash iff they hold the same cases under the same review hashes, short of a collision, however the reviews are ordered |
| `ReviewList.Filter` | internal/catalogreview/service.go:531-548 | The filtering loop keeps exactly the selected cases in order, each with its current review |
| `ReviewList.CutPage` | internal/catalogreview/service.go:549-557 | The page is cut with 64-bit wrap-around, and panics exactly when the slice expression is out of range |
| `ReviewList.List` | internal/catalogreview/service.go:495-579 | Query checks, loading, filtering, paging and summary with every error and the slice panic, in the source's order |
| `ReviewList.PageIsExact` | internal/catalogreview/service.go:549-557 | The page shown is the one asked for iff its start does not wrap or wraps beyond the end; it panics iff the wrapped start is negative |
| `ReviewList.PagesPartition` | internal/catalogreview/service.go:549-557 | While (n-1) * size stays below 2^63 the first n pages are the first n * size entries: nothing shown twice, skipped or reordered |
| `ReviewList.LargePagePanics` | controller/evaluation/catalog_review.go:171-180 | Page 922337203685477581 of size 20 panics on every loaded catalog |
| `ReviewList.LargePageShowsAgain` | internal/catalogreview/service.go:549-557 | Page 922337203685477582 of size 20 shows the fifth entry again where nothing was asked for |
| `Integers.WrapIsCongruent` | internal/catalogreview/service.go:549-549 | The wrapped value is the one 64-bit integer that differs by a multiple of 2^64 |
| `ReviewList.FilteredTotalIsTheHistory` | internal/catalogreview/service.go:531-548 | The total of a filter is the number of cases whose last decision it stands for |
| `ReviewList.ListAgreesWithSummary` | internal/catalogreview/service.go:558-579 | The totals listed by decision are the summary's counts |
| `ReviewList.ListTellsTheHistory` | internal/catalogreview/service.go:495-579 | Over a sound history a query is refused iff page, size, status or slice is not one the service knows; what is shown are wanted cases beside their last reviews, and the total is their number |
| `ReviewList.FilteredIsWanted` | internal/catalogreview/service.go:531-548 | The filtered list holds exactly the wanted cases of the catalog |
| `PolicyCandidate.FindActiveRule` | internal/controlrecommendation/controller.go:222-237 | Returns the alphabetically first intent whose rule uses the strategy, or none iff no rule does |
| `PolicyCandidate.CopyRules` | internal/controlrecommendation/controller.go:240-243 | Every rule gets a slice of its own with equal contents |
| `PolicyCandidate.MoveWeight` | internal/controlrecommendation/controller.go:266-273 | The in-place edit, or the append to a longer slice, is the specified edit of the old contents |
| `PolicyCandidate.BuildCandidatePolicy` | internal/controlrecommendation/controller.go:239-279 | Answer and candidate are as specified; the parent's slices keep their contents and the candidate shares none of them |
| `PolicyCandidate.AnswersExactly` | internal/controlrecommendation/controller.go:244-278 | Closed form of every answer on a valid policy: a candidate is created iff the strategy is not its own fallback, is above 500, and its fallback is listed or fewer than eight strategies are |
| `PolicyCandidate.CandidateConserves` | internal/controlrecommendation/controller.go:239-279 | A created candidate moves 1..1000 points to the fallback, leaves at least 500, keeps the total, every other weight, rule and entry, and is a valid policy |
| `PolicyCandidate.RepeatedCandidatesTerminate` | internal/controlrecommendation/controller.go:244-278 | From weight w above 500 exactly ceil((w-500)/1000) candidates follow, ending at 500 with w-500 gained by the fallback; then always the exploration floor |
| `PolicyCandidate.FullRuleIsRefused` | internal/controlrecommendation/controller.go:274-276 | A valid policy with eight strategies and an unlisted fallback: the reduction ends in an error instead of a recorded decision |
| `PolicyCandidate.EditedRuleValid` | internal/policy/weighted.go:34-67 | The edited rule passes policy validation iff it has room for its fallback |
| `Recommendation.BuildDecision` | internal/controlrecommendation/controller.go:143-210 | All errors, blocked reasons and the recommended record, over the policy as it is held in memory |
| `Recommendation.Store.Create` | internal/controlrecommendation/repository.go:21-33 | Rejected, ignored because the primary key is taken, or exactly one row appended |
| `Recommendation.Controller.Reconcile` | internal/controlrecommendation/controller.go:82-135 | A refused batch changes nothing; otherwise counters, failures and table are those of folding the decisions |
| `Recommendation.BuilderSatisfiesStore` | internal/controlrecommendation/repository.go:53-81 | Every decision built, on every blocked reason and recommended, passes the store's validator iff the identity fields are not blank and the clock is set; never applied, and the fallback gains the negated delta |
| `Recommendation.CycleIsSafe` | internal/controlrecommendation/controller.go:96-134 | A cycle alters no row, keeps one row per identity; examined = recommended + blocked + duplicate + failures and the table grows by recommended + blocked |
| `Recommendation.RowsAreNeverAltered` | internal/controlrecommendation/repository.go:21-33 | Over any run of cycles stored rows stay as they are |
| `Recommendation.OneRowPerIdentity` | internal/controlrecommendation/controller.go:167-170 | Over any run each identity has at most one row, whatever batches it came in |
| `Recommendation.RepeatedCycleAddsNothing` | internal/controlrecommendation/controller.go:167-170 | Repeating a cycle under another batch id and any clock adds no row |
| `Recommendation.SharedIffBarred` | internal/controlrecommendation/controller.go:281-284 | An identity shares its text with another one iff one of its eight parts holds the separator |
| `Recommendation.FreeIdentityIsAlone` | internal/controlrecommendation/controller.go:281-284 | An identity free of the separator shares its id with no other, whatever that holds, short of a collision |
| `Recommendation.IdDecidesIdentity` | internal/controlrecommendation/controller.go:281-284 | Ids are equal iff identities are, when both hold the separator in the same one part at most, short of a collision |
| `Recommendation.ProductionIdsDecide` | internal/observability/anomaly.go:307-310 | Decisions on what the detector reports have ids that tell their identities apart, whatever the policy versions hold |
| `Recommendation.SeparatorConfusesIdentities` | internal/controlrecommendation/controller.go:281-284 | A separator moved from one part to the next gives another identity with the same text and id |
| `Recommendation.SharedIdLosesADecision` | internal/controlrecommendation/controller.go:96-134 | Of two series in one batch that share their text one row is stored and one duplicate counted |
| `Recommendation.BlankRulesVersionStoresNothing` | internal/controlrecommendation/controller.go:82-124 | A rules version of white space passes the guard and then every examined series fails and no row is stored |
| `Recommendation.BlankRulesVersionFails` | internal/controlrecommendation/controller.go:82-124 | Such a cycle: one anomalous series under the rules version ' ' gives one failure and an empty table |
| `RecommendationOutcome.DecisionExactly` | internal/controlrecommendation/controller.go:143-210 | On a valid policy: no decision iff series, policy or gate is not eligible or the first rule is full; otherwise blocked with the exact reason and weights, or recommended with step min(1000, share - 500), both weights and the hashed candidate document, always on the given grounds |
| `RecommendationOutcome.NewAnomalyIsStored` | internal/controlrecommendation/controller.go:96-134 | A cycle over one new anomaly stores its decision, recommended iff the baseline is eligible and the first rule that lists the strategy has weight to take; the counters say so |
| `RecommendationOutcome.CountersAreTrue` | internal/controlrecommendation/controller.go:96-134 | Examined is the number of observed anomalies; recommended and blocked are the numbers of rows added of each status |
| `RecommendationOutcome.UnsoundRowIsRejected` | internal/controlrecommendation/repository.go:53-81 | A record that is applied, has other evidence or candidate bytes than hashed, moves more than 1000 or proposes while blocked is rejected |
| `RecommendationOutcome.StoredRowsAreSound` | internal/controlrecommendation/repository.go:53-81 | After any run of cycles under any policies every stored row is sound in this sense |
| `RecommendationOutcome.AlteredWeightIsRefused` | internal/policy/weighted.go:34-67 | A valid rule with one weight altered is not valid |
| `RecommendationOutcome.SharesOfValidRule` | internal/policy/weighted.go:34-67 | In a valid rule every share is at least one and leaves one for each other strategy; alone it is 10000 |
| `Tokens.EstimateTokenCount` | common/aihelper/token.go:21-37 | The counting loop computes two per Han character and one per four others, rounded up |
| `Tokens.EstimateSubadditive` | common/aihelper/token.go:21-37 | Estimates are subadditive under concatenation, within one token |
| `Tokens.EstimateExactly` | common/aihelper/token.go:21-37 | Beyond two tokens for each Han character the estimate is the least number of fours that covers the other characters |
| `Tokens.SmallCosts` | common/aihelper/token.go:40-50 | An empty message costs four tokens, one Han character six, one other character five |
| `Tokens.TruncateByTokenBudget` | common/aihelper/token.go:53-85 | The greedy backward scan returns the suffix an independent forward search calls the longest that fits, or the last message alone |
| `Tokens.LeastFitIsExact` | common/aihelper/token.go:61-71 | A suffix fits iff it is no longer than that one |
| `Tokens.TruncationIsOptimal` | common/aihelper/token.go:53-85 | What is kept fits, or is the last message alone; anything longer does not fit |
| `Tokens.LargerBudgetKeepsMore` | common/aihelper/token.go:53-85 | A larger positive budget never keeps fewer messages |
| `Tokens.LongerHistoryCutsLater` | common/aihelper/token.go:53-85 | As the history grows the cut only moves forward |
| `Summary.SummaryMemory.TrySummarize` | common/aihelper/memory.go:88-133 | Alone: nothing when busy, nothing to do or the model fails; otherwise the chunk, the index and the token count are updated together and the flag is given back |
| `Summary.HistoryIsCoveredOnce` | common/aihelper/memory.go:88-133 | Under any interleaving of calls, answers, failures and growth the answered chunks concatenate to history[0..index) and at most one call is in flight |
| `Summary.IndexNeverDecreases` | common/aihelper/memory.go:119-124 | The index never decreases and no chunk is taken back |
| `Summary.LastAnswerIsCached` | common/aihelper/memory.go:119-124 | In every interleaving the cached text is the last answer given to a waiting call, with its own estimate beside it |
| `Summary.UndisturbedCallCatchesUp` | common/aihelper/memory.go:88-133 | From any reachable state with the flag free, a call nobody disturbs hands over everything up to the kept messages, caches the answer and frees the flag |
| `Summary.NothingFallsBetween` | common/aihelper/memory.go:192-238 | No message falls between summary and working messages iff what the whole budget keeps also fits in what is left of it, or is the last message alone |
| `Summary.FirstMessageInNeither` | common/aihelper/memory.go:192-238 | Two messages for which one is in neither the summary nor the working messages |
| `Seal.FinalizeIsStable` | internal/catalogseal/service.go:443-458 | A finalized report is valid and finalizing it again changes nothing |
| `Seal.ValidateArtifact` | internal/catalogseal/service.go:364-424 | Missing, invalid or the report, exactly when report, hashes, sizes, the set of files and the evaluation checks agree |
| `Seal.Materialize` | internal/catalogseal/service.go:199-362 | Exclusive writes with accumulated entries refine the specification, each error included |
| `Seal.MaterializedIsValid` | internal/catalogseal/service.go:199-424 | What materialize leaves is accepted by ValidateArtifact with the same report iff the encoded report is within one mebibyte |
| `Seal.LongDatasetVersionIsRefused` | internal/catalogseal/service.go:364-372 | Whatever can be sealed can be sealed under a dataset version of over a mebibyte, and what is left is invalid |
| `SealRace.SealRoot.Seal` | internal/catalogseal/service.go:136-183 | A refused command changes nothing; otherwise reuse, creation and errors as specified |
| `SealRace.AtMostOneCreated` | internal/catalogseal/service.go:136-183 | For any interleaving, of the callers with one identity at most one is told Created and every receipt carries the report of the one published directory |
| `SealRace.PublishedStays` | internal/catalogseal/service.go:171-176 | A published directory is never changed |
| `SealRace.WinnerIsConfirmed` | internal/catalogseal/service.go:177-182 | The rename's winner is told Created iff its report fits the validator's limit, and InvalidArtifact otherwise |
| `SealRace.LoserGetsTheWinnersReport` | internal/catalogseal/service.go:171-176 | A loser of the rename is given the report of the published request, or Unavailable iff that report does not fit |
| `SealRace.ServiceIsFaithful` | internal/catalogseal/service.go:199-424 | The service's builder and validator meet what the race needs of them |
| `SealMeaning.ValidProves` | internal/catalogseal/service.go:364-441 | Whatever a directory holds: if it is accepted then its report is sound and self-hashed, the eleven files have their lengths and digests, nothing else is there, and the evaluation checks pass |
| `SealMeaning.AlteredFileIsRefused` | internal/catalogseal/service.go:379-391 | A sealed file replaced by bytes of another length or digest is refused |
| `SealMeaning.OtherFilesAreRefused` | internal/catalogseal/service.go:393-423 | So is a directory with a file removed or added |
| `SealMeaning.MaterializedHoldsAll` | internal/catalogseal/service.go:199-362 | Every item is written as given with its entry, the manifests are those made from the entries, the report is beside them, and nothing else |
| `SealMeaning.SealExactly` | internal/catalogseal/service.go:136-183 | Refused in order when not acknowledged, stale or incomplete; otherwise reused, created, or an error, exactly by what is published and built |
| `SealMeaning.SealAgainReuses` | internal/catalogseal/service.go:136-183 | Sealing the same identity again, whatever else the request says, changes nothing and returns the report created first |
| `SealMeaning.SealedReportTells` | internal/catalogseal/service.go:345-362 | The report sealed carries every field of its request |
| `SealMeaning.SealIdDecidesIdentity` | internal/catalogseal/service.go:460-462 | Seal ids are equal iff catalog, review set and reviewer are, short of a collision of the digests' first half |

## Left out

- Operating-system errors in the middle of a write, sync or close, other than a log that does not close; a step whose log cannot be opened is modelled, and its report is rejected as in the source.
- What the evaluated processes compute: a process writes to its two logs and to the declared outputs of its own step, and returns any exit code.
- Whether the seal, the release manifest, the binaries and the three roots on disk still match a plan: one boolean of `RerunEngine`. The arguments of the steps are not modelled.
- The texts shown to operators in re-run reports and statuses are abbreviated; the validators only ask that they are not blank.
- File names of a run directory are constructors (`CheckpointFile(3)`) instead of formatted strings; two digits and the dot suffixes are not modelled.
- Names written while sealing are taken as already cleaned by `filepath.Clean`; how slices, fixtures and the two sealed manifests are encoded is given by parameters, and the evaluation validators by one function of the directory. Temporary directories are private to their caller.
- The seal, judge and resume blocks of the release review, and its Markdown.
- MigrateLegacyReviews: migrated rows keep a request hash computed for another schema, so nothing is claimed about them; the ledger starts from rows made by Submit.
- Loading and validating the catalog and its governance: `ValidSnapshot` states what they establish. Prompts, contents and review guides of cases are not modelled.
- SQL collation and transactions: reads see prefixes of the append-only table, inserts are judged by the unique indexes as the table then is. The row lock of the second read is not relied on.
- Time zones: a review time is one instant, truncated to the second.
- ReviewRules.RequestDecidesContent: a case id holding a NUL is excluded by `Plain`, since with one the joined text is ambiguous.
- Recommendation.RepeatedCycleAddsNothing: assumes the first cycle's clock is never the zero time, at which the store rejects every record.
- Anomaly analysis, metric windows, the evaluation gate's file and the observer's counters: parameters of the controller.
- Summary.SummaryMemory.TrySummarize: the prompt sent to the model, persisting the summary and the floating-point trigger ratio are not modelled; SetSummary and LoadFromDB are not called.
- HTTP handlers, routing, Redis, RabbitMQ, embeddings and the front end.
- BuildContext beyond where its working messages begin.
- The inspector reads the listing, the lock and the latest directory as one snapshot; a run that starts or ends between its reads is not modelled.
- Nil services and blank reviewers of List, Evidence and SealSnapshot, which end in one error at once; failing loads of the active policy or the evaluation gate, which end a cycle before it reads a series.
- RerunStatus.RunIdOrder: holds for start times before the year 10000, after which a stamp grows a digit.
- ReviewLedger.LedgerIsSafe: adds to revisions without wrap-around, which a group would reach with its row number 2^63.
- RerunLimits.RunReportsFit: assumes of the codec that a report of bounded parts is encoded in at most one mebibyte, as indented JSON with at most six bytes for a character is.
- RerunConcurrency.ExecuteAlone: the order of the engine's writes within a step is not part of the statement.
