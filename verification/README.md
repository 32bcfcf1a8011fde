# Verified model of the import pipeline, its texts and its diffs

A Dafny model of the parts of the research canvas whose correctness is a matter of state
and structure, and proofs about them. `dafny verify dfyconfig.toml` checks all of it.

| file | what it models |
|---|---|
| `JobLog.dfy` | one document-agent job: its states, its checkpoint log, the law every log obeys |
| `JobRecovery.dfy` | recovering a job from its checkpoint file |
| `JobProgress.dfy` | cumulative provider counts turned into totals; bounded lists |
| `AgentHost.dfy` | the host's tables, updated in place by the job operations, and the progress sink |
| `BatchRunner.dfy` | the batch worker interleaved with cancellation and review; the batch status |
| `BatchOutcome.dfy` | what becomes of a batch's jobs, told from the moves: data, verdicts, failures, health |
| `JobGate.dfy` | the admission gate: a semaphore in front of the kernel's ledger |
| `Utf8.dfy` | UTF-8 bytes, the byte comparison loop, sorting by it |
| `JsonScan.dfy` | the JSON grammar (RFC 8259, sections 2 to 7) and a quote-aware scanner over it |
| `CanonicalJson.dfy` | canonical text and what it identifies |
| `JsonMeaning.dfy` | what a JSON text denotes by its syntax, and that canonical text denotes its value |
| `JsonExtract.dfy` | extracting a JSON value from noisy text |
| `LlmRetry.dfy` | truncation detection, merging, the repair and retry loops |
| `LlmErrors.dfy` | what one request ends in, and which errors are asked again |
| `LlmHost.dfy` | the same on strings, with the extraction proved in `JsonExtract.dfy` |
| `CanvasClaims.dfy` | entity claims, entity keys, sorted listings, the index by id |
| `CanvasDiff.dfy` | the diff of one entity kind: cache, chunks, classification |
| `CanvasProvenance.dfy` | normalised provenance of a document, and when two say the same |
| `CanvasBatch.dfy` | the diff of two groups of documents, their descriptors, provenance and summary |
| `PatchProject.dfy` | materialising a review patch in four phases |
| `PatchReading.dfy` | the materialised project told from the unsorted patch |
| `ProjectGate.dfy` | the import gate and the migration of edge types |
| `SurfaceDriver.dfy` | the surface continuation driver as interleaved steps |
| `PluginIdentity.dfy` | version order, newest packages, the set of enabled keys |
| `OperationName.dfy` | operation names: the host's scan and the client's expression |

## How it is modelled

Objects that the source updates in place are classes (`AgentHost`, `ProgressSink`,
`Scheduler`, `Driver`); their methods are proved against functions on values, and the laws
are lemmas about those functions over arbitrary sequences of operations. Concurrent code is
cut into the steps that are atomic in the source: sections under the host lock, the two
halves of acquiring and releasing a permit, the stretches between two awaits. Every lemma
about such a system is about all interleavings of those steps. Loops that fill maps, lists
or counters are methods with loops.

The clock is an argument of every step. SHA-256, Unicode normalisation, the text of a
number, JSON parsing, the block hash, the value of a numeral and the locale's collation are
parameters; what a lemma needs of one of them is in its `requires` (normalisation leaves the
ASCII field names alone, compared versions do not collide, the collation is a preorder, the
parser's trimming is idempotent). A string is a sequence of Unicode scalar values.

## Where the code and its own description differ

The model follows the code; the lemma named says exactly what it does.

- "Any stage can fail" (src-tauri/src/agent_host.rs:27-30): `Queued`, `Created` and
  `AwaitingReview` cannot (`FailureReachableFrom`). A job whose configuration does not resolve
  therefore stays queued after its batch has finished unless the user cancels it
  (`LeftQueuedIff`), and the batch status then does not settle (`FinishedStatusSettledIff`,
  `UnresolvedBatchStaysQueued`).
- Recovery is called idempotent; recovering twice appends the open checkpoint again, with
  exact exceptions whatever job it is recovered into (`RecoveringTwiceAddsNothingIff`,
  `RecoveryIsNotIdempotent`). It also
  drops the result (`RecoveryForgetsTheResult`, `RecoveredReviewHasNoResult`), and a stale file
  is ignored except for a repeated OCR stage (`StaleFileIsIgnoredIff`,
  `SecondOcrTakesTheStaleFile`).
- The comment on cancelling speaks of the failed state; the state entered is `Cancelled`.
- A verdict can also be reached by advancing to its state (`VerdictDecides`).
- `mark_document_validated` also writes to a job that is over: exactly when
  (`FinishedJobIsOverwrittenIff`), and moves that do it (`ValidationOverwritesACancelledHash`).
  So does every recording of progress, uploads, retries, audits and passes, none of which looks
  at the state: exactly when one changes a finished job (`FinishedJobChangesIff`), what the job
  becomes (`FinishedJobEndsAs`), and moves that do it (`RetryTouchesACancelledJob`).
- `create_batch` keeps the jobs made before a blank path, without a batch: exactly when a failed call
  leaves the table alone (`FailedBatchLeavesTheTableIff`), and paths for which it does not
  (`BlankPathLeavesAJob`).
- The diff of two versions throws when a claim field is on one side only, because the absent
  value has no canonical text (`ComparableIff`, `GainedConfidenceThrows`).
- `merge_truncated_output` and `detect_truncation` slice by bytes and panic inside a
  character (`MergeCanSplitACharacter`, `CutReplyDetected`, `AccentedReplyPanics`).
- A terminating error that answers a repair request does not end the call
  unless the attempt is the last (`TerminatingErrorEndsIff`, `RejectedRepairIsRetried`).
- There is an error for status 429, but no request ends in it: every status but 200 and the four
  that say the request is bad becomes a server error, and is asked again (`PassingIff`,
  `OverloadedThenReply`).
- An edge type named after a member of `Object.prototype` passes the table lookup as a
  non-text, and the gate then refuses the project (`MaterializedPassesIff`,
  `ToStringEdgeIsRefused`); an imported project with such a type passes the gate and no
  longer does once migrated (`MigratedPassesIff`, `ToStringPassesUntilMigrated`).
- "Shadowed by a newer version": a superseded package is older exactly when it does not tie with
  the selected one (`SupersededIsOlderIff`, `AllSupersededAreOlderIff`), and may tie
  (`SupersededNeedNotBeOlder`).
- A list of objects is answered by its first object (`ListOfObjectsYieldsTheFirst`).

## Model

| member | source | states |
|---|---|---|
| JobLog.LogLawOverRuns | src-tauri/src/agent_host.rs:597-801 | after any sequence of advances, cancellations, verdicts and validations, refused ones included, a fresh job's log obeys the law: its stages have the one shape its state allows, only an unfinished job's last checkpoint is open, each closes when the next starts, input hashes chain, the result is the reviewed payload |
| JobLog.StepKeepsLaw | src-tauri/src/agent_host.rs:597-667 | one attempted step keeps the log law |
| JobLog.EveryPathIsLogged | src-tauri/src/agent_host.rs:52-78 | the law is tight: every path of the transition table from validation can be advanced along, is logged as it is, and has the lawful shape |
| JobLog.StagesArePath | src-tauri/src/agent_host.rs:52-78 | neighbouring stages of a lawful log are an edge of the transition table, except for a final cancellation |
| JobLog.LengthIsRankPlusRepeats | src-tauri/src/agent_host.rs:52-78 | an unfinished started job's log is as long as its state's rank plus two for every return from OCR to text extraction |
| JobLog.DecidedJobWasReviewed | src-tauri/src/agent_host.rs:766-801 | an accepted or rejected job passed every stage in order, AwaitingReview exactly once and last but one, and its result is that checkpoint's data; which of the two it is, VerdictDecides says |
| JobLog.VerdictDecides | src-tauri/src/agent_host.rs:766-801 | after any sequence of steps a job is accepted exactly when the first verdict, cancellation or advance to a verdict attempted while it awaited review was a yes, and rejected exactly when it was a no |
| JobLog.AdvanceHandsOn | src-tauri/src/agent_host.rs:597-667 | an advance closes the open checkpoint with the output hash and error given, hands the hash on as the next input, and files the data under the new stage |
| JobLog.CancelWrites | src-tauri/src/agent_host.rs:733-763 | a cancellation puts its reason on the closed and the new checkpoint and on the job, and keeps the output hash |
| JobLog.VerdictWrites | src-tauri/src/agent_host.rs:766-801 | a verdict closes the review checkpoint as it is and leaves result and error alone |
| JobLog.ResultFrozenAfterReview | src-tauri/src/agent_host.rs:597-667 | once a review checkpoint exists no later sequence of steps changes the result |
| JobLog.TerminalJobsAreFrozen | src-tauri/src/agent_host.rs:80-85 | a finished job keeps state, log, result and error through every sequence of steps |
| JobLog.FailureReachableFrom | src-tauri/src/agent_host.rs:52-78 | exactly the stages from validation to patch generation can fail |
| JobRecovery.RecoveryIsABisimulation | src-tauri/src/agent_host.rs:670-709 | a job re-created with an empty log and the same file hash, recovered from its file, has the same log and state, and every later sequence of steps gives the same outcomes and logs |
| JobRecovery.RecoveryForgetsTheResult | src-tauri/src/agent_host.rs:692-706 | the result survives recovery exactly when no payload had been put up for review |
| JobRecovery.RecoveredLogIsLawfulIff | src-tauri/src/agent_host.rs:670-709 | a recovered job has every part of the log law but the result's, and that one exactly when no payload had been put up for review |
| JobRecovery.RecoveredReviewHasNoResult | src-tauri/src/agent_host.rs:692-706 | a job with a patch up for review, recovered, has no result |
| JobRecovery.StaleFileIsIgnoredIff | src-tauri/src/agent_host.rs:692-706 | recovering from an earlier file changes nothing unless the job is in OCR and the file holds an OCR checkpoint |
| JobRecovery.SecondOcrTakesTheStaleFile | src-tauri/src/agent_host.rs:692-706 | a job in its second OCR round takes checkpoints from a file of its first |
| JobRecovery.RecoveringAnAdvancedJob | src-tauri/src/agent_host.rs:670-730 | persist, go on, recover: nothing changes if OCR was not repeated |
| JobRecovery.EarlierLogIsASnapshot | src-tauri/src/agent_host.rs:712-730 | the log at any time agrees in stages with every later log of the same job |
| JobRecovery.RecoveringTwiceAddsNothingIff | src-tauri/src/agent_host.rs:669-709 | whatever job the file of a lawful one is recovered into, a second recovery adds nothing exactly when the first took nothing, the file is that of a finished job, or it is back at text extraction or OCR after a repeat |
| JobRecovery.RecoveringLostJobTwiceIff | src-tauri/src/agent_host.rs:669-709 | into a job created again with an empty log: exactly for an empty log, a finished job, or a log ending in an OCR return |
| JobRecovery.RecoveryIsNotIdempotent | src-tauri/src/agent_host.rs:669-709 | a job one stage in, recovered twice, has its checkpoint twice |
| JobProgress.ProgressIsConserved | src-tauri/src/agent_commands.rs:946-982 | each total grows by the saturated sum of increments within segments; below saturation that is the sum of the segments' last counts exactly when no segment ever reports less than before |
| JobProgress.TotalsFollowSegments | src-tauri/src/agent_commands.rs:946-982 | from any cursor in the middle of a segment the total still grows by the saturated increments of the segments to come |
| JobProgress.BoundedListKeepsTheLast | src-tauri/src/agent_host.rs:537-566 | a list that drops its oldest entries is the tail of everything pushed |
| JobProgress.PublicProgressIsTheTail | src-tauri/src/agent_host.rs:537-566 | public progress is the last 32 of the whole history |
| JobProgress.AuditsAreTheTail | src-tauri/src/agent_host.rs:568-586 | the repair audits are the last 16 of all recorded, each cut to 64 entries |
| JobProgress.RetriesAreCounted | src-tauri/src/agent_host.rs:527-535 | over any stream of events the retry count grows by the number of retry events, saturated once at the end |
| JobProgress.LastUploadIsShown | src-tauri/src/agent_host.rs:511-525 | over any stream of events a job shows the last upload report: its total, and the bytes transferred unless they exceed it; the bytes never exceed the total |
| JobProgress.RecordingChangesIff | src-tauri/src/agent_host.rs:467-586 | exactly when something recorded on a job leaves a trace: the clock has moved on, or a count, a summary, an upload or a list shows it |
| JobProgress.ReasoningIsTimedFromTheFirstPass | src-tauri/src/agent_host.rs:467-509 | whatever is recorded: the reasoning started with the first pass begun, the current pass is the last begun, and the elapsed time runs from that start to the last pass or reasoning report |
| AgentHosts.AgentHost.CreateJob | src-tauri/src/agent_host.rs:350-387 | an unfinished job for the same path and hash is reused, otherwise exactly one fresh job is added; an invalid document changes nothing |
| AgentHosts.AgentHost.CreateBatch | src-tauri/src/agent_host.rs:389-445 | one to 64 paths that trimming leaves something of make a batch of queued jobs; at a blank path the jobs made so far stay, no batch is added |
| AgentHosts.FailedBatchLeavesTheTableIff | src-tauri/src/agent_host.rs:389-445 | under unused ids a failed call leaves the job table alone exactly when there are no or too many paths or the first is blank; otherwise jobs stay that name a batch that is not there |
| AgentHosts.EveryPathIsQueued | src-tauri/src/agent_host.rs:412-438 | under distinct ids every path gets a fresh queued job of its own that names path and batch, and all other jobs stay |
| AgentHosts.BlankPathLeavesAJob | src-tauri/src/agent_host.rs:412-438 | of two paths the second is blank: the first one's job stays, queued |
| AgentHosts.BlankIffTrimmedAway | src-tauri/src/agent_host.rs:411-413 | blank paths are those of which trimming Unicode white space leaves nothing |
| AgentHosts.AgentHost.AdvanceJob | src-tauri/src/agent_host.rs:597-667 | the in-place update is the model's step on that job, errors included, and every job in the table stays lawful |
| AgentHosts.AgentHost.CancelJob | src-tauri/src/agent_host.rs:733-763 | any unfinished job, and no other, is cancelled as the model's step does, and every job in the table stays lawful |
| AgentHosts.AgentHost.ReviewPatch | src-tauri/src/agent_host.rs:766-801 | succeeds exactly on a job awaiting review, which is then accepted exactly on a yes and rejected exactly on a no; otherwise the model's step on that job, and every job in the table stays lawful |
| AgentHosts.AgentHost.MarkDocumentValidated | src-tauri/src/agent_host.rs:451-465 | replaces path and hash of a job in any state; the law holds on |
| AgentHosts.AgentHost.RecordReasoningActivity | src-tauri/src/agent_host.rs:491-509 | adds saturating deltas to one job and touches no other |
| AgentHosts.AgentHost.RecordPublicProgress | src-tauri/src/agent_host.rs:537-566 | pushes one update to the bounded list |
| AgentHosts.AgentHost.BeginReasoningPass | src-tauri/src/agent_host.rs:467-485 | the recording of a pass on that job alone, in whatever state it is |
| AgentHosts.AgentHost.RecordRepairAudit | src-tauri/src/agent_host.rs:568-586 | pushes one cut record to the bounded list |
| AgentHosts.AgentHost.PersistCheckpoints | src-tauri/src/agent_host.rs:712-730 | succeeds exactly when the directory can be made, no log is too large and none is refused by the disk, and then writes every log; on failure each file is its old self, a job's current log, or a torn file that was refused |
| AgentHosts.AgentHost.RecoverJob | src-tauri/src/agent_host.rs:670-709 | missing job, missing file, oversized and corrupt file each as the source; otherwise the recovered job |
| AgentHosts.ProgressSink.Emit | src-tauri/src/agent_commands.rs:904-1007 | moves the cursor and updates the job as the event demands |
| BatchRunner.FinishedBatch | src-tauri/src/agent_commands.rs:721-766 | in every interleaving a finished batch leaves each job awaiting review, over, or queued, queued only if its configuration did not resolve; a healthy one has no failed job |
| BatchRunner.BatchTerminates | src-tauri/src/agent_commands.rs:1125-1317 | thirteen worker steps per job and one more finish the batch, whatever is interleaved |
| BatchRunner.InterleaveKeepsInv | src-tauri/src/agent_commands.rs:1100-1122 | where the worker stands bounds the state of the current job, of those behind and of those ahead |
| BatchRunner.FinishedJobsAreKept | src-tauri/src/agent_commands.rs:1100-1122 | a cancelled, failed or decided job, in the batch or not, keeps state, log, result and error in every interleaving |
| BatchRunner.FinishedJobChangesIff | src-tauri/src/agent_host.rs:451-586 | one move changes a finished job exactly when it records a validation or a progress, upload, retry, audit or pass that differs; it changes path or hash exactly when it records a validation of another one |
| BatchRunner.FinishedJobEndsAs | src-tauri/src/agent_commands.rs:904-1317 | the whole record of a finished job after any interleaving: everything recorded on it, and the validation of the worker's next step if the worker is about to mark it |
| BatchRunner.FinishedJobIsOverwrittenIff | src-tauri/src/agent_commands.rs:1125-1317 | a finished job of the batch keeps state, log, result and error in every interleaving; path or hash change exactly if the worker is about to record its validation and its next step records another path or hash |
| BatchRunner.UnrecordedJobChangesIff | src-tauri/src/agent_host.rs:451-465 | as long as nothing is recorded on it, a finished job changes at all exactly by such a validation |
| BatchRunner.RetryTouchesACancelledJob | src-tauri/src/agent_commands.rs:904-1005 | from the start of any batch: a retry reported after a cancellation changes the cancelled job, its verdict stays |
| BatchRunner.SinkEventIsARecording | src-tauri/src/agent_commands.rs:904-1007 | an event of a job's progress sink is one such recording on that job, or nothing |
| BatchRunner.ValidationOverwritesACancelledHash | src-tauri/src/agent_commands.rs:1125-1317 | from the start of any batch, moves after which a cancelled job has the path and hash of a validation recorded later |
| BatchRunner.StatusNeverFallsBack | src-tauri/src/agent_commands.rs:768-814 | the reported status only climbs: queued, running, completed, completed with errors, cancelled |
| BatchRunner.FinishedStatusSettledIff | src-tauri/src/agent_commands.rs:768-814 | a finished batch reports a settled status exactly when the user cancelled every job whose configuration did not resolve |
| BatchRunner.LeftQueuedIff | src-tauri/src/agent_commands.rs:721-766 | in a finished batch a job is left queued exactly when its configuration did not resolve and no move cancels it |
| BatchRunner.UnresolvedBatchStaysQueued | src-tauri/src/agent_commands.rs:768-814 | a batch of one job that does not resolve finishes and reports itself queued |
| BatchOutcome.LogCarriesTheMoves | src-tauri/src/agent_commands.rs:1125-1317 | in every interleaving each stage of a job's log carries the data of the worker move that entered it and is closed with the hash of the move that left it; a job put up for review, decided or not, has the data of the last move as its result |
| BatchOutcome.VerdictOfTheUser | src-tauri/src/agent_commands.rs:1335-1357 | in every interleaving a job of the batch is accepted exactly when the first verdict or cancellation attempted while it awaited review is a yes, and rejected exactly when it is a no |
| BatchOutcome.CancellationOfTheUser | src-tauri/src/agent_commands.rs:1347-1363 | a job of the batch is cancelled exactly when a cancellation was attempted while it was not over, and shows the reason of the first such attempt |
| BatchOutcome.FailureOfTheWorker | src-tauri/src/agent_commands.rs:744-757 | a job is failed exactly when the worker recorded a failure while it was at work on it, and then job, last checkpoint and the broken stage show that move's error |
| BatchOutcome.UncancelledJobEnds | src-tauri/src/agent_commands.rs:721-766 | in a finished batch a job the user did not cancel is queued exactly if it did not resolve, failed exactly if its validation or a stage broke, and else has entered all nine stages and awaits review or has its verdict |
| BatchOutcome.HealthyIff | src-tauri/src/agent_commands.rs:721-766 | a finished batch is healthy exactly when the worker gave no job up |
| BatchOutcome.OverIsPassedOver | src-tauri/src/agent_commands.rs:731-739 | a job that is over when the worker comes to it is never started and never given up |
| JobGate.Scheduler.Acquire | src-tauri/src/kernel/scheduler.rs:120-131 | refuses exactly at the quota, otherwise counts one more for that principal only |
| JobGate.Scheduler.Release | src-tauri/src/kernel/scheduler.rs:135-142 | counts one less and never below zero |
| JobGate.GateIsSafe | src-tauri/src/agent_commands.rs:111-159 | in every interleaving inflight is at most the permits out, those at most the quota; with nobody inside both are back |
| JobGate.NeverPanicsIff | src-tauri/src/agent_commands.rs:117-122 | the ledger's refusal is unreachable exactly when its quota covers every batch the semaphore can admit |
| JobGate.SomeoneCanMove | src-tauri/src/agent_commands.rs:111-159 | while a batch has not left, some batch can take a step |
| Utf8.EncodeInjective | app/lib/compiler-reference.ts:46-54 | different strings have different bytes |
| Utf8.ByteCompare | app/lib/compiler-reference.ts:46-54 | the loop's sign is the lexicographic order of the bytes, zero exactly for equal ones |
| Utf8.BeforeIsAStrictTotalOrder | app/domain/canvas-diff.ts:164-172 | the byte order is a strict total order |
| Utf8.BeforeIff | app/lib/compiler-reference.ts:46-54 | one byte sequence is before another exactly if they agree up to a place where it ends or has the smaller byte |
| Utf8.SortSorts | app/lib/compiler-reference.ts:69-72 | sorting gives an ordered rearrangement |
| Utf8.SortIsCanonical | app/lib/compiler-reference.ts:69-72 | sorted lists are equal exactly when the lists hold the same strings equally often |
| JsonScan.ValuePasses | app/lib/compiler-reference.ts:62-91 | the scanner leaves every JSON value as it entered it and meets no delimiter on its own level |
| JsonScan.JoinReadable | app/lib/compiler-reference.ts:69-88 | a comma-separated list of values is read back item by item |
| JsonScan.ScannerCountsOutside | src-tauri/src/llm_client.rs:343-366 | of any text the scanner counts exactly the brackets of its kinds outside string literals, a backslash being of account inside a literal only |
| JsonScan.UnendedLiteralCounts | src-tauri/src/llm_client.rs:343-366 | inside a literal that has not ended nothing is counted |
| CanonicalJson.EntryMap | app/lib/compiler-reference.ts:75-83 | the loop maps each normalised key to its last field |
| CanonicalJson.SpacedReadable | app/lib/compiler-reference.ts:16-21 | folded text determines its words |
| CanonicalJson.QuoteInjective | app/lib/compiler-reference.ts:66-68 | a string literal determines its string |
| CanonicalJson.CanonicalIsJson | app/lib/compiler-reference.ts:62-91 | canonical text is a JSON text |
| CanonicalJson.CanonicalTextIffSameMeaning | app/lib/compiler-reference.ts:62-91 | two values have the same canonical text exactly when they agree with arrays as multisets, objects as last-wins maps over normalised keys, and strings as words after normalisation |
| CanonicalJson.CanonicalOrder | app/lib/compiler-reference.ts:69-91 | the keys of an object's text stand in strict byte order, the items of an array's in byte order |
| CanonicalJson.EscapedOnlyIf | app/lib/compiler-reference.ts:66-68 | exactly quotes, backslashes and control characters are escaped, with the short escape where there is one |
| JsonMeaning.CanonicalTextDenotes | app/lib/compiler-reference.ts:62-91 | read as JSON, without the canonicalizer, canonical text denotes exactly what its value means: names, numbers, words, arrays without order, objects by key |
| JsonMeaning.DenotesOneMeaning | app/lib/compiler-reference.ts:62-91 | a text denotes one meaning only |
| JsonMeaning.OneSyntaxTree | app/lib/compiler-reference.ts:62-91 | the grammar in which that is said is unambiguous: a text has one syntax tree |
| JsonMeaning.PrintedIsJson | app/lib/compiler-reference.ts:62-91 | what a syntax tree prints is a JSON text |
| JsonExtract.ClosingLength | src-tauri/src/llm_client.rs:345-364 | the loop finds the first length at which the quote-aware depth is back to zero, or that there is none |
| JsonExtract.ScanPass | src-tauri/src/llm_client.rs:343-366 | one pass answers the shortest prefix from the first bracket on which the quote-aware depth returns to zero, if there is one |
| JsonExtract.ExtractJsonSubstring | src-tauri/src/llm_client.rs:341-392 | the object pass answers the shortest prefix from the first brace on which the quote-aware depth returns to zero; only if none does, the array pass answers likewise |
| JsonExtract.TrimIs | src-tauri/src/llm_client.rs:342 | trimming cuts white space off both ends and nothing else |
| JsonExtract.ExtractionIsFunctional | src-tauri/src/llm_client.rs:341-392 | the description of the answer by shortest closing prefixes has exactly one answer for every text |
| JsonExtract.PrintedObjectIsExtracted | src-tauri/src/llm_client.rs:341-366 | any JSON object text is extracted unchanged from any surroundings without an earlier opening brace |
| JsonExtract.CanonicalObjectIsExtracted | src-tauri/src/llm_client.rs:341-366 | the canonical text of every object value is extracted unchanged from any surroundings without an earlier opening brace |
| JsonExtract.PrintedArrayIsExtractedIff | src-tauri/src/llm_client.rs:343-391 | an array text is extracted exactly when no brace in the text closes |
| JsonExtract.ListOfObjectsYieldsTheFirst | src-tauri/src/llm_client.rs:341-392 | a list that starts with an object is answered by that object alone |
| LlmRetry.MergeTruncatedOutput | src-tauri/src/llm_client.rs:429-451 | the downward loop finds the longest overlap, and panics exactly when an overlap it tries cuts a character |
| LlmRetry.MergeIsShortest | src-tauri/src/llm_client.rs:429-451 | the merged text is the one shortest text beginning with the partial and ending with the continuation, among overlaps up to 200 bytes |
| LlmRetry.AsciiMerges | src-tauri/src/llm_client.rs:429-451 | on ASCII the merge never panics |
| LlmRetry.MergeCanSplitACharacter | src-tauri/src/llm_client.rs:434-437 | one accented letter continued by one ASCII letter panics |
| LlmHost.WholeReplyDetected | src-tauri/src/llm_client.rs:304-338 | a reply not cut off is complete exactly if it parses once trimmed or a JSON substring of it does, and else invalid |
| LlmHost.CutReplyDetected | src-tauri/src/llm_client.rs:304-338 | a reply cut off is complete if it parses, else truncated with a tail of whole characters exactly if some of its characters take its last 512 bytes; else the detector panics |
| LlmHost.BoundaryIff | src-tauri/src/llm_client.rs:326-332 | the bytes of a string may be sliced exactly where a character begins, and what is sliced off is the text of a suffix |
| LlmRetry.RepairTruncation | src-tauri/src/llm_client.rs:909-989 | the loop computes the recursive repair and counts its requests |
| LlmRetry.CallWithRetry | src-tauri/src/llm_client.rs:740-842 | the loop computes the recursive call and counts its requests |
| LlmRetry.WithContentReplaces | src-tauri/src/llm_client.rs:950-958 | a repair replaces the content of the first choice's message and nothing else |
| LlmRetry.CallIsGood | src-tauri/src/llm_client.rs:740-842 | from any attempt on: at most three more requests per attempt left, and usable content in JSON mode |
| LlmRetry.AtMostNineRequests | src-tauri/src/llm_client.rs:740-842 | at most nine requests; in JSON mode a returned response with a first choice carries content that parses or holds extractable JSON |
| LlmRetry.NineRequestsHappen | src-tauri/src/llm_client.rs:740-842 | nine requests are sent when every reply is the same short ASCII text, cut off, that does not parse |
| LlmRetry.TerminatingErrorEndsIff | src-tauri/src/llm_client.rs:465-473 | a terminating error, to whichever request, ends the call exactly when it answers an attempt's own request or a repair request of the last attempt; otherwise more requests follow |
| LlmErrors.OwnErrorFollowedIff | src-tauri/src/llm_client.rs:822-835 | before the last attempt, an error answering the attempt's own request is followed by another request exactly if it is an HTTP, rate or server error (or one the loops alone make) |
| LlmErrors.ErrorsThenReply | src-tauri/src/llm_client.rs:740-842 | fewer than three such errors and then a reply that can be taken as it is: it is returned, with one request more than errors |
| LlmErrors.ErrorsThenEnd | src-tauri/src/llm_client.rs:740-842 | fewer than three such errors and then another one: the call fails with that one at once |
| LlmErrors.ThreeErrorsExhaust | src-tauri/src/llm_client.rs:838-842 | three such errors end in exhaustion after three requests |
| LlmErrors.RepairErrorFollowedIff | src-tauri/src/llm_client.rs:973-983 | the first repair request's error is followed by the second exactly if it is such an error |
| LlmErrors.SecondRepairErrorFails | src-tauri/src/llm_client.rs:973-988 | the second repair request's error fails the repair |
| LlmErrors.RepairedAfterAnError | src-tauri/src/llm_client.rs:925-983 | a reply cut off, one such error, then a continuation that completes it: the merged text is returned after three requests |
| LlmErrors.PassingIff | src-tauri/src/llm_client.rs:860-906 | one request ends in such an error exactly if it was not answered or not read, or answered with a status other than 200 and the four terminal ones |
| LlmErrors.OverloadedThenReply | src-tauri/src/llm_client.rs:277-279 | a first answer with any status but 200 and the four terminal ones, then a reply: it is returned after two requests |
| LlmRetry.RolesAreRequests | src-tauri/src/llm_client.rs:740-842 | the requests that are an attempt's own or a repair of it are exactly those the call sends |
| LlmRetry.RejectedRepairIsRetried | src-tauri/src/llm_client.rs:909-989 | a cut-off reply, a client error on the repair, a whole reply: the call succeeds |
| LlmRetry.DetectionCanSplitACharacter | src-tauri/src/llm_client.rs:326-331 | a cut-off text of 513 bytes that begins with an accented letter makes the tail slice panic |
| LlmHost.JsonModeHoldsJson | src-tauri/src/llm_client.rs:304-392 | with trimming and extraction as proved and any parser: at most nine requests, and in JSON mode the content returned is UTF-8 and parses, or a substring extracted from it does |
| LlmHost.UsableIff | src-tauri/src/llm_client.rs:304-320 | what the detector accepts as complete: text that parses, trimmed or not, or whose extracted substring does |
| JsonExtract.HostAndClientSpace | src-tauri/src/llm_client.rs:342 | what the host trims differs from what the client does in U+0085 and U+FEFF alone |
| LlmHost.TrimIsIdempotent | src-tauri/src/llm_client.rs:342 | trimming twice is trimming once |
| LlmHost.OpenBraceSendsNine | src-tauri/src/llm_client.rs:740-842 | an opening brace, cut off every time, costs nine requests |
| LlmHost.RejectedBraceIsRetried | src-tauri/src/llm_client.rs:740-842 | an opening brace cut off, a client error on the repair, an empty object: success after three requests |
| LlmHost.AccentedReplyPanics | src-tauri/src/llm_client.rs:326-331 | a cut-off reply of an accented letter and 511 more panics |
| CanvasClaims.ClaimKeysIff | app/domain/canvas-diff.ts:426-456 | claim keys are equal exactly when both claims carry the same fields with the same meanings |
| CanvasClaims.ClaimKeysByKind | app/domain/canvas-diff.ts:138-160 | kind by kind, which fields count: claim keys are equal exactly when the entities agree on those fields, and on no other condition |
| CanvasClaims.EntityKeyInjective | app/domain/canvas-diff.ts:182-185 | the tuple key determines document, kind and id, whatever they contain |
| CanvasClaims.LocalIdIs | app/domain/canvas-diff.ts:178-180 | an entity's id is its id text without the white space around it; blank texts and other values are none |
| CanvasClaims.SortedIds | app/domain/canvas-diff.ts:514 | lists exactly the ids, in strict byte order |
| CanvasClaims.ListsUnique | app/domain/canvas-diff.ts:164-172 | a set of ids has one such listing |
| CanvasClaims.Index | app/domain/canvas-diff.ts:471-486 | succeeds exactly when every id is a non-blank text and no two are equal after trimming, and gives the index |
| CanvasClaims.IndexedByIdIff | app/domain/canvas-diff.ts:471-486 | an item is in the index under an id exactly when it is in the list with that id |
| CanvasClaims.IndexIgnoresOrder | app/domain/canvas-diff.ts:471-486 | reordering the list changes neither the index nor whether there is one |
| CanvasDiff.ChangedClaimFields | app/domain/canvas-diff.ts:563-573 | throws exactly when a field is on one side only, and else lists the fields whose meanings differ |
| CanvasDiff.HashEntity | app/domain/canvas-diff.ts:458-469 | from a cache of true hashes: the hash of the entity's claim, and again such a cache |
| CanvasDiff.HashSides | app/domain/canvas-diff.ts:515-530 | hashing through the cache in chunks of 128 gives every entity the hash of its own claim |
| CanvasDiff.DiffEntityZone | app/domain/canvas-diff.ts:505-561 | fails exactly as indexing or comparing fields does, and else is the plain diff: sorted id sets, hash pairs, changed fields, the hash table by entity key |
| CanvasDiff.ZoneDiffIsUnique | app/domain/canvas-diff.ts:532-560 | the plain definition has one solution: two zone diffs of the same indexes are equal |
| CanvasDiff.DiffIgnoresOrder | app/domain/canvas-diff.ts:505-561 | reordering either side's entities gives the same diff, or fails as well |
| CanvasDiff.ModifiedIffClaimsDiffer | app/domain/canvas-diff.ts:546-558 | without collisions, modified means on both sides with claims that say different things |
| CanvasDiff.ComparableIff | app/domain/canvas-diff.ts:563-573 | without collisions, the diff goes through exactly when no shared entity has gained or lost a claim field |
| CanvasDiff.GainedConfidenceThrows | app/domain/canvas-diff.ts:563-573 | an edge that gains a confidence makes the comparison throw |
| CanvasDiff.ModificationNamesAField | app/domain/canvas-diff.ts:547-558 | a modified entity always names a changed claim field |
| CanvasDiff.IdsArePartitioned | app/domain/canvas-diff.ts:538-560 | added, removed, modified and unchanged ids add up to the union, and the hash table has one entry per change |
| CanvasDiff.SwappingSides | app/domain/canvas-diff.ts:505-561 | swapping the sides swaps added with removed and turns every hash pair round |
| CanvasDiff.EditingGivesTheComparison | app/domain/canvas-diff.ts:505-561 | editing the baseline by the diff gives exactly the comparison's ids and claims |
| CanvasBatch.DiffDocument | app/domain/canvas-diff.ts:591-631 | the zone diffs of the two documents' own nodes, edges and evidence through one cache, the document's state, its provenance and the baseline's if that is retained, and the block hashes of all changes in byte order of their keys |
| CanvasBatch.ZonesOfTheLists | app/domain/canvas-diff.ts:488-496 | nodes are diffed against nodes, edges against edges and evidence against evidence, a missing side being empty |
| CanvasBatch.ComparableByLists | app/domain/canvas-diff.ts:488-496 | whether two documents can be compared is decided list by list, each against its own |
| CanvasBatch.BaselineProvenanceIsRetainedIff | app/domain/canvas-diff.ts:607-614 | the comparison's provenance is reported, or without one the baseline's; the baseline's is retained exactly when both sides have the document and say different things of where it came from |
| CanvasProvenance.ProvenanceTextsIff | app/domain/canvas-diff.ts:610-614 | the canonical texts of two provenances are equal exactly when they have the same fields with the same words in each, the references in any order |
| CanvasProvenance.NormalizedIs | app/domain/canvas-diff.ts:195-213 | what normalising keeps: the origin or else import, the seven texts unless empty, the references in byte order |
| CanvasProvenance.NormalizedTwice | app/domain/canvas-diff.ts:195-213 | normalising a provenance twice is normalising it once |
| CanvasProvenance.NormalizedIgnoresOrder | app/domain/canvas-diff.ts:195-213 | the order of the references given does not matter |
| CanvasBatch.OneHashPairPerChange | app/domain/canvas-diff.ts:615-619 | the block hash table of a document has exactly one entry per change |
| CanvasBatch.ComputeBatch | app/domain/canvas-diff.ts:648-698 | fails exactly on a bad group or an incomparable document, and else has the two groups' descriptors, one diff of the documents' own lists per distinct document in strict byte order, and its summary |
| CanvasBatch.NamedIs | app/domain/canvas-diff.ts:400-402 | a group goes by its own name and label trimmed, or by the fallback if none is given or it is blank |
| CanvasBatch.SummaryCountsIds | app/domain/canvas-diff.ts:633-646 | the summary counts, for nodes, edges and evidence over all documents, the ids only after, only before, and on both sides but differing |
| CanvasBatch.UnchangedIff | app/domain/canvas-diff.ts:604-606 | a document is unchanged exactly when both sides have it and their nodes, their edges and their evidence make the same claims |
| CanvasBatch.TotalIsTheSumOverDocuments | app/domain/canvas-diff.ts:633-698 | the total over kinds is the sum of the documents' changes |
| CanvasBatch.DocumentsArePartitioned | app/domain/canvas-diff.ts:672-681 | added, removed, modified and unchanged documents add up to the distinct ids; added and removed are the one-sided ones |
| CanvasBatch.BatchIgnoresOrder | app/domain/canvas-diff.ts:648-698 | groups given in another order, their documents' entities and references in another order too, give the same batch, or fail as well |
| CanvasBatch.ReorderedGroups | app/domain/canvas-diff.ts:395-418 | such a group has good document ids exactly when the original has, and then the same documents |
| CanvasBatch.ComparableIgnoresOrder | app/domain/canvas-diff.ts:563-573 | whether the documents of two groups can be compared does not depend on the order of their entities |
| PatchProject.SortedIsPhases | app/domain/canvas-diff.ts:331-333 | the stable sort puts the four phases one after the other, each in its own order |
| PatchProject.Materialize | app/domain/canvas-diff.ts:312-393 | the loop's pushes and replacements are the patch applied phase by phase |
| PatchProject.OnlyPhaseOrderMatters | app/domain/canvas-diff.ts:331-333 | the result depends only on the order within each phase |
| PatchProject.MaterializedIsGood | app/domain/canvas-diff.ts:312-393 | whatever the patch: unique node and edge ids, endpoints present, placement k belongs to node k, confidence absent or within [0, 1] |
| PatchProject.PlacementsAreApart | app/domain/canvas-diff.ts:351-359 | placements never overlap and have different ids |
| PatchProject.PlacementsFillTheGrid | app/domain/canvas-diff.ts:351-359 | the first node lies at the origin, the next 220 to the right of the one before, after six at the left again and 150 further down; each node has its own placement of one size |
| PatchProject.MaterializedHead | app/domain/canvas-diff.ts:316-330 | whatever the patch does, the project bears its title and is named after the document |
| PatchProject.ConvergesTo | app/lib/research-types.ts:46-64 | which names become which operator, and which become a member of the table prototype, exactly |
| PatchReading.NodeToldFromThePatch | app/domain/canvas-diff.ts:334-366 | which nodes there are, and that each field is what the last update gives it or else the first operation that adds the node |
| PatchReading.NodeFieldsTold | app/domain/canvas-diff.ts:363-365 | a node's title, body and tags are the last update's, or else the adding operation's; a tag list with a non-text never counts |
| PatchReading.NodeDatumTold | app/domain/canvas-diff.ts:366 | under every key a node's datum is the last update's that has the key, or else the adding operation's |
| PatchReading.EdgeToldFromThePatch | app/domain/canvas-diff.ts:367-390 | which edges there are, that their ends never move, and where each field comes from |
| PatchReading.EdgeFieldsTold | app/domain/canvas-diff.ts:385-389 | an edge's note is the last update's or else the adding operation's; its confidence is the last one given within [0, 1], or absent |
| PatchReading.TypeToldFromThePatch | app/domain/canvas-diff.ts:367-388 | an edge's type is what the last type name that converges converges to |
| ProjectGate.IsProjectState | app/lib/project-io.ts:22-89 | the loops over nodes, edges and placements accept exactly the well-formed projects |
| ProjectGate.PassesGateIff | app/lib/project-io.ts:22-89 | what passes, over the members of the lists: version and id, unique ids, known types, no edge or placement at a missing node |
| ProjectGate.MaterializedPassesIff | app/lib/project-io.ts:22-89 | a materialised project passes exactly when no edge ends up with the name of a prototype member |
| ProjectGate.ToStringEdgeIsRefused | app/lib/research-types.ts:61-64 | a well-typed patch whose project is refused |
| ProjectGate.MigrationLeavesMaterializedAlone | app/lib/project-io.ts:92-113 | migration changes no materialised project |
| ProjectGate.MigrationIsIdempotent | app/lib/project-io.ts:92-113 | migrating twice is migrating once, scenario overrides included |
| ProjectGate.MigrationConverges | app/lib/project-io.ts:92-113 | migration touches nothing but edge types, of edges and of scenario overrides, and those as their names converge |
| ProjectGate.MigratedPassesIff | app/lib/project-io.ts:115-120 | a project that passed the gate passes it again once migrated exactly when no edge type names a prototype member, and then has the five operators only |
| ProjectGate.ToStringPassesUntilMigrated | app/lib/project-io.ts:115-120 | a project that passes the gate, and no longer does once migrated |
| SurfaceDriver.Driver.CancelRuns | app/plugins/plugin-surface-continuation.ts:65-69 | a new generation, the active run aborted, no active run: the model's step |
| SurfaceDriver.Driver.StartRun | app/plugins/plugin-surface-continuation.ts:71-92 | a start, up to its first await or its end, is the model's step: everything earlier cancelled, one new run |
| SurfaceDriver.Driver.OnYield | app/plugins/plugin-surface-continuation.ts:92-94 | a resumed yield is a dispatch or the end of a run that is no longer current, as the model's step |
| SurfaceDriver.Driver.OnDispatch | app/plugins/plugin-surface-continuation.ts:94-97 | a completed dispatch is counted and its result followed up to the next await or the end, as the model's step |
| SurfaceDriver.Driver.OnFailure | app/plugins/plugin-surface-continuation.ts:98-100 | a rejected await ends a waiting run and gives up its handle |
| SurfaceDriver.EveryInterleaving | app/plugins/plugin-surface-continuation.ts:57-104 | in every interleaving at most one dispatch in flight is un-aborted, no run exceeds its dispatches, and a run returns how many it completed |
| SurfaceDriver.SupersededNeverDispatches | app/plugins/plugin-surface-continuation.ts:85-94 | a run that is not current never issues another dispatch, and one that has ended never changes |
| SurfaceDriver.StartAndCancelSupersede | app/plugins/plugin-surface-continuation.ts:65-76 | a start or cancel ends the dispatching of every earlier run and aborts those still waiting |
| SurfaceDriver.DispatchesFollowResults | app/plugins/plugin-surface-continuation.ts:85-96 | each dispatch carries the run's fixed identity, the continuation of the result before it, and time left |
| SurfaceDriver.RunsComeToAnEnd | app/plugins/plugin-surface-continuation.ts:85-98 | in every interleaving a run takes at most two steps per continuation it is allowed, and one that has taken them all is over |
| SurfaceDriver.RunsStandByTheirResults | app/plugins/plugin-surface-continuation.ts:78-98 | in every interleaving a run waits or dispatches with its last result's continuation, has returned because there is none or it is no longer current, and has thrown for a malformed result, the count used up, or the time with count left |
| SurfaceDriver.CurrentRunFollows | app/plugins/plugin-surface-continuation.ts:85-98 | a current run returns, throws Invalid, Limit or Deadline, or waits for its next dispatch, each exactly when result, count and time say so |
| SurfaceDriver.CurrentRunDispatches | app/plugins/plugin-surface-continuation.ts:92-96 | a current run that resumes issues the dispatch it waited for |
| SurfaceDriver.StartMakesTheCurrentRun | app/plugins/plugin-surface-continuation.ts:71-85 | a start makes one new run, current exactly if its first result has a continuation and count and time allow one |
| SurfaceDriver.WaitingEndsByOwnSteps | app/plugins/plugin-surface-continuation.ts:85-100 | a waiting run stops waiting where it is exactly by a step of its own |
| PluginIdentity.ComparePluginVersions | app/plugins/identity.ts:28-38 | the loop's sign says which version is older: by the three numbers, then a suffix before none, then the collation |
| PluginIdentity.SpelledOrder | app/plugins/identity.ts:22-38 | written versions are ordered by first, second and third number, then a suffix before none, then the collation of two suffixes |
| PluginIdentity.OtherPiecesAreRead | app/plugins/identity.ts:22-26 | missing pieces count as zero, a fourth does not count |
| PluginIdentity.OlderIsAsymmetric | app/plugins/identity.ts:28-38 | no two versions are each older than the other |
| PluginIdentity.NeitherOlderIff | app/plugins/identity.ts:28-38 | of two versions neither is older exactly when the three numbers agree and the suffixes are equal or, both there, collate as equal |
| PluginIdentity.NotOlderIsTransitive | app/plugins/identity.ts:28-38 | "not older" is transitive on all strings |
| PluginIdentity.SecondHyphenIsIgnored | app/plugins/identity.ts:22-26 | what follows a second hyphen does not count |
| PluginIdentity.LatestCompatiblePlugins | app/plugins/identity.ts:169-187 | the selected packages, each once, in the collation's order of their ids |
| PluginIdentity.LatestAreNewest | app/plugins/identity.ts:169-187 | exactly the ids with a compatible package are selected, each with a package no compatible one is newer than |
| PluginIdentity.SupersededIsDominated | app/plugins/identity.ts:197-208 | a superseded package is not newer than the selected one, which is another version |
| PluginIdentity.SelectedOrSuperseded | app/plugins/identity.ts:197-208 | a compatible package is superseded exactly when its version is not the selected one |
| PluginIdentity.SupersededIsOlderIff | app/plugins/identity.ts:192-208 | a superseded package is older than the selected one exactly when the two versions do not tie |
| PluginIdentity.AllSupersededAreOlderIff | app/plugins/identity.ts:192-208 | all superseded packages are older exactly when no other compatible version of an id ties with the selected one |
| PluginIdentity.SupersededNeedNotBeOlder | app/plugins/identity.ts:192-196 | two spellings of one version: the second is superseded and not older |
| PluginIdentity.UpdateEnabledPluginKeys | app/plugins/identity.ts:245-258 | the loop takes out the installed keys of the id, and puts the target's in if enabled and compatible |
| PluginIdentity.EnablingMakesItTheActiveOne | app/plugins/identity.ts:245-258 | enabling a compatible installed package makes its version the only enabled and the active one of its id; other ids keep theirs |
| PluginIdentity.DisablingLeavesNone | app/plugins/identity.ts:245-258 | disabling a package, or enabling an incompatible one, leaves its id without an active version; other ids keep theirs |
| PluginIdentity.MigratedKeyIff | app/plugins/identity.ts:229-243 | an installed package's key is migrated exactly when its version is the selected one and the id was enabled |
| PluginIdentity.OneKeyPerId | app/plugins/identity.ts:229-243 | at most one key per id after migration |
| PluginIdentity.MigrationIsIdempotent | app/plugins/identity.ts:229-243 | migrating the enabled keys a second time changes nothing |
| PluginIdentity.MigrationActivatesTheNewest | app/plugins/identity.ts:211-243 | the active versions after migration are the newest ones of exactly the enabled ids that have a compatible package |
| OperationName.ValidOperation | src-tauri/src/kernel_commands.rs:3789-3807 | the scan accepts exactly allowed bytes, lower-case first, without adjacent or final separators, up to 160 |
| OperationName.HostAgreesWithClient | app/platform/host-sdk.ts:86-90 | on every string the scan of its bytes accepts exactly the expression's language up to 160 characters |

## Left out

- CreateJob: the id is an argument, because it is a hash of path and time; two ids are not shown to differ, and a new job of another batch is taken to get an id not used yet.
- PersistCheckpoints: the size of a log's text is an arbitrary function, and which writes the disk refuses is an argument.
- MergeTruncatedOutput: works on texts already trimmed; trimming is the host's.
- CallWithRetry: backoff, jitter, streaming and the reasoning cache are not modelled.
- LatestCompatiblePlugins: ids that collate as equal may be listed in either order, and an infinite version number is not modelled. The order in which superseded packages are shown is not modelled.
- ExtractJsonSubstring: the depth is an unbounded integer; 32-bit overflow would take more than two thousand million brackets.
- DiffEntityZone: a chunk hashes its baseline entities and then its comparison entities; the source interleaves promises, which the cache makes indistinguishable. Undefined values inside an entity's data are not modelled. Which of several errors is reported is not stated.
- ComputeBatch: the constant version tag of the result is not modelled.
- Materialize: fields that are constants of a materialised project (status, provenance, timestamps, polarity) are not modelled; a confidence that is not a finite number is one out of range.
- IsProjectState: fields have their declared types, except for edge types; the checks for wrong types of other fields are not modelled.
- StartRun: the parser of the continuation envelope is a parameter, and callbacks that re-enter the driver from inside an abort listener are not modelled.
- HostAgreesWithClient: the regular expression is given as its language, not as an engine.
- cleanup_completed and the reported stage count of a job: they would add easy members only. Nothing in the program calls recovery, persisting or cleaning up while a batch runs, so the interleavings have no such steps.
- File validation, HTTP, settings, commands, dialogs and file dialogs: input and output around the modelled code.
- The supervisor's observation of a batch's health: advisory, and its code is not part of this model.
- Lock poisoning.
- The kernel's bus, policy, blob store and package gate, and every dispatcher: routing over code that is not part of this model.
- Themes, locales, icons, slots and the frontend loader: declarative data and small wrappers.
