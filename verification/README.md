# Review authority and file safety, in Dafny

A model, with proofs, of the parts of gentle-ai that have to survive crashes, retries and arbitrary orders:

* **Reviewer-artifact slots** (`Crash`, `SlotDisk`, `SlotPlans`, `SlotSafety`, `SlotAnswers`, `SlotRuns`, `ReviewerStore`). Each
  selected lens owns a payload file and a digest file. A directory is a map from path to contents and every file
  operation is one step. A call is a list of steps that may be cut off after any of them, with any of its directory
  syncs failing. The class `ReviewerStore.Store` performs the operations one step at a time, against a crash budget,
  and is proved to perform exactly the steps of the specified call.
* **FINALIZE** (`FinalizePlan`, `FinalizeAnswers`, `FinalizeJournal`, `FinalizeCrash`, `FinalizeRuns`, `FinalizeRetry`,
  `FinalizeRunner`, `FinalizeReports`). The planner, the write-ahead journal, compare-and-swap commits, the receipt, and retries. A
  revision is an injective function of the authority's state. The class `FinalizeRunner.Runner` runs the code's
  control flow against a crash budget. What a supervisor may report of a run is joined to what the run commits.
* **What a run may report** (`MutationTruth`, `ReportAnswers`, `FailureEnvelope`, `FailureAnswers`, `ReviewArguments`, `ReviewText`). The supervisor and
  the run as two processes sharing one progress pointer; the classification of error chains into failure envelopes
  and the independent validator of those envelopes; the scan of command-line flags they rely on.
* **The next transition** (`TransitionTypes`, `NextTransition`, `TransitionAnswers`, `TransitionValidator`, `TransitionAgreement`,
  `TransitionAcceptance`, `TransitionExamples`, `StatusSelector`, `ActionEligibility`, `StatusStrings`, `AuthorizationText`). The builder, its
  validators, the exact condition under which they agree, and inputs at which they part.
* **Sync** (`SyncFiles`, `SyncPaths`, `SyncDisk`): symlink resolution, snapshots, restore in the order the map yields, change reporting.
* **Backups** (`BackupFiles`, `BackupRoundTrip`, `BackupChecksum`, `BackupRetention`, `TextLines`): round trip,
  restart, duplicate detection, pruning, listing order.
* **Marker blocks** (`MarkerBlocks`): injecting an agent's block into a prompt file.
* **Receipt discovery** (`ReceiptDiscovery`, `DiscoveryAnswers`).
* `Wrappers` holds the one datatype they all share.

The modules named after answers (and `SyncPaths`) say what each operation yields, by conditions on its inputs alone and
in both directions; the others say what holds across operations, crashes and orders.

SHA-256 is taken to be injective: on all content in the slots, and on the file contents at hand for backups.

## Where the code falls short of what it promises

For each of these there is a lemma at the failing input, or at a whole family of failing inputs, beside a theorem that
says exactly when the property holds.

| what fails | failing inputs | exactly when it holds |
|---|---|---|
| A payload over the size limit, published just before a crash, blocks its slot for good, although the comment on capturing promises convergence | `SlotSafety.OversizedPayloadWedgesSlot` | `SlotSafety.CaptureAckedIffAdmits` |
| The failure envelope of a process-control error whose text is long or has more than one line, or of a scope change over more than a million paths, is refused by its own validator | `FailureEnvelope.UnreportableErrors` | `FailureEnvelope.EnvelopeValidIff` |
| An authorized recovery of a correction over a staged overlay is built without naming the staged projection, and refused | `StatusSelector.StagedCorrectionRecoveryIsRefused` | `StatusSelector.StagedIsSaidIff` |
| Reviewer results are requested while the live target no longer is the frozen one, and the request is refused | `TransitionExamples.MovedTargetIsRefused` | `TransitionAgreement.BuilderMeetsValidators` |
| A recovery with a blank reason or actor, for a successor that is no lineage or the predecessor again, or over a base that Git resolves but that is not one word, is built and refused | `TransitionExamples.UnspellableRecoveriesAreRefused` | `TransitionExamples.SignedIsRefusedIff`, `TransitionAgreement.BuilderMeetsValidators` |
| A backup of no existing files is documented as deduplicated and never is: the checksum of nothing is empty, and matches nothing | `BackupRetention.NoFilesNeverSkipped` | `BackupRetention.SameFilesSkipIff` |
| Whether a sync restore succeeds depends on the order the map yields: where a directory and a file in it have appeared at two managed paths that were absent, the directory goes only after the file | `SyncFiles.OrderMatters` | `SyncFiles.RestoreInAnyOrder`; in a given order, `SyncFiles.RestoreInOrder` |
| An unchanged dangling link is reported as changed, and one whose end has become an empty file is not | `SyncFiles.DanglingLinksAreMisreported` | `SyncFiles.ReportedIff` |
| Injecting an agent twice is not idempotent when its text contains its own end marker | `MarkerBlocks.TitledWithItsEndMarker` | `MarkerBlocks.InjectAgentTwiceIff` |
| A restore that was stopped cannot be rerun once it has put back a file over 16 MiB, or a file inside a directory that is itself listed | `BackupRoundTrip.OversizedStopsRestart`, `BackupRoundTrip.ListedDirectoryStopsRestart` | `BackupRoundTrip.RestartReachesSame` |
| A linked file is backed up, but a restore refuses it while it is a link, and makes it a regular file once the link is gone | `BackupRoundTrip.LinkIsBackedButNotRestored` | `BackupRoundTrip.LinksAreRestoredOnceGone`, `BackupRoundTrip.RoundTrip` |
| A listed path that is now a directory with something in it stops the restore | `BackupRoundTrip.FullDirectoryStopsRestore` | `BackupRoundTrip.RoundTrip` |

## Model

| member | source | states |
|---|---|---|
| SlotRuns.ReachableInv | internal/cli/review_artifact.go:361-420 | In every state reachable by captures, rejections, failed syncs and crashes at any step, a slot digest exists only beside a payload that hashes to it, or is rejected and the archive holds those bytes with their digest |
| SlotSafety.CaptureKeepsInvAtCrash | internal/cli/review_artifact.go:361-420 | A capture cut off at any step, with any directory syncs failing, keeps that invariant |
| SlotSafety.CaptureNeverOverwrites | internal/cli/review_artifact.go:523-550 | At every crash point of a capture the bytes that were in the slot are still there, or the archive holds them; new bytes never replace others that are not archived |
| SlotSafety.CaptureConverges | internal/cli/review_artifact.go:422-493 | After a crash anywhere in an admissible capture, the same capture is admitted, is acknowledged, and leaves exactly the directory an undisturbed one would have left |
| SlotSafety.CaptureAckedIffAdmits | internal/cli/review_artifact.go:361-420 | An acknowledged capture has the slot holding exactly its bytes and their digest; without failing syncs it is acknowledged if and only if the settled slot is empty or holds the same bytes and they are within the limit |
| SlotSafety.ArchiveAtCrash | internal/cli/review_artifact.go:426-493 | At every crash point of archiving the invariant holds and what archiving is meant to achieve is unchanged, so no rejected bytes are lost and a slot that is not rejected is untouched |
| SlotSafety.ArchiveConverges | internal/cli/review_artifact.go:422-493 | From any crash point of any earlier attempt a further archive step is acknowledged and ends in the same state, slot empty and archive complete; running it again has no steps left |
| SlotSafety.OversizedPayloadWedgesSlot | internal/cli/review_artifact.go:361-420 | A payload over the limit, published before a crash, makes every later capture fail |
| SlotAnswers.RejectedBytesAreArchived | internal/cli/review_artifact.go:426-493 | When the slot's bytes are within the limit and their digest is rejected, an acknowledged archive step leaves neither slot file, and the archive holds those bytes with their digest; without failing syncs it is acknowledged, and no other path changes |
| SlotAnswers.LoneDigestIsCleared | internal/cli/review_artifact.go:426-493 | A digest left alone in the slot is removed by an acknowledged archive step, and the archive holds the bytes it names |
| SlotAnswers.OtherSlotsAreLeftAlone | internal/cli/review_artifact.go:422-453 | A slot that is empty or whose bytes are not rejected is left alone, acknowledged unless its bytes are over the limit |
| SlotAnswers.CaptureAnswers | internal/cli/review_artifact.go:361-420 | Without failing syncs a capture is acknowledged if and only if its bytes are within the limit and the slot has no payload, or one within the limit that is rejected or the same; otherwise it says too large or conflict |
| SlotAnswers.CaptureLeaves | internal/cli/review_artifact.go:361-420 | An acknowledged capture leaves the slot with its bytes and their digest, rejected bytes archived with theirs, and every other path as it was |
| SlotAnswers.NothingIsLeftOver | internal/cli/review_artifact.go:523-550 | A capture that is not cut off leaves no temporary file behind, whatever it answers and whichever syncs fail |
| SlotRuns.AcknowledgedStays | internal/cli/review_artifact.go:642-682 | A result acknowledged and not rejected keeps its bytes and digest, and stays listed, through any later captures, rejections of other slots and crashes |
| SlotRuns.RejectedBytesSurvive | internal/cli/review_artifact.go:426-493 | Once rejected, bytes are in the slot, or in the archive with their digest, after any history of captures, rejections and crashes at any step |
| SlotRuns.Discover | internal/cli/review_artifact.go:642-682 | Discovery never fails on a directory with the slot invariant, and returns exactly the slots with a digest that is not rejected, ascending, each reading back |
| SlotRuns.ReportIsUnique | internal/cli/review_artifact.go:642-682 | That description determines the report |
| ReviewerStore.Store.PublishImmutable | internal/cli/review_artifact.go:523-550 | Publication without replacement performs exactly the planned steps, up to the crash |
| ReviewerStore.Store.ArchiveRejected | internal/cli/review_artifact.go:426-493 | Archiving performs exactly the steps of its plan, up to the crash |
| ReviewerStore.Store.RecordDigest | internal/cli/review_artifact.go:552-587 | Recording a digest performs exactly the steps of its plan, accepting an existing digest only if it is the same |
| ReviewerStore.Store.CaptureResult | internal/cli/review_artifact.go:361-420 | Capturing performs the archive and store steps up to the crash, keeps the invariant, never overwrites, and acknowledges only the intended directory |
| FinalizePlan.PreparePlan | internal/cli/review_facade.go:1624-1691 | One pass over the four transitions computes the iteration of the single next transition until none applies, and the candidate and evidence that go with it |
| FinalizePlan.ReplanYieldsRest | internal/cli/review_facade.go:1624-1691 | Planning again after any proper non-empty part of a plan, with the same inputs, gives exactly the rest |
| FinalizePlan.NoPlanBeginsAndCompletes | internal/cli/review_facade.go:1624-1691 | No plan both begins and completes a correction |
| FinalizePlan.ReplanAtEnd | internal/cli/review_facade.go:1439-1457 | Planning again from the end of a plan asks for nothing more exactly unless the plan ended by beginning a correction and the request carries a validation; that is what the early return at the last journalled transition prevents |
| FinalizePlan.PlanClimbs | internal/cli/review_facade.go:1624-1691 | Along a plan the rank of the authority strictly increases, so no authority recurs |
| FinalizeAnswers.VerificationDecides | internal/cli/review_facade.go:1672-1686 | A completed verification approves exactly when the request does not say it failed and escalates exactly when it does; its evidence is the supplied one, or for a native low-risk candidate the generated one |
| FinalizeAnswers.ReviewDecides | internal/cli/review_facade.go:1630-1639 | A completed review records its results and goes exactly where their verdict says: escalated, to a correction of exactly those findings, or to validation |
| FinalizeAnswers.ForecastDecides | internal/cli/review_facade.go:1640-1645 | A begun correction records its forecast and escalates exactly when that exceeds the budget |
| FinalizeAnswers.CorrectionDecides | internal/cli/review_facade.go:1646-1671 | A completed correction, first in its plan, of a bound live fix with a validation of just that fix, escalates exactly when the validation failed or the budget is exceeded, and else goes to validation; the attempt and its lines are spent |
| FinalizeAnswers.WhatFollows | internal/cli/review_facade.go:1624-1691 | After any part of a plan, exactly when each of the four transitions follows |
| FinalizeAnswers.RefusedIff | internal/cli/review_facade.go:1624-1691 | Exactly which requests get no plan |
| FinalizeAnswers.ApprovedIff | internal/cli/review_facade.go:1624-1691 | A plan ends in approval if and only if it ends with a verification that did not fail |
| FinalizeJournal.RequestDeterminesPlan | internal/cli/review_facade.go:1592-1609 | The plan can be recovered from the journalled request alone |
| FinalizeJournal.ReplayPlansRest | internal/cli/review_facade.go:1433-1457 | A request whose payload matches the journalled one, made at an intermediate revision, plans exactly what is left of the journalled plan |
| FinalizeRuns.AdmissionOfAny | internal/reviewtransaction/finalize_attempt_journal.go:151-213 | Any request, at any revision, is admitted to the attempt journalled for exactly it; or else afresh when nothing is pending; or else to the pending attempt if the payload is the same and was given at the entry or a journalled revision; or else is a mismatch |
| FinalizeCrash.ExecutingIsSafe | internal/cli/review_facade.go:1500-1564 | Executing the rest of a plan keeps the invariant at every crash point, commits only what was left and in its order, and undisturbed commits all of it and completes the attempt |
| FinalizeRuns.RunIsSound | internal/cli/review_facade.go:1232-1566 | Any run on any inputs either touches nothing or is sound for what is owed: every crash point commits a leading part of it, and an undisturbed run all of it |
| FinalizeRuns.RunAtCrash | internal/cli/review_facade.go:1232-1566 | A run cut off anywhere commits a leading part of what is owed, in order, nothing else, and keeps the invariant |
| FinalizeRuns.ReachableInv | internal/cli/review_facade.go:1433-1564 | After any runs with any inputs and crashes the committed history strictly climbs, at most one attempt is pending and it has committed a prefix of its plan, none before all was journalled, and a receipt on disk is the one of the terminal authority |
| FinalizeRuns.TerminalIsFrozen | internal/cli/review_facade.go:1336-1367 | No runs ever change a terminal authority |
| FinalizeRetry.AgainIsAdmitted | internal/reviewtransaction/finalize_attempt_journal.go:151-213 | The same request is admitted wherever it was cut off, and owes exactly what is missing |
| FinalizeRetry.RetryFinishes | internal/cli/review_facade.go:1433-1564 | One request run any number of times, each run dying at any step, has committed a prefix of its one plan; one undisturbed run more commits exactly the missing rest, leaves nothing pending, and a review that ended has the derived receipt |
| FinalizeRunner.Runner.JournalPlan | internal/reviewtransaction/finalize_attempt_journal.go:231-246 | Journalling a plan performs one step per transition, each naming the revision the previous one plans, up to the crash |
| FinalizeRunner.Runner.CommitPlan | internal/cli/review_facade.go:1515-1537 | Committing performs one compare-and-swap per transition, each on the revision the previous one produced, up to the crash; from the authority the plan begins with every swap counted has succeeded, and the history has grown by exactly those |
| FinalizeRunner.Runner.Finalize | internal/cli/review_facade.go:1232-1566 | The runner performs the steps of a FINALIZE run up to the crash; whatever the crash it has committed a leading part of what was owed, and a run that reports success has settled it |
| MutationTruth.ReportsAreTruthful | internal/cli/review_facade.go:248-301 | In every interleaving of commits, counting, publishing, deadline and replies, a reported failure that says not started means this run committed nothing and has returned; one that says committed means the authority is terminal |
| MutationTruth.JoinedRepliesLast | internal/cli/review_facade.go:280-301 | A mutating operation that is waited for is reported only after it has returned |
| MutationTruth.RepliesOnce | internal/cli/review_facade.go:248-301 | Once given, a reply never changes |
| ReportAnswers.ResultIsReplied | internal/cli/review_facade.go:271-286 | The result of a run is replied as it is: success exactly without an error and before the deadline, or for a binding; after it a timeout |
| ReportAnswers.DeadlineIsReplied | internal/cli/review_facade.go:280-293 | At the deadline the reply is a timeout; with a published transition it says that one was committed and asks for the status, without one nothing is known if the operation may mutate |
| ReportAnswers.JoinsIff | internal/cli/review_facade.go:271-280 | Exactly which operations are waited for at the deadline |
| ReportAnswers.EventsChange | internal/cli/review_facade.go:248-301 | Exactly what each event of the run and its supervisor changes, whatever came before |
| ReportAnswers.FailuresSayProgress | internal/cli/review_facade.go:1232-1245 | A run that fails after it counted a transition says so in its error, and else returns the error alone |
| ReportAnswers.PublishedIsCounted | internal/cli/review_facade.go:1515-1537 | What is published is what was counted, but for the transition being counted; without a publication at most one transition was committed |
| FinalizeReports.ReportsOfARun | internal/cli/review_facade.go:1515-1537 | However a supervisor's steps fall among those of a FINALIZE run with any inputs, cut off anywhere: the commits it counts are the transitions the run added to the history; not started is reported only if it added none, committed only if the authority it left is terminal |
| FinalizeReports.EveryRunIsWatched | internal/cli/review_facade.go:1515-1537 | Every such run is one the supervisor can watch: no transition follows a terminal authority |
| ReviewText.CheckLineage | internal/cli/review_operation_contract.go:751-766 | The character loop accepts exactly the valid lineages |
| ReviewArguments.SafeArguments | internal/cli/review_operation_contract.go:638-693 | The index loop over flags returns what parsing one flag at a time gives, last value winning, or gives up at the first malformed flag |
| ReviewArguments.ParsedFromArguments | internal/cli/review_operation_contract.go:638-693 | Every value reported was given on the command line: inline, by the presence of a boolean flag, or as the argument after any other flag |
| ReviewArguments.ReadOnlyOnlyByRequest | internal/cli/review_operation_contract.go:715-728 | A mutating operation counts as read-only only when all flags are well formed and a repair was explicitly asked for a preflight |
| ReviewArguments.FlagsAre | internal/cli/review_operation_contract.go:638-693 | Exactly which flags take a number and which are switches |
| ReviewArguments.ValueFlagsAre | internal/cli/review_operation_contract.go:638-693 | Every other declared flag, and the contract version, takes a value |
| ReviewArguments.IntsParseIff | internal/cli/review_operation_contract.go:638-693 | A number is accepted exactly when it fits 64 bits, with or without a sign |
| FailureEnvelope.EnvelopeValidIff | internal/cli/review_operation_contract.go:228-563 | An error the producers can build gets an envelope that passes its own validator if and only if its process-control text fits the message and its scope has at most a million paths |
| FailureEnvelope.UnreportableErrors | internal/cli/review_operation_contract.go:768-872 | Both exceptions are real |
| FailureEnvelope.OffersAreSound | internal/cli/review_operation_contract.go:768-872 | An unknown outcome offers no retry but the bound repair replay; an exact replay names lineage and request and something was or may have been committed |
| FailureEnvelope.CommittedCauses | internal/cli/review_operation_contract.go:228-563 | Committed is reported exactly for a receipt or binding that waits for its publication and for a repair whose record is committed |
| FailureAnswers.KindsDecideInOrder | internal/cli/review_operation_contract.go:228-563 | Of the kinds of causes an error contains, the first in the fixed order decides |
| FailureAnswers.OutermostDecides | internal/cli/review_operation_contract.go:228-563 | Of the causes of that kind the outermost decides |
| FailureAnswers.OutcomeIs | internal/cli/review_operation_contract.go:228-563 | Exactly when the mutation is reported as committed, unknown or not started, by the deciding cause, its fields and the operation |
| FailureAnswers.ReplayIs | internal/cli/review_operation_contract.go:228-563 | Exactly when a retry is called safe, an exact replay is offered, the status is asked for, or nothing can be replayed |
| FailureAnswers.NextIs | internal/cli/review_operation_contract.go:228-563 | Exactly when each review command is named as the next action |
| FailureAnswers.NextForPeopleIs | internal/cli/review_operation_contract.go:228-563 | Exactly when the caller is told to ask a maintainer, proceed, retry, back off or correct the request |
| FailureAnswers.PhaseIs | internal/cli/review_operation_contract.go:228-563 | Exactly when the operation is said to have committed natively, to be running, to need reconciliation or to have failed in preflight |
| FailureAnswers.ApplicabilityIs | internal/cli/review_operation_contract.go:228-563 | Exactly when the report is about the current, an unrelated, an ambiguous or a corrupted authority |
| FailureAnswers.CodeIs | internal/cli/review_operation_contract.go:228-449 | Exactly which code the native failures and the timeouts get |
| FailureAnswers.RequestCodeIs | internal/cli/review_operation_contract.go:450-497 | Exactly which code a bad request, a legacy authority and a lock get: a lock that timed out and one that was cancelled are told apart |
| FailureAnswers.GateCodeIs | internal/cli/review_operation_contract.go:498-551 | A gate denial and a failed discovery are reported with exactly their result or kind |
| FailureAnswers.NamesAre | internal/cli/review_operation_contract.go:228-563 | The report names the lineage, request and record its cause carries, and else the lineage safely read from the arguments |
| FailureAnswers.InputsAre | internal/cli/review_operation_contract.go:228-563 | Which inputs are asked for and which conflict or changed scope is shown |
| FailureAnswers.OperationsAre | internal/cli/review_operation_contract.go:47-56 | Which operations mutate, are waited for and may be retried after a timeout, and that only a well-formed preflight of a repair exempts one |
| FailureAnswers.SafeLineageIs | internal/cli/review_operation_contract.go:623-636 | A lineage is named exactly when the arguments are well formed and give it, valid, for the right flag |
| FailureAnswers.InspectIs | internal/cli/review_facade.go:1736-1752 | A receipt counts as there exactly when it is the expected one, and as missing exactly when nothing is there |
| FailureAnswers.PublicationIs | internal/cli/review_facade.go:1754-1764 | A failed publication needs a maintainer exactly when an immutable conflict caused it |
| FailureAnswers.AcceptedOffer | internal/cli/review_operation_contract.go:768-872 | An accepted envelope of unknown outcome asks for the status or is a repair's bound replay; one that offers an exact replay names who, what and how |
| FailureAnswers.AcceptedNames | internal/cli/review_operation_contract.go:768-872 | What an accepted envelope names is well formed and goes together, and its message is one trimmed line within the limit |
| FailureAnswers.AcceptedContext | internal/cli/review_operation_contract.go:768-872 | A changed scope is shown only by a validation reporting it, complete; a binding conflict only by a binding reporting it |
| FailureEnvelope.RejectedReceiptNeedsMaintainer | internal/cli/review_facade.go:1736-1764 | A different or unreadable receipt on disk yields a valid envelope that asks for a maintainer and offers no replay, with or without a request digest |
| TransitionAgreement.BuilderMeetsValidators | internal/cli/review_next_transition.go:81-203 | For every assessed status and prepared request, whatever the caller typed, the transition passes both validators if and only if: when a recovery is signed it is spellable, and when reviewer results are missing the live target is the frozen one; both guards are said of the inputs, and everything else that is built is accepted |
| TransitionAgreement.DecisionsAre | internal/cli/review_next_transition.go:81-203 | The builder asks for results, authorizes a recovery or shows a receipt exactly under those guards |
| TransitionAnswers.ReviewingDecides | internal/cli/review_next_transition.go:125-134 | While reviewing: exactly when captured results are taken up, missing ones are asked for, or the review stops |
| TransitionAnswers.CorrectingDecides | internal/cli/review_next_transition.go:135-154 | While a correction is required: exactly when its validation, its candidate or its plan is asked for |
| TransitionAnswers.ValidatingDecides | internal/cli/review_next_transition.go:155-165 | While validating: evidence that was captured is taken up, without it a low risk is verified natively, and without either it is asked for, each exactly then |
| TransitionAnswers.ApprovedDecides | internal/cli/review_next_transition.go:168-194 | Once approved: exactly when the receipt is shown to the gate, cannot be, is published again, or a gate is asked for |
| TransitionAnswers.RecoveringDecides | internal/cli/review_next_transition.go:369-437 | Exactly when a recovery is of an unchanged target, cannot be spelled, is authorized, or asks for authorization |
| TransitionAnswers.StopsAre | internal/cli/review_next_transition.go:104-124 | Exactly when an authority is missing, has to be reconciled or retried, or stops the review |
| TransitionAnswers.OthersAre | internal/cli/review_next_transition.go:82-103 | Without a current authority: exactly when a review is started, a lineage selected, a repair run or asked for, or nothing can be done |
| TransitionAnswers.ReasonsMean | internal/cli/review_next_transition.go:81-203 | The reason determines the operation that is run or the inputs that are asked for, and with every other reason there is neither |
| TransitionAnswers.BindsAuthority | internal/cli/review_next_transition.go:107-111 | An operation on the current authority is bound to its lineage and revision, and to the authority's own target while validating and the live one otherwise |
| TransitionAnswers.FinalizeCarries | internal/cli/review_next_transition.go:125-190 | A request to finalize names the lineage and takes up the captured results while reviewing, the captured evidence while validating with some, and nothing otherwise, under the preconditions of that state |
| TransitionAnswers.ValidateCarries | internal/cli/review_next_transition.go:168-186 | A receipt is shown to the gate asked for, or before a commit by default, with the base before a pull request only |
| TransitionAnswers.RecoverCarries | internal/cli/review_next_transition.go:369-437 | An authorized recovery carries exactly what was authorized, the authority's disposition and the flags that select the target again |
| TransitionAnswers.StartCarries | internal/cli/review_next_transition.go:299-315 | A fresh review is started on the live target with the projection, base and flags of its kind |
| TransitionAgreement.RecoveryAgreesIff | internal/cli/review_next_transition.go:369-437 | A recovery is accepted if and only if, when it is signed, it names a proper successor, people, a base a command can carry and the staged projection when there is one |
| TransitionAgreement.RecoverExecutionValidIff | internal/cli/review_status_contract.go:867-912 | The validator of a recover execution accepts the built one if and only if the successor is a lineage other than the predecessor and the base is a proper selector |
| TransitionAgreement.ReviewingAgreesIff | internal/cli/review_next_transition.go:239-275 | While reviewing, the transition is accepted if and only if, when some result is missing, the live target is the frozen one |
| TransitionAgreement.MissingInputsAre | internal/cli/review_next_transition.go:239-254 | The inputs asked for are exactly those of the lenses without a captured result, in selected order |
| TransitionAgreement.RepairAgrees | internal/cli/review_next_transition.go:317-348 | A repair, signed or not, always passes the transition validator and the repair validator, which looks for every field of the repair assessment by name |
| TransitionAgreement.RetryAgrees | internal/cli/review_next_transition.go:439-458 | A verification retry always passes the transition validator and the retry validator, which looks for every field of the retry proof by name |
| TransitionTypes.ArgumentMap | internal/cli/review_status_contract.go:825-834 | The argument map exists exactly when no name repeats, and then looks every name up |
| TransitionAcceptance.AcceptedCapture | internal/cli/review_status_contract.go:758-776 | An accepted request for a reviewer result is for exactly one lens of one frozen target: it has just the six arguments of its subject, whose diff and manifest it shows |
| TransitionAcceptance.AcceptedInput | internal/cli/review_status_contract.go:745-790 | Of any accepted input: nothing repeated or blank, frozen material with results only, a validation request only with its validation |
| TransitionAcceptance.AcceptedExecution | internal/cli/review_status_contract.go:792-818 | Of any accepted execution: a target, preconditions, an authority but for a start, nothing repeated or blank |
| TransitionAcceptance.AcceptedValidate | internal/cli/review_status_contract.go:852-866 | An accepted validation has its lineage, a gate and before a pull request perhaps a one-word base, and no other argument |
| TransitionAcceptance.AcceptedRecover | internal/cli/review_status_contract.go:867-912 | An accepted recovery names its authority, a proper other successor and the text for exactly this recovery, and has no other arguments than those required and the selectors |
| TransitionAcceptance.AcceptedRecoverFlags | internal/cli/review_status_contract.go:876-910 | Its flags go together, and the selectors shown are exactly those among the arguments |
| TransitionAcceptance.AuthorizationIsForOneRecovery | internal/cli/review_status_contract.go:867-912 | Two accepted recoveries with the same authorization text recover the same revision of the same authority over the same target into the same successor |
| TransitionAcceptance.AcceptedUnrelated | internal/cli/review_status_contract.go:466-478 | For an unrelated target only a fresh review of it is accepted, or the stop for a staged overlay |
| TransitionAcceptance.AcceptedTarget | internal/cli/review_status_contract.go:479-487 | Any other accepted execution is bound to the authority's target while it validates and else to the live one |
| TransitionAcceptance.AcceptedRecoverTarget | internal/cli/review_status_contract.go:523-587 | The flags of an accepted recovery select the target of the status: its kind, its base and its projection |
| TransitionAcceptance.AcceptedFor | internal/cli/review_status_contract.go:500-520 | Accepted results are for the frozen initial target and its paths, accepted evidence for the authority's target |
| TransitionAcceptance.AcceptedRepairRequest | internal/cli/review_status_contract.go:651-702 | With a repair assessed nothing is accepted but to ask for it, with exactly its six fields, or to run it |
| TransitionAcceptance.AcceptedRepair | internal/cli/review_status_contract.go:651-702 | An accepted repair is of the assessed authority, with exactly those fields, the people and the authorization |
| TransitionAcceptance.AcceptedRepairProceeds | internal/cli/review_status_contract.go:651-702 | It runs under exactly the preconditions that its candidate is eligible, unique and still the head |
| TransitionAcceptance.AcceptedRetry | internal/cli/review_status_contract.go:624-649 | With a retry proof nothing is accepted but to ask for its authorization, with exactly its eight fields |
| TransitionExamples.MovedTargetIsRefused | internal/cli/review_status_contract.go:466-521 | At a concrete status, as assessed while reviewing, whose live target differs from the frozen one, results are requested and refused |
| TransitionExamples.UnspellableRecoveriesAreRefused | internal/cli/review_next_transition.go:460-466 | At a concrete status, as assessed once invalidated, recoveries with a blank reason or actor, an improper successor or a base of several words are authorized and refused, and the proper one is not |
| TransitionAgreement.UnspellableBaseStops | internal/cli/review_facade.go:462-469 | Before a pull request, a base that is not one word is not one a remote advertises, so the builder stops instead of showing a receipt |
| StatusSelector.StagedCorrectionRecoveryIsRefused | internal/cli/review_facade.go:462-517 | With the selector the status command derives, an authorized recovery of a correction over a staged overlay is always built and always refused |
| StatusSelector.DerivedIs | internal/cli/review_facade.go:507-524 | Exactly when the status command lets a recovery select its target again, and when it names the projection |
| ActionEligibility.Classify | internal/cli/review_status_contract.go:222-295 | One pass allows the one action and forbids every other managed action exactly once, with the reason the status gives |
| ActionEligibility.ClassificationIsValid | internal/cli/review_status_contract.go:920-958 | What is built passes its own validator and classifies every managed action exactly once |
| ActionEligibility.AcceptedClassification | internal/cli/review_status_contract.go:920-958 | Any accepted classification allows one action, mentions every managed action exactly once, and binds only recoveries and retries, to the current authority |
| ActionEligibility.AllowedIs | internal/cli/review_status_contract.go:222-270 | Exactly which action a status allows and for which reason: a validation and a finalization that is no exact replay wait for inputs |
| ActionEligibility.AllowedCarries | internal/cli/review_status_contract.go:222-270 | How many inputs the allowed action asks for, and the disposition and authority it is bound to |
| ActionEligibility.ForbiddenIs | internal/cli/review_status_contract.go:271-287 | Exactly why everything else is forbidden |
| StatusStrings.SortedStrings | internal/cli/review_status_contract.go:1017-1025 | The in-place insertion sort returns a sorted permutation |
| StatusStrings.CanonicalIffSorted | internal/cli/review_status_contract.go:987-1015 | A path list equals its sorted copy if and only if it is sorted |
| AuthorizationText.BindingIsUnambiguous | internal/cli/review_next_transition.go:460-474 | Whatever the actor and the reason contain, equal texts have equal lineage, revision, target and successor |
| AuthorizationText.AuthorizationIsUnambiguous | internal/cli/review_next_transition.go:460-474 | With no newline before the reason, equal authorization texts have equal lineage, revision, target, successor, actor and reason |
| AuthorizationText.NewlineInActorIsAmbiguous | internal/cli/review_next_transition.go:468-474 | That condition is needed: with a newline in the actor, two different pairs of actor and reason share one text |
| SyncFiles.ResolutionIsExact | internal/cli/sync.go:1117-1147 | Resolution ends at the first location that is not a link, and fails exactly when every location of the chain is a link |
| SyncFiles.ResolveTarget | internal/cli/sync.go:1117-1147 | The loop with a set of seen links terminates on every file system and returns that end |
| SyncPaths.CleanAppends | internal/cli/sync.go:1117-1147 | Cleaning a path is cleaning its parts in turn |
| SyncPaths.CleanKeepsPlain | internal/cli/sync.go:1117-1147 | Plain segments are kept |
| SyncPaths.DotsChangeNothing | internal/cli/sync.go:1117-1147 | A segment that is empty or a dot changes nothing, wherever it stands |
| SyncPaths.UpTakesBack | internal/cli/sync.go:1117-1147 | Two dots take back the plain segment before them, and at the root nothing |
| SyncPaths.CleanIsPlain | internal/cli/sync.go:1117-1147 | A cleaned path has only plain segments |
| SyncPaths.RelativeIsJoined | internal/cli/sync.go:1142-1145 | A relative link leads where the absolute one does that spells out the link's directory first |
| SyncPaths.LinksLead | internal/cli/sync.go:1138-1145 | An absolute link of plain segments leads to exactly them, a relative one to its directory followed by them, and a leading pair of dots one directory up |
| SyncPaths.SnapshotIs | internal/cli/sync.go:1064-1115 | A snapshot says absent, file or link exactly when that is there, and of a link the end of its chain with what is read there |
| SyncPaths.SiblingLinks | internal/cli/sync.go:1064-1147 | A relative link to a regular file beside or below it resolves to that file, and its snapshot holds that file's bytes and mode |
| SyncFiles.TakeSnapshots | internal/cli/sync.go:1064-1115 | Every path gets its own snapshot, or one of them cannot be taken: a directory, a path through a file, or a chain that is a cycle or ends so |
| SyncFiles.DedupPaths | internal/cli/sync.go:1027-1043 | The seen-set loop keeps the first occurrences |
| SyncFiles.DedupIsExact | internal/cli/sync.go:1027-1043 | Nothing repeats, and exactly the given, not skipped paths remain |
| SyncFiles.RestoreInOrder | internal/cli/sync.go:1149-1194 | In a given order of the map, restore succeeds exactly when each entry in turn does: nothing that earlier entries have not touched makes its path a full directory or a path through a file, what it writes is a regular file within the limit, and the directory of a link exists or was made on the way to a file. Then every managed path and resolved target is back in content and mode, missing directories on the way to written files are made, and no other location changed, even when paths alias; and even when it fails every location is as it was, as it is, or such a directory |
| SyncFiles.RestoreInAnyOrder | internal/cli/sync.go:1149-1194 | Restore succeeds in every order, with that effect, if and only if each entry would succeed as the first and no file written twice is over the size limit |
| SyncFiles.OrderMatters | internal/cli/sync.go:1149-1194 | With a directory and a file in it at two paths that were absent, one order removes both and the other leaves the directory |
| SyncFiles.ReportedIff | internal/cli/sync.go:1196-1215 | A path is reported changed exactly when what it reads as differs, but for dangling links |
| SyncFiles.DanglingLinksAreMisreported | internal/cli/sync.go:1196-1215 | An unchanged dangling link is reported, and one at whose end an empty file appeared is not |
| SyncDisk.Disk.WriteAtomic | internal/components/filemerge/writer.go:42-111 | A write succeeds unless the target is a link, a directory, too large to compare, or below something that is no directory; it sets one location and makes the directories on the way, or changes nothing |
| SyncDisk.Disk.Restore | internal/cli/sync.go:1149-1194 | The in-place restore takes the entries in some order and succeeds exactly when they do in that order, with the effect just stated; it always succeeds when every order does |
| SyncDisk.Disk.Changed | internal/cli/sync.go:1196-1215 | Exactly the changed candidates are reported, once each, or a candidate cannot be read |
| BackupFiles.Create | internal/backup/snapshot.go:30-137 | One loop yields the manifest, count and archive of the listed paths, links followed; the backup is uncompressed exactly when no file was recorded |
| BackupFiles.Extract | internal/backup/compression.go:91-165 | Streaming extraction yields the map in which the last member of a name wins |
| BackupFiles.ArchiveNamesAreInjective | internal/backup/snapshot.go:98-137 | Different absolute paths get different archive names, but for the root and the file that spells it |
| BackupFiles.RestoredEntryIs | internal/backup/restore.go:129-159 | A restored file has its bytes and with them its recorded mode, or 0644 without one; bytes that were there keep their mode; an absent path is gone; nothing else changes |
| BackupRoundTrip.RoundTrip | internal/backup/restore.go:49-159 | For any listed paths and any two file systems, a restore succeeds exactly when each entry in turn is accepted: its path is under home, nothing makes it a full directory or a path through a file, what is overwritten is a regular file within the limit, and a link to be removed leads nowhere or stays under home; then every listed path that led to a regular file is one with its bytes, every other listed path is gone, and no other location changed |
| BackupRoundTrip.RestartReachesSame | internal/backup/restore.go:59-122 | A restore stopped after any number of entries and rerun succeeds exactly when each of those entries can be repeated, its file not over the comparison limit and no file put back in the way; and then the result is, modes included, that of a restore that never stopped |
| BackupRoundTrip.OversizedStopsRestart | internal/components/filemerge/writer.go:113-139 | A file over the comparison limit that is gone restores once, and then stops the rerun |
| BackupRoundTrip.ListedDirectoryStopsRestart | internal/backup/snapshot.go:110-115 | A listed directory, recorded as absent, stops the rerun once a file inside it was put back |
| BackupRoundTrip.FullDirectoryStopsRestore | internal/backup/restore.go:94-96 | A listed path that is now a directory with an unlisted file in it stops the restore |
| BackupRoundTrip.LinkIsBackedButNotRestored | internal/backup/snapshot.go:98-137 | A link to a regular file is recorded with that file's bytes and mode, and cannot be restored while nothing has changed |
| BackupRoundTrip.LinksAreRestoredOnceGone | internal/backup/restore.go:129-159 | Among any listed paths, a backed link that still is a link stops the restore; once it is gone it is restored as a regular file with the bytes and mode of its end |
| BackupFiles.Home.Restore | internal/backup/restore.go:49-159 | The loop over entries, with its home check, removal and write, has exactly the specified effect, and on failure has restored a leading part |
| BackupChecksum.ComputeChecksum | internal/backup/retention.go:32-78 | The checksum is that of the sorted lines of existing regular files, or absent when there is none |
| BackupChecksum.ChecksumIgnoresOrder | internal/backup/retention.go:32-78 | Permuted targets have the same checksum |
| BackupChecksum.SameFilesSameChecksum | internal/backup/retention.go:32-78 | The same existing paths with the same bytes have the same checksum, in any order and on any two file systems |
| BackupChecksum.ChecksumDeterminesFiles | internal/backup/retention.go:32-78 | For newline-free paths, equal checksums mean the same existing paths with the same bytes |
| BackupChecksum.NewlinePathCollides | internal/backup/retention.go:54-77 | A path with a newline can imitate two files |
| BackupRetention.IsDuplicate | internal/backup/retention.go:90-117 | The scan compares with the first newest backup, and an absent checksum is never a duplicate |
| BackupRetention.SkippingIsSound | internal/cli/run.go:623-637 | When the step skips, the newest backup holds every existing target byte for byte |
| BackupRetention.SameFilesSkipIff | internal/backup/snapshot.go:71-86 | When the files are those the newest backup was made from, the step skips if and only if at least one of them exists |
| BackupRetention.SkipsIff | internal/cli/run.go:623-637 | The step skips if and only if some target exists and the existing targets are, path for path and byte for byte, the files the newest backup was made from |
| BackupRetention.Prune | internal/backup/retention.go:131-170 | No pinned backup is deleted, at most the given number of unpinned ones is kept, none kept is older than one deleted, and what cannot be deleted is not reported deleted |
| BackupRetention.NewestSurvives | internal/cli/run.go:639-669 | A strictly newest backup survives pruning |
| BackupRetention.BackupRoot.Prepare | internal/cli/run.go:623-669 | After any runs of the step, it skips exactly when the newest backup matches, which then holds every existing target byte for byte, and leaves no manifest; otherwise the manifest is of the targets, the new backup survives pruning when newest, and pinned ones survive always |
| BackupRetention.BackupRoot.Rollback | internal/cli/run.go:684-690 | Rollback restores the manifest of this run, and does nothing when the backup was skipped |
| BackupRetention.ExchangeSort | internal/cli/restore.go:212-219 | The in-place exchange sort puts the newest first and permutes |
| BackupRetention.ResolveTarget | internal/cli/restore.go:152-167 | "latest" is a backup of maximal creation time, an id the backup of that id, and nothing is found only when there is none |
| MarkerBlocks.InjectKeepsTheRest | internal/agentbuilder/sdd.go:96-117 | The result is the text before the replaced stretch, the block, and the text after it, all unchanged; without the marker the whole text is kept |
| MarkerBlocks.RegionIsStretch | internal/agentbuilder/sdd.go:96-117 | What is replaced runs from the first marker to behind the first end marker after it, or without one to the end of that line, or without that to the end of the text |
| MarkerBlocks.ReplaceBlock | internal/agentbuilder/sdd.go:96-117 | The branches of the replacement put the block in place of exactly that stretch |
| MarkerBlocks.InjectTwiceIff | internal/agentbuilder/sdd.go:20-50 | Injecting again changes nothing if and only if the end marker does not occur before the block's own |
| MarkerBlocks.InjectAgentTwiceIff | internal/agentbuilder/sdd.go:53-94 | The same for the blocks the builder makes |
| MarkerBlocks.TitledWithItsEndMarker | internal/agentbuilder/sdd.go:53-94 | An agent titled with its own end marker changes the file at every injection |
| MarkerBlocks.OtherTagsApart | internal/agentbuilder/sdd.go:96-117 | Markers of different agents never occur in one another, even when one name is a prefix of the other |
| MarkerBlocks.OtherBlockSurvives | internal/agentbuilder/sdd.go:20-50 | Another agent's block stands unchanged at its own place, or moved by as much as the text before it grew, unless it stood, whole, between this agent's own markers |
| MarkerBlocks.PromptFile.InjectReference | internal/agentbuilder/sdd.go:20-50 | A standalone agent changes nothing, a missing file fails and stays missing, and otherwise the file holds the injected text |
| ReceiptDiscovery.Confined | internal/cli/review_facade.go:2057-2097 | The loops accept exactly the reports whose only problems are invalid legacy entries, and ambiguous locks of such entries; so never a bad compact entry or its lock |
| ReceiptDiscovery.Discover | internal/cli/review_facade.go:1920-2048 | Discovery answers only over a healthy or legacy-confined inventory whose leaves could be listed, and then as the terminal leaves say; otherwise the authority is reported corrupted |
| ReceiptDiscovery.FoundIffOneMatch | internal/cli/review_facade.go:1987-2048 | An authority is returned exactly when one terminal leaf matches the live target, and it is that leaf |
| ReceiptDiscovery.UnrelatedMeansAll | internal/cli/review_facade.go:1987-2048 | "Unrelated" means there is a terminal leaf and all of them were assessed as unrelated |
| DiscoveryAnswers.BadIsCorruption | internal/cli/review_facade.go:1949-1965 | One record that does not load, or one terminal receipt that is missing or differs, is corruption whatever else is found |
| DiscoveryAnswers.DiscoveryIs | internal/cli/review_facade.go:2003-2048 | Otherwise each of the seven answers is given exactly for certain numbers of leaves assessed as exact, changed, unexplained, unknown, unresolved and unrelated |
| DiscoveryAnswers.NamedAre | internal/cli/review_facade.go:2006-2048 | The candidates named, in order: the matches, everything in doubt, the leaf whose scope changed, or every terminal leaf |
| DiscoveryAnswers.TargetErrorIsOfALeaf | internal/cli/review_facade.go:2040-2042 | The target error reported is that of a terminal leaf whose target does not resolve |
| ReceiptDiscovery.OrderDoesNotMatter | internal/cli/review_facade.go:1920-2048 | The outcome, with its sorted candidates, does not depend on store order |

## Left out

Slots:

- Torn writes of temporary files, file modes, identity checks between stat and open, Windows, the fallback when hard
  links are unavailable, and creation of the directories. An archive location is the pair of slot and digest.
- Whether a payload's JSON is an admissible result: content is bytes of a size, and admission is size and equality.
- Faults other than crashes and failing directory syncs.

FINALIZE and reporting:

- The findings, evidence and corrections inside an authority: the four state transitions are functions with typed
  source and target states, and refuter results are part of the reviewer results.
- A retry after the review has ended has to be given with its lineage and nothing else, as the code demands.
- The wording of messages (a message is a fixed sentence, or a prefix and a process-control text), JSON, and the
  routing of commands and contract versions.

Next transition and status:

- The transition published with FINALIZE's own result, the rest of the status result's validator, JSON and schemas, and
  the hashes that subjects and artifacts carry of themselves.
- TransitionAgreement.BuilderMeetsValidators: a remote whose own name begins with a hyphen, and so advertises branches that
  read like flags, is not considered.

Files and backups:

- SyncDisk.Disk.Restore: links on the way to a managed path, permissions and I/O errors are not modelled.
- BackupRoundTrip.RoundTrip: a mode is restored only with the bytes; when the bytes are already equal the code leaves the
  mode as it is, and so does the statement.
- BackupFiles.Create: a link is represented by the end of its chain, no directory on the way to a target is a link, and
  a target that cannot be looked up for another reason than absence is not modelled.
- Directories a restore creates on the way and leaves behind, and old plain backups of another layout.
- Files that change between the archive and the checksum of one backup.
- Backups whose manifests repeat an id.

Others:

- Permissions of the prompt file; names outside lower-case letters, digits and hyphens.
- Discovery with an explicit lineage, and the contents of its scope diagnostics.
- Command wrappers, help text, rendering, agent adapters, the terminal interface, updates and the network.
