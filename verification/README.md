# Verified model of the job application pipeline

This project models the protocols of the pipeline that change stored state, and the loops in it that
carry real algorithms, and proves what they promise for every input, every run and every point at
which a run may stop.

* Tables are maps and sequences. A script that updates tables is a class (`TrackingDatabase.Database`,
  `MigrationRunner.Runner`, `ActivationDatabase.Database`, `SourceDocuments.Register`,
  `DocumentIntake.Workspace`, `CandidateProfile.ProfileTables`, `RequirementReport.Database`) whose methods run
  the same statements in the same order, and undo their writes where the script's transaction rolls back. Each
  method is tied to a function on the values of the tables, and the properties over several calls are proved
  about those functions.
* Hashes are symbolic: a digest holds what was hashed, so distinct contents have distinct digests. Where the
  source uses only a beginning of a hash, that beginning may collide.
* The drafter, the layout preflight, the SQL of a migration, text extraction, the job matcher, the key normaliser
  and the key match relation are arbitrary functions given from outside. Of the drafter one thing is required
  (`DraftLoop.Honest`): it returns a package only from a request that it counts as attempted.

| file | what it holds |
|---|---|
| `Text`, `Grounding`, `TokenWindow` | splitting and collapsing text, finding a candidate in its requirement, the window of tokens around it |
| `Sorting`, `RoundRobin`, `AnnotationQueue` | stable sorting, the stratified selection, the whole annotation queue |
| `TrackingModel`, `TrackingRuns`, `TrackingUndo`, `TrackingIdentity`, `TrackingDatabase` | recording, removing and correcting tracked applications, interleaved with the other writers; which requests are about one job |
| `MigrationLedger`, `MigrationRuns`, `MigrationTruth`, `MigrationBundle`, `MigrationOrder`, `MigrationReplay`, `MigrationRunner` | the four operations on the migration tracking table |
| `LayoutRepair`, `LayoutTexts`, `DraftLoop` | deterministic repairs, what the repaired texts say, and the bounded generate, check and repair loop |
| `SourceActivation`, `ActivationSurface`, `ActivationDatabase` | activating a cohort of proof-passed sources |
| `SourceDocuments`, `DocumentIntake`, `DocumentContents` | approved documents, and the upload files beside them |
| `CandidateProfile` | the profile, its facts and the revision ledger |
| `RequirementReport`, `ReportRevalidation`, `ReportVerification` | applying a requirement report to the job assessments, which jobs it may write, and the check afterwards |
| `PagedCollection` | collecting matches page by page under a budget |
| `CompanyIndex` | looking up a known employer, and what follows for a sighting |

## What the proofs found

Some expected properties do not hold of the code. For each, one lemma gives the failing input or family and another
the exact condition under which the property holds.

* A migration whose SQL is committed while its progress line cannot be printed is marked `failed`, and the bundle
  later runs the same SQL again; a file that commits on its own and whose row is not written is in the same
  position. Rows stay truthful over a run exactly when no operation meets such a commit
  (`MigrationTruth.RunIsTruthful`, `MigrationTruth.UnreportedCommitRunsTwice`).
* `apply_pending` never retries a failed migration, so a failed 077 lets the next call, a bootstrap or an exact apply
  complete 078 without it (`MigrationRuns.FailedIsSkipped`, `MigrationOrder.RunKeepsOrderedExactly`,
  `MigrationOrder.StuckForever`).
* Two candidates that exchange their company keys can no longer be activated together
  (`SourceActivation.SyncFailsOnClash`, `SourceActivation.SwappedKeysClash`). None of the scripts rewrites a
  candidate's company key, so the exchange has to come from an edit outside them.
* A cohort that names a candidate twice is committed first and reported as wrong afterwards
  (`ActivationSurface.PostCountsHoldExactly`).
* An intake deletes the file of an approved row exactly if a row that stays approved, one of the other type or the one
  with the intake's own hash, names another upload that matches the type's pattern, or names the temporary file
  (`DocumentIntake.IntakeKeepsFilesExactly`). An import alone leads there, as it may approve an upload under any
  matching name (`DocumentIntake.ImportedUploadStrands`); so does a template renamed without a new hash
  (`DocumentIntake.RenamedTemplateStrands`). Over runs the files are kept exactly if no step takes a path that an
  approved row names then (`DocumentIntake.RunKeepsFilesExactly`).
* An intake that is cut off between its rename and its commit can leave an approved row naming another content, when
  the upload is stored under the name of an approved one with another hash (`DocumentContents.RunKeepsContentsExactly`,
  `DocumentContents.SharedNameOverwrites`).
* The audited clean-up of false mailbox rows is rolled back when superseded evidence is still matched to one of them
  (`TrackingRuns.CleanUpIsExact`).
* Requirement evidence that returns to an earlier state is counted as already current while the assessment keeps
  the state in between, and the check afterwards passes it under an unchanged policy version
  (`RequirementReport.ProposalIsStoredExactly`, `RequirementReport.ReturningEvidenceStaysStale`,
  `ReportVerification.StaleRowsPassExactly`).

The template authority freezes one hash and one file name per type
(src/search_intelligence/f6_template_authority.py:100-117). A renamed template, and two contents of a type under one
stored name, therefore need an edit of its manifest between two intakes; the import of an upload under another name
needs none.

Two smaller observations:

* A probe whose request fails reports zero requests, fewer than it made (`PagedCollection.EvaluateCandidate`).
* The capability check and the count check of a profile import can never fail
  (`CandidateProfile.CapabilityCheckNeverFires`, `CandidateProfile.CountsAlwaysMatch`).

## Model

| member | source | states |
|---|---|---|
| `Text.CollapseIdempotent` | scripts/build_f4a_r7_skill_annotation_queue.py:28-29 | collapsing whitespace twice is collapsing it once |
| `Text.WordsOfJoin` | scripts/build_f4a_r7_skill_annotation_queue.py:32-40 | splitting a single-spaced join of words gives the words back |
| `Grounding.FindIsFirst` | scripts/build_f4a_r7_skill_annotation_queue.py:61-64 | `str.find` answers the first literal occurrence, and one whenever there is one |
| `Grounding.SearchFindsFirst` | scripts/build_f4a_r7_skill_annotation_queue.py:65-70 | the pattern of words joined by whitespace finds the leftmost slice that reads as the words, and only such a slice |
| `Grounding.CandidateSpanIsFirstReading` | scripts/build_f4a_r7_skill_annotation_queue.py:61-74 | a span is found exactly when some slice reads as the candidate; it collapses to the candidate, is the first literal occurrence if there is one and otherwise the first reading |
| `Grounding.SpanIsGrounded` | scripts/build_f4a_r7_skill_annotation_queue.py:173-192 | the span lies in the text, begins and ends inside words and collapses to the candidate |
| `Grounding.CandidateSpanErrors` | scripts/build_f4a_r7_skill_annotation_queue.py:61-74 | for any candidate: the empty one is found at the start, and the empty-candidate error means blank and not literally present |
| `TokenWindow.TokensAreMaximalRuns` | scripts/build_f4a_r7_skill_annotation_queue.py:77-84 | the tokens are exactly the maximal runs of non-whitespace, in order |
| `TokenWindow.WordsOfWindow` | scripts/build_f4a_r7_skill_annotation_queue.py:77-99 | the text from one token to a later one has just the words between them |
| `TokenWindow.ContextWindowIsExact` | scripts/build_f4a_r7_skill_annotation_queue.py:77-99 | for a span from word to word the window contains it, is bounded by tokens and holds the overlapped tokens plus `min(radius, available)` on each side |
| `TokenWindow.ContextWindowFails` | scripts/build_f4a_r7_skill_annotation_queue.py:77-99 | the window fails exactly when the text has tokens and none overlaps the span; a blank text is its own window |
| `Sorting.SortIgnoresOrder` | scripts/build_f4a_r7_skill_annotation_queue.py:107-135 | sorting by a total order without ties does not depend on the order of arrival |
| `RoundRobin.FillBuckets` | scripts/build_f4a_r7_skill_annotation_queue.py:107-118 | every stratum has the list of its rows in order, and the strata are listed by first arrival |
| `RoundRobin.OneRound` | scripts/build_f4a_r7_skill_annotation_queue.py:119-135 | one pass takes the next rows of the full order, never beyond the limit; no progress means the order is exhausted |
| `RoundRobin.StableRoundRobin` | scripts/build_f4a_r7_skill_annotation_queue.py:107-135 | the loops compute the selection, the first rows of the full round-robin order |
| `RoundRobin.FullOrderPermutes` | scripts/build_f4a_r7_skill_annotation_queue.py:107-135 | without a limit the result is a rearrangement of the rows |
| `RoundRobin.SelectionSize` | scripts/build_f4a_r7_skill_annotation_queue.py:107-135 | `min(limit, n)` rows, all given, none twice |
| `RoundRobin.SelectionIsPrefixStable` | scripts/build_f4a_r7_skill_annotation_queue.py:107-135 | the result for a limit is a prefix of the result for any larger limit |
| `RoundRobin.LeadMeansExhausted` | scripts/build_f4a_r7_skill_annotation_queue.py:119-135 | in every prefix of the rounds a stratum leads another by two or more only if the other has nothing left |
| `RoundRobin.SelectionIsFair` | scripts/build_f4a_r7_skill_annotation_queue.py:107-135 | at every prefix of the selection each stratum has contributed a prefix of its bucket sorted by id, and a lead of two means exhaustion |
| `RoundRobin.StrataAreOrdered` | scripts/build_f4a_r7_skill_annotation_queue.py:119-120 | the strata are visited by group, without recall risk before with it, without the proxy flag before with it |
| `RoundRobin.FirstRoundFollowsStrata` | scripts/build_f4a_r7_skill_annotation_queue.py:116-131 | the first round takes from each stratum, in that order, the row with the least id |
| `RoundRobin.SelectionIgnoresInputOrder` | scripts/build_f4a_r7_skill_annotation_queue.py:107-135 | with distinct ids every permutation of the rows gives the same selection |
| `AnnotationQueue.StringListIsCanonical` | scripts/build_f4a_r7_skill_annotation_queue.py:32-40 | listed candidates are collapsed, nonempty and distinct |
| `AnnotationQueue.FirstByIdIsDistinct` | scripts/build_f4a_r7_skill_annotation_queue.py:184-186 | dropping repeated ids leaves distinct ids, adds no row and loses no id |
| `AnnotationQueue.AddRecord` | scripts/build_f4a_r7_skill_annotation_queue.py:160-213 | the inner loop adds the first row per id for each candidate of a record, or reports the first fault |
| `AnnotationQueue.BuildQueue` | scripts/build_f4a_r7_skill_annotation_queue.py:138-258 | the argument checks in order, the first fault in the records, or the candidate count and the selection; it succeeds exactly for sound records, and its rows are those of the seeds |
| `AnnotationQueue.QueueIsGrounded` | scripts/build_f4a_r7_skill_annotation_queue.py:138-258 | every queued row's evidence is the exact slice of its record at its span and collapses to the candidate, inside its context window; its group and recall risk are its record's, and its proxy flag holds exactly if the learned record of the same id lists the candidate up to whitespace and case; ids are distinct |
| `AnnotationQueue.FaultIsFirst` | scripts/build_f4a_r7_skill_annotation_queue.py:160-192 | the build goes through exactly if every record has an id, a learned record of the same text and group, and its candidates in its text; otherwise it reports the first one |
| `AnnotationQueue.RecordFaultMeans` | scripts/build_f4a_r7_skill_annotation_queue.py:161-170 | which fault a record reports, check by check, against the last learned record of its id |
| `AnnotationQueue.EveryCandidateCompetes` | scripts/build_f4a_r7_skill_annotation_queue.py:160-213 | no listed candidate of a record with a text is lost before the selection |
| `TrackingRuns.RunKeepsConsistent` | scripts/product_v1_f5_application_actions.py:387-830 | over every run with the mailbox, evidence, lifecycle, draft, merge, clean-up and Silver writers: application keys stay unique, an application has at most one submission, identity hashes match their snapshots, events and evidence point to rows that exist |
| `TrackingRuns.IdempotencyKeyIsFresh` | scripts/product_v1_f5_application_actions.py:336-348 | the insert of a submission never meets the unique index on idempotency keys |
| `TrackingRuns.SnapshotsDiffer` | scripts/product_v1_f5_application_actions.py:278-291 | different Silver rows have different identity snapshots |
| `TrackingRuns.RecordShape` | scripts/product_v1_f5_application_actions.py:692-819 | a recording adds one operator submission under a new id and, when the key was new, one owned application, and nothing else |
| `TrackingRuns.RecordOnlyAdds` | scripts/product_v1_f5_application_actions.py:635-830 | whatever the answer, every application and submission there was stays as it was |
| `TrackingRuns.RecordEstablishes` | scripts/product_v1_f5_application_actions.py:635-830 | a recording or a replay leaves the request on record; any other answer changes no table |
| `TrackingRuns.ReplayChangesNothing` | scripts/product_v1_f5_application_actions.py:763-786 | a request on record is answered with the same ids and changes no table |
| `TrackingRuns.ReplayAfterRun` | scripts/product_v1_f5_application_actions.py:419-422 | the same after any run of corrections, evidence, events, merges and actions on other applications |
| `TrackingRuns.SecondRequestReplaysOrIsRejected` | scripts/product_v1_f5_application_actions.py:351-366 | a second request for the application replays exactly when identity and all submission fields agree; otherwise it is rejected; nothing changes |
| `TrackingIdentity.IdentityExists` | scripts/product_v1_f5_application_actions.py:294-304 | a request has an identity exactly if it names a known Silver row, or an external job by employer and title; otherwise which error |
| `TrackingIdentity.KeysAgreeExactly` | scripts/product_v1_f5_application_actions.py:318-332 | two requests get one application key exactly if they name the same Silver row, or external jobs whose employer and title agree up to case and whitespace, with the same URL and UTC day |
| `TrackingIdentity.DifferentJobsAreBothRecorded` | scripts/product_v1_f5_application_actions.py:635-830 | of two requests about jobs not yet there the second is recorded, under another id and beside the first row, exactly if it is about another job |
| `TrackingIdentity.RepeatedRequestAnswers` | scripts/product_v1_f5_application_actions.py:725-786 | a request about a job on record, by fields: replayed for the same texts and details, identity changed for other texts, already recorded for other details |
| `TrackingIdentity.FoundRowAnswers` | scripts/product_v1_f5_application_actions.py:725-762 | every check on the application row found, in order, by its columns |
| `TrackingIdentity.FoundSubmissionAnswers` | scripts/product_v1_f5_application_actions.py:351-366 | a replay exactly if every column of the submission repeats the request |
| `TrackingIdentity.RecordWrites` | scripts/product_v1_f5_application_actions.py:692-819 | the rows a recording adds, column by column, with the snapshot of the Silver row or of the request |
| `TrackingRuns.ChangedSilverRowIsRejected` | scripts/product_v1_f5_application_actions.py:725-745 | a Silver row changed since the recording makes the replay fail without a change |
| `TrackingRuns.RemoveUndoesRecord` | scripts/product_v1_f5_application_actions.py:509-632 | removing what was just recorded restores every table exactly when the application was new, not owned or has evidence |
| `TrackingRuns.RemoveUndoesRecordOnEveryRun` | scripts/product_v1_f5_application_actions.py:509-632 | on every run from empty tables the exception cannot arise, so the removal always restores every table |
| `TrackingUndo.RemoveAfterRun` | scripts/product_v1_f5_application_actions.py:553-632 | after a creating record and any run that does not remove it: refused if an event came, the submission alone if evidence came, otherwise exactly that application and submission |
| `TrackingUndo.RemoveUndoesAcrossRun` | scripts/product_v1_f5_application_actions.py:553-632 | when the run attaches no event and no evidence, removal deletes exactly these two rows and nothing else |
| `TrackingRuns.StepKeepsAnchored` | scripts/product_v1_f5_application_actions.py:553-632 | the invariant behind it: an owned application has a submission or evidence |
| `TrackingRuns.RemoveTouchesOneSubmission` | scripts/product_v1_f5_application_actions.py:553-632 | removal succeeds exactly for an operator submission of the same confirmer without lifecycle history; a refusal changes nothing, and every other row stays |
| `TrackingIdentity.RemoveAnswers` | scripts/product_v1_f5_application_actions.py:553-632 | every answer of a removal by the rows; the application goes exactly if the record action made it and no evidence points to it |
| `TrackingRuns.SecondRemove` | scripts/product_v1_f5_application_actions.py:553-560 | a second removal is a no-op if the application went too, and an error if it was retained |
| `TrackingRuns.RemoveDeletesOnlyCreated` | scripts/product_v1_f5_application_actions.py:592-618 | on every run an application that a removal deletes had been created by the record action |
| `TrackingRuns.CleanUpIsExact` | scripts/run_f5_mailbox_false_positive_cleanup.py:23-55 | the clean-up takes effect exactly for 19 such rows held by no superseded evidence; it deletes just these and frees their evidence, all else keeps its row, submission and evidence, and a second one does nothing |
| `TrackingRuns.CorrectionIsIdempotent` | scripts/product_v1_f5_application_actions.py:387-506 | a correction repeated at any time is already in place |
| `TrackingRuns.CorrectionFillsOnlyMissingTitles` | scripts/product_v1_f5_application_actions.py:387-506 | only a mailbox row with a blank title is changed, and no other row |
| `TrackingIdentity.CorrectsExactly` | scripts/product_v1_f5_application_actions.py:387-506 | a title is corrected exactly for a mailbox row of the expected employer without a title; each refusal by the row, and the row afterwards column by column |
| `TrackingDatabase.Database.SelectByKey` | scripts/product_v1_f5_application_actions.py:725-732 | the row with the key, or none |
| `TrackingDatabase.Database.SelectSubmission` | scripts/product_v1_f5_application_actions.py:746-762 | the submission of the application, or none |
| `TrackingDatabase.Database.InsertApplication` | scripts/product_v1_f5_application_actions.py:692-723 | inserts exactly when the key is new, and consumes an id either way |
| `TrackingDatabase.Database.RecordSubmission` | scripts/product_v1_f5_application_actions.py:635-830 | tables and answer after the transaction, rolled back on every rejection |
| `TrackingDatabase.Database.SubmitFor` | scripts/product_v1_f5_application_actions.py:746-819 | replay, rejection or one new submission |
| `TrackingDatabase.Database.RemoveConfirmation` | scripts/product_v1_f5_application_actions.py:509-632 | tables and answer of the guarded removal |
| `TrackingDatabase.Database.CorrectTitle` | scripts/product_v1_f5_application_actions.py:387-506 | tables and answer of the title correction |
| `MigrationRuns.PendingMembers` | scripts/apply_db_migrations.py:143-147 | pending are exactly the files without a tracking row, whatever its status |
| `MigrationRuns.PendingInOrder` | scripts/apply_db_migrations.py:143-147 | the pending list keeps the order of the files |
| `MigrationRuns.ApplyEachStops` | scripts/apply_db_migrations.py:303-351 | the loop commits some first migrations and stops at the end, at failing SQL or at an unreported commit |
| `MigrationRuns.FailureLeavesPrefix` | scripts/apply_db_migrations.py:303-351 | a failing call leaves exactly a prefix committed in order, the next key `failed` and the rest untracked |
| `MigrationRuns.SuccessCommitsAll` | scripts/apply_db_migrations.py:303-351 | a succeeding call commits the whole pending list in order and changes no other row |
| `MigrationRuns.FailedIsSkipped` | scripts/apply_db_migrations.py:143-147 | after a failure just the migrations behind the failed one are pending |
| `MigrationTruth.StepIsTruthful` | scripts/apply_db_migrations.py:303-400 | after one operation rows are truthful (`success` iff committed exactly once, otherwise never) exactly when, from the ledger, files and SQL before it, it does not reach a commit that goes unrecorded |
| `MigrationTruth.RunIsTruthful` | scripts/apply_db_migrations.py:272-400 | over every sequence of the four operations, SQL commits at most once and rows are truthful, if and only if no step meets such a commit |
| `MigrationTruth.RecordedRunIsTruthful` | scripts/apply_db_migrations.py:272-400 | in particular whenever no SQL of the run ever goes unrecorded |
| `MigrationTruth.SpoiledForever` | scripts/apply_db_migrations.py:178-221 | SQL that committed twice or unrecorded is never put right by any run |
| `MigrationTruth.UnreportedCommitRunsTwice` | scripts/apply_db_migrations.py:317-349 | an input on which the same SQL is committed twice |
| `MigrationBundle.PendingTargetsEndWithPolicy` | scripts/prepare_product_v1_runtime_migration.py:50-97 | a nonempty pending set is 077 and 078 or 078 alone, so the view check always runs |
| `MigrationBundle.BundleIsAtomic` | scripts/prepare_product_v1_runtime_migration.py:164-218 | from any tracked state: both targets complete, 077 first, all managed views present and no other row touched; or nothing changed |
| `MigrationBundle.BundleRepeats` | scripts/prepare_product_v1_runtime_migration.py:164-218 | a bundle that succeeded is a no-op when repeated |
| `MigrationReplay.BootstrapSettles` | scripts/apply_db_migrations.py:272-300 | a bootstrap gives each untracked file a row with its own version and checksum and runs nothing; then no file has drifted and any apply returns zero and changes nothing |
| `MigrationReplay.ApplySettles` | scripts/apply_db_migrations.py:303-351 | the same after an apply that succeeds |
| `MigrationReplay.ExactSettles` | scripts/apply_db_migrations.py:354-400 | an exact apply writes the row of just its file, which fits; the same call again does nothing |
| `MigrationReplay.ExactRefuses` | scripts/apply_db_migrations.py:354-400 | when an exact apply does not get to its SQL, check by check |
| `MigrationReplay.BundleRefuses` | scripts/prepare_product_v1_runtime_migration.py:50-97 | when the bundle does not get to its SQL, check by check, the predecessors being the files below version 77 |
| `MigrationReplay.BundleSettles` | scripts/prepare_product_v1_runtime_migration.py:164-218 | the rows of 077 and 078 after a bundle: as they were if complete, otherwise the file's checksum and a kept version |
| `MigrationReplay.RunNeverDrifts` | scripts/apply_db_migrations.py:129-140 | over every run of the four operations on unchanged files, whatever fails in between, none ever finds a checksum mismatch |
| `MigrationOrder.SafeApplyKeepsOrdered` | scripts/prepare_product_v1_runtime_migration.py:82-97 | where 078 is not pending, or 077 is complete or pending too, a plain apply keeps "078 complete implies 077 complete", whatever fails |
| `MigrationOrder.UnsafeApplyBreaksOrdered` | scripts/prepare_product_v1_runtime_migration.py:82-97 | in every other state a plain apply breaks it exactly when 078 and all pending files before it commit |
| `MigrationOrder.BootstrapKeepsOrderedExactly` | scripts/apply_db_migrations.py:272-300 | a bootstrap keeps it exactly in those safe states |
| `MigrationOrder.ExactKeepsOrderedExactly` | scripts/apply_db_migrations.py:354-400 | an exact apply breaks it exactly when it runs 078 before 077 is complete and 078 commits with its row |
| `MigrationOrder.RunKeepsOrderedExactly` | scripts/prepare_product_v1_runtime_migration.py:82-97 | over every run of the four operations it holds throughout exactly when no step, at the ledger it meets, breaks it so |
| `MigrationOrder.StuckForever` | scripts/prepare_product_v1_runtime_migration.py:82-97 | once 077 has failed and 078 is complete no run of the four operations repairs it |
| `MigrationOrder.OnlyBundleRewritesRows` | scripts/apply_db_migrations.py:178-221 | bootstrap and apply never rewrite a row that exists |
| `MigrationRunner.Runner.BootstrapExisting` | scripts/apply_db_migrations.py:272-300 | a bootstrapped row for each untracked file, and their number |
| `MigrationRunner.Runner.ApplyPendingMigrations` | scripts/apply_db_migrations.py:303-351 | ledger and answer of the loop with one transaction per migration |
| `MigrationRunner.Runner.ApplyExactMigration` | scripts/apply_db_migrations.py:354-400 | ledger and answer, with the checks of the exact selection |
| `MigrationRunner.Runner.ExecuteTargets` | scripts/prepare_product_v1_runtime_migration.py:186-209 | the body of the bundle's transaction, up to the first failing SQL |
| `MigrationRunner.Runner.ApplyTargetMigrations` | scripts/prepare_product_v1_runtime_migration.py:164-218 | ledger and answer of the atomic bundle |
| `LayoutRepair.ApplyRepairs` | scripts/product_v1_application_workspace_runtime_quality.py:151-230 | the loop over two dictionaries computes the repaired zones and the reported repairs |
| `LayoutRepair.CompactFooterIsFinal` | scripts/product_v1_application_workspace_runtime_quality.py:170-186 | a compacted footer date does not match the footer pattern again |
| `LayoutRepair.RepairIsFinal` | scripts/product_v1_application_workspace_runtime_quality.py:151-230 | a repair changes the text, and the new text needs no repair |
| `LayoutRepair.RepairZonesSettle` | scripts/product_v1_application_workspace_runtime_quality.py:151-230 | after the loop every listed zone is settled, and a repair is reported exactly when something changed |
| `LayoutRepair.RepairIsIdempotent` | scripts/product_v1_application_workspace_runtime_quality.py:132-230 | a second repair does nothing; the package is unchanged exactly when no repair is reported; the cached preview shows the letter after a repair and stays current otherwise |
| `LayoutRepair.RepairKeepsCodexZones` | scripts/product_v1_application_workspace_runtime_quality.py:38-44 | no zone that the drafter owns is ever altered |
| `LayoutTexts.LetterTexts` | scripts/product_v1_application_workspace_runtime_quality.py:187-228 | what salutation, closing, subject and recipient of the letter say afterwards, by language, target and the text before |
| `LayoutTexts.DateText` | scripts/product_v1_application_workspace_runtime_quality.py:219-226 | the date of the letter becomes `DD.MM.YY` where it is listed and reads `DD.MM.YYYY`, and stays otherwise |
| `LayoutTexts.PreviewReads` | scripts/product_v1_application_workspace_runtime_quality.py:132-148 | the preview reads salutation, six paragraphs and closing, stripped, the empty ones left out, with an empty line between |
| `LayoutTexts.FooterText` | scripts/product_v1_application_workspace_runtime_quality.py:170-186 | the footer date becomes `city, DD.MM.YYYY` where it is listed and has the long form, and stays otherwise |
| `DraftLoop.FiltersPartition` | scripts/product_v1_application_workspace_runtime_quality.py:233-242 | the two filters split the overflows; without unsupported ones the other is everything |
| `DraftLoop.CheckPackage` | scripts/product_v1_application_workspace_runtime_quality.py:594-640 | a checked package is exactly the one last probed, with only drafter-owned zones overflowing; unsupported zones stop the draft |
| `DraftLoop.FirstRequest` | scripts/product_v1_application_workspace_runtime_quality.py:501-592 | one request, and a package to go on with or a stop |
| `DraftLoop.RepairRequest` | scripts/product_v1_application_workspace_runtime_quality.py:641-683 | one more request for the overflowing zones, with rising progress |
| `DraftLoop.DraftWithCodex` | scripts/product_v1_application_workspace_runtime_quality.py:501-774 | the result is the one that drafter and preflight decide; at most three requests; a draft for review only when the last probe of exactly that package, up to the two added keys, had no overflow |
| `DraftLoop.DraftLocally` | scripts/product_v1_application_workspace_runtime_quality.py:307-439 | no request; the repaired template with what still overflows, unless a preflight stops |
| `DraftLoop.ResultDecides` | scripts/product_v1_application_workspace_runtime_quality.py:501-774 | when each answer comes, from drafter and preflight alone: a draft exactly if one of the first three requests brings a package that fits after packages that overflow in drafter-owned zones only, and it is that package; the four refusals exactly for a missing package, a stopping preflight, a foreign zone and three overflowing packages |
| `DraftLoop.GenerateDraft` | scripts/product_v1_application_workspace_runtime_quality.py:442-774 | when the draft is blocked, which answer comes otherwise, what a reviewed draft was last probed as, at most three requests, progress that never falls, for every preflight and every drafter that returns packages only from attempted requests |
| `DraftLoop.MonotonePairs` | scripts/product_v1_application_workspace_runtime_quality.py:50-68 | of two progress reports the later is never lower |
| `SourceActivation.SyncFailsOnClash` | scripts/apply_generic_employer_origin_activation.py:207-254 | for distinct rows the projection upserts fail exactly if a row takes a company key that a later row's candidate still holds |
| `SourceActivation.SyncIsCohort` | scripts/apply_generic_employer_origin_activation.py:207-254 | otherwise the projection is a function of the cohort alone |
| `SourceActivation.SyncKeepsUnique` | db/migrations/107_create_generic_employer_origin_active_sources.sql:1-16 | for any cohort company keys stay unique and the projection holds exactly the cohort's candidates |
| `SourceActivation.StableKeysNeverClash` | scripts/apply_generic_employer_origin_activation.py:207-254 | candidates that keep their company key can always be activated |
| `SourceActivation.SwappedKeysClash` | scripts/apply_generic_employer_origin_activation.py:207-254 | two candidates that exchange their keys cannot |
| `ActivationSurface.ActivationFailsExactly` | scripts/apply_generic_employer_origin_activation.py:257-272 | a rollback means a row without its candidate or such a clash |
| `ActivationSurface.ActivationIsClosedForm` | scripts/apply_generic_employer_origin_activation.py:257-374 | afterwards projection, active candidates, active profiles and active terms are those of the cohort, `*` the only term of each |
| `ActivationSurface.ActiveCandidatesAreCohort` | scripts/apply_generic_employer_origin_activation.py:299-325 | the `active_controlled` candidates are exactly the cohort and no candidate row is lost |
| `ActivationSurface.LastActivationWins` | scripts/apply_generic_employer_origin_activation.py:257-374 | activating one cohort and then another leaves the active surface of the second alone |
| `ActivationSurface.ActivationRepeats` | scripts/apply_generic_employer_origin_activation.py:257-374 | a repeated activation succeeds and leaves the surface as it is |
| `ActivationSurface.PostCountsHoldExactly` | scripts/apply_generic_employer_origin_activation.py:415-431 | the three checks after the commit succeed exactly for distinct candidates |
| `ActivationSurface.SensorsUntouched` | scripts/apply_generic_employer_origin_activation.py:274-285 | a sensor profile without a cohort profile's name keeps its row and its terms |
| `ActivationSurface.ActivationWritesRow` | scripts/apply_generic_employer_origin_activation.py:207-374 | what each row of the cohort gets, column by column: projection, status, one controlled profile, `*` as its only active term |
| `ActivationSurface.ActivationKeepsRows` | scripts/apply_generic_employer_origin_activation.py:274-325 | candidates outside the cohort keep their status, or fall from `active_controlled` to `candidate`; no profile and no term is lost |
| `ActivationSurface.OthersAreSwitchedOff` | scripts/apply_generic_employer_origin_activation.py:274-297 | a profile without a cohort profile's name: a sensor stays, any other is switched off and otherwise unchanged, its terms stay |
| `ActivationDatabase.Database.SyncProjection` | scripts/apply_generic_employer_origin_activation.py:207-254 | delete and upserts give the synchronised projection, or report a violated constraint |
| `ActivationDatabase.Database.UpsertProfile` | scripts/apply_generic_employer_origin_activation.py:327-362 | the profile of that name, or a new one, is rewritten, and its id answered |
| `ActivationSurface.ActivateRowMakesLive` | scripts/apply_generic_employer_origin_activation.py:312-374 | after one round the row's profile is active under its own name and source, and `*` is its only active term |
| `ActivationDatabase.Database.ApplyActivation` | scripts/apply_generic_employer_origin_activation.py:257-374 | all four tables of the activation, or all as before; the surface and the post-counts of any applied cohort |
| `SourceDocuments.ApplyFailsOnMultiple` | scripts/import_private_application_source_documents.py:179-196 | for distinct types the transaction fails exactly if a given type has several approved rows |
| `SourceDocuments.PlanIsExact` | scripts/import_private_application_source_documents.py:136-165 | `would_change_count` is the number of documents the application writes, which then succeeds; the rows added or rewritten are these and the approved rows they supersede |
| `SourceDocuments.RowsChanged` | scripts/import_private_application_source_documents.py:202-236 | the rows that differ afterwards are one per written document and one per approved row it replaces |
| `SourceDocuments.PlanNeedsDistinctTypes` | scripts/import_private_application_source_documents.py:136-165 | for a type given twice the count is wrong |
| `SourceDocuments.CurrentHash` | scripts/import_private_application_source_documents.py:109-133 | the plan compares with the one approved hash of the type |
| `SourceDocuments.ApplyIsClosedForm` | scripts/import_private_application_source_documents.py:168-238 | every row afterwards: given documents approved anew or kept, approved rows of their types superseded, the rest and its keys untouched |
| `SourceDocuments.ApplyApproves` | scripts/import_private_application_source_documents.py:168-238 | exactly one approved row per given type, with the given hash; other types keep theirs |
| `SourceDocuments.SecondApplyChangesNothing` | scripts/import_private_application_source_documents.py:198-200 | a second application changes nothing and counts every document as unchanged |
| `SourceDocuments.SupersededHashRevives` | scripts/import_private_application_source_documents.py:202-236 | a superseded hash comes back under its own key, without a new row |
| `SourceDocuments.RunKeepsOne` | scripts/import_private_application_source_documents.py:168-238 | on every run of imports of any documents: at most one approved row per type, and no row lost |
| `SourceDocuments.Register.ApplyDocuments` | scripts/import_private_application_source_documents.py:168-238 | table and counters of the loop, rolled back as a whole on an error |
| `SourceDocuments.OneDocumentApproved` | scripts/import_private_application_source_documents.py:178-236 | a document is refused exactly if its type has several approved rows and kept exactly if its hash is the approved one; afterwards it is the only approved one of its type, and other types keep their rows |
| `SourceDocuments.OneDocumentWrites` | scripts/import_private_application_source_documents.py:202-236 | the row of a written document column by column; approved rows of its type become `superseded` and keep the rest |
| `DocumentIntake.GlobsAreDisjoint` | scripts/product_v1_local_document_intake.py:135-137 | no upload name matches the patterns of both types |
| `DocumentIntake.TemporaryIsHidden` | scripts/product_v1_local_document_intake.py:101-102 | a temporary name matches neither pattern |
| `DocumentIntake.InGlobMeans` | scripts/product_v1_local_document_intake.py:135 | the pattern matches exactly the files of the upload directory named by type, dash, anything, `.pdf` |
| `DocumentIntake.StoredPathsAgree` | scripts/product_v1_local_document_intake.py:99-101 | two uploads are stored under one path exactly if type, hash beginning and safe name agree |
| `DocumentIntake.TemporaryPathsAgree` | scripts/product_v1_local_document_intake.py:102 | they share a temporary file exactly if type and hash beginning agree |
| `DocumentIntake.IntakeWrites` | scripts/product_v1_local_document_intake.py:113-132 | the row an intake writes: label of the type, reference to the stored file, approved by `local_operator` |
| `DocumentIntake.CommitFailsOnAmbiguous` | scripts/product_v1_local_document_intake.py:122-132 | the table part refuses exactly if one of the two types has several approved rows |
| `DocumentIntake.OneUploadIsLeft` | scripts/product_v1_local_document_intake.py:135-137 | a completed intake leaves exactly its own upload of the type, with its content, and every upload of the other type |
| `DocumentIntake.IntakeKeepsFilesExactly` | scripts/product_v1_local_document_intake.py:91-137 | after a completed intake every approved row names an existing file exactly if none named a file the clean-up removes |
| `DocumentIntake.RenamedTemplateStrands` | scripts/product_v1_local_document_intake.py:99-137 | a renamed template with the same hash deletes the file its approved row names |
| `DocumentIntake.ImportedUploadStrands` | scripts/import_private_application_source_documents.py:52-77 | for any tables and files: after the import of an upload under another matching name, the next intake of the same content deletes the file its approved row names |
| `DocumentIntake.StepKeepsFilesExactly` | scripts/product_v1_local_document_intake.py:91-137 | one step keeps the files of all approved rows exactly when it takes no path that one of them names |
| `DocumentIntake.RunKeepsFilesExactly` | scripts/product_v1_local_document_intake.py:91-137 | on every run of intakes under any names, each cut off anywhere, and of imports of any existing files: approved rows name existing files at every step, if and only if no step takes a path that one names |
| `DocumentIntake.RunKeepsFiles` | scripts/product_v1_local_document_intake.py:99-102 | for the caller: that is so when each content has one stored name and imports take files outside the upload directory or under these names |
| `DocumentContents.StepKeepsContentsExactly` | scripts/product_v1_local_document_intake.py:91-137 | under any names, one step keeps every approved row naming its own content exactly when it neither takes such a file nor writes another content over it |
| `DocumentContents.RunKeepsContentsExactly` | scripts/product_v1_local_document_intake.py:91-137 | on every run under any names approved rows name files with their own hash at every step, if and only if no step does so |
| `DocumentContents.StableRunKeepsContentsExactly` | scripts/product_v1_local_document_intake.py:99-111 | when each content has one stored name the only such step is a rename onto the file of an approved row with another hash |
| `DocumentContents.SeparatedRunKeepsContents` | scripts/product_v1_local_document_intake.py:99-102 | in particular wherever stored names tell the contents of a type apart |
| `DocumentContents.SharedNameOverwrites` | scripts/product_v1_local_document_intake.py:99-111 | two contents with the same hash prefix and safe name: cut off after the rename, the approved row names the other content |
| `DocumentIntake.CompletedIntakeRuns` | scripts/product_v1_local_document_intake.py:91-137 | an intake that is not cut off is such a run and ends in the files and table of the closed form |
| `DocumentIntake.Workspace.Ingest` | scripts/product_v1_local_document_intake.py:91-137 | files and table for each way it ends, and when approved rows keep their files |
| `DocumentIntake.Workspace.RemoveStale` | scripts/product_v1_local_document_intake.py:135-137 | removes exactly the other uploads of the type, in any order |
| `CandidateProfile.CapabilityCheckNeverFires` | src/search_intelligence/candidate_fact_profile.py:549-557 | the check for capability claims from direction facts always passes |
| `CandidateProfile.CountsAlwaysMatch` | scripts/import_private_candidate_fact_profile.py:321-332 | the four counts read back always equal the profile's summary |
| `CandidateProfile.ReplacedFacts` | scripts/import_private_candidate_fact_profile.py:233-279 | the inserts succeed exactly for distinct keys, and then the table is that of the profile |
| `CandidateProfile.ApplyKeepsCoherent` | scripts/import_private_candidate_fact_profile.py:282-335 | every call keeps the chain and the tables; a call that does not import changes nothing |
| `CandidateProfile.RunKeepsCoherent` | scripts/import_private_candidate_fact_profile.py:135-179 | on every run the ledger is an append-only hash chain with unique keys that alone determines profile and facts |
| `CandidateProfile.CurrentIsLastRevision` | scripts/import_private_candidate_fact_profile.py:282-335 | the current hash is the last revision's, and the facts table holds exactly its facts |
| `CandidateProfile.ReplyByHistory` | scripts/import_private_candidate_fact_profile.py:282-318 | the answer to a well-formed profile is a function of the ledger: current, importable or refused |
| `CandidateProfile.AnswersExactly` | scripts/import_private_candidate_fact_profile.py:282-335 | every answer to any profile, from the ledger and the profile's fields, in the order of the checks |
| `CandidateProfile.ImportWrites` | scripts/import_private_candidate_fact_profile.py:135-279 | profile row, facts and revision after an import, column by column |
| `CandidateProfile.CountsMean` | scripts/import_private_candidate_fact_profile.py:321-332 | what the four counts count, by approval and class of evidence |
| `CandidateProfile.FormerProfileIsRefused` | scripts/import_private_candidate_fact_profile.py:307-318 | a profile that was current never becomes current again after any run |
| `CandidateProfile.ReturnIsRefused` | scripts/import_private_candidate_fact_profile.py:307-318 | importing one, another and the first again is refused at the third call |
| `CandidateProfile.ImportedExtendsLedger` | scripts/import_private_candidate_fact_profile.py:135-179 | an import appends one revision that starts where the last one ended, has a key of its own, and keeps the ledger coherent |
| `CandidateProfile.ProfileTables.ReplaceFacts` | scripts/import_private_candidate_fact_profile.py:233-279 | the table of the profile's facts, or a violated key |
| `CandidateProfile.ProfileTables.ApplyProfile` | scripts/import_private_candidate_fact_profile.py:282-335 | tables and answer, rolled back on every refusal |
| `RequirementReport.ApplyOneWrites` | scripts/apply_f4a_r2_current_requirement_evidence.py:223-270 | a round writes nothing, exactly if the revision exists, or one assessment and one revision of its own job |
| `RequirementReport.CountsAddUp` | scripts/apply_f4a_r2_current_requirement_evidence.py:201-278 | the counters add up to the proposals, ledger and assessments grow by the rows written, and the ledger only grows |
| `RequirementReport.SucceedsExactly` | scripts/apply_f4a_r2_current_requirement_evidence.py:223-270 | for distinct jobs the report goes through exactly if every proposal would on its own |
| `ReportRevalidation.ReportAppliesExactly` | scripts/apply_f4a_r2_current_requirement_evidence.py:223-270 | for distinct jobs, by tables and proposals: the report goes through exactly if each job is still active under the proposal's source and URL, and the proposal is on the ledger, or updates a Silver job's assessment that has not moved, or inserts the missing one |
| `ReportRevalidation.WrittenJobsAreCurrent` | scripts/apply_f4a_r2_current_requirement_evidence.py:223-237 | any report that goes through is about jobs that are `active_confirmed` under its source and URL |
| `ReportRevalidation.OneRefuses` | scripts/apply_f4a_r2_current_requirement_evidence.py:223-270 | each refusal of a proposal by the tables, in the order of the checks |
| `ReportRevalidation.NewRevisionsAreProposed` | scripts/apply_f4a_r2_current_requirement_evidence.py:118-137 | every row added to the ledger repeats a proposal about a current job and says what it replaced and who applied it |
| `RequirementReport.StalePlanIsRefused` | scripts/apply_f4a_r2_current_requirement_evidence.py:249-257 | one assessment that moved since the plan stops the whole report |
| `RequirementReport.EachJobAtMostOnce` | scripts/apply_f4a_r2_current_requirement_evidence.py:223-270 | no job is written twice, even when the report lists it several times |
| `RequirementReport.RunKeepsNewest` | scripts/apply_f4a_r2_current_requirement_evidence.py:118-170 | on every run of reports the stored payload of a job is that of its newest revision |
| `RequirementReport.ReplayWritesNothing` | scripts/apply_f4a_r2_current_requirement_evidence.py:239-244 | a replay after any other reports yields only already current, although every timestamp has moved |
| `RequirementReport.ProposalIsStoredExactly` | scripts/apply_f4a_r2_current_requirement_evidence.py:239-270 | a job carries the proposed payload afterwards exactly if the proposal was new to the ledger or the payload was there already |
| `RequirementReport.ReturningEvidenceStaysStale` | scripts/run_f4a_r2_current_requirement_plan.py:324-345 | evidence that goes from one state to another and back stays on the other |
| `ReportVerification.RunKeepsDecorated` | scripts/run_f4a_r2_current_requirement_plan.py:185-247 | on every run of planned reports the ledger holds only payloads with the marks that the plan writes |
| `ReportVerification.VerifiedExactly` | scripts/apply_f4a_r2_current_requirement_evidence.py:281-343 | after a successful report the check passes exactly if each job whose proposal was on the ledger stores the proposal's policy version |
| `ReportVerification.StaleRowsPassExactly` | scripts/apply_f4a_r2_current_requirement_evidence.py:281-343 | a row passes without holding what was proposed exactly if the proposal was on the ledger and the row holds another payload of the same policy version |
| `ReportVerification.ReturningEvidencePasses` | scripts/apply_f4a_r2_current_requirement_evidence.py:281-343 | evidence that went to another state and back passes with the other state still stored |
| `RequirementReport.Database.ApplyProposal` | scripts/apply_f4a_r2_current_requirement_evidence.py:223-270 | tables and action of one round, or the first failing check |
| `RequirementReport.Database.ApplyReport` | scripts/apply_f4a_r2_current_requirement_evidence.py:201-278 | tables and counters of the report, or the first error and nothing changed |
| `PagedCollection.WholeTermHoldsTokens` | scripts/evaluate_aggregator_discovery_candidates.py:239-250 | a text that holds a whole term holds each of its tokens |
| `PagedCollection.MatchedTerms` | scripts/evaluate_aggregator_discovery_candidates.py:224-252 | the matched terms are those all of whose tokens occur; the check for the whole term decides nothing more |
| `PagedCollection.MatchedTermsAre` | scripts/evaluate_aggregator_discovery_candidates.py:239-250 | a term is matched exactly if, normalised, it has words and each stands in the text |
| `PagedCollection.JobsToMatches` | scripts/evaluate_aggregator_discovery_candidates.py:428-463 | the first `max` matches of a page |
| `PagedCollection.RequestCountIsLeast` | scripts/evaluate_aggregator_discovery_candidates.py:466-509 | the request count is the least positive number of pages that fills the budget, or all pages |
| `PagedCollection.StoppingLosesNothing` | scripts/evaluate_aggregator_discovery_candidates.py:495-509 | the first `max` matches of the requested pages are those of all pages |
| `PagedCollection.ProbePages` | scripts/evaluate_aggregator_discovery_candidates.py:466-658 | requests, returned jobs, matches and note of the four probes under a residual budget, with a failing request or missing credentials |
| `PagedCollection.ProbeReports` | scripts/evaluate_aggregator_discovery_candidates.py:466-658 | a probe that answers reports the jobs of the pages it asked for, as many of their matches as fit, and a full budget exactly if they fill it |
| `PagedCollection.EvaluateCandidate` | scripts/evaluate_aggregator_discovery_candidates.py:669-780 | matches are reported exactly if the budget allows one and the pages hold one; the reported requests are those made exactly unless the probe failed, and then fewer |
| `PagedCollection.EmptyBudgetStillAsksOnce` | scripts/evaluate_aggregator_discovery_candidates.py:436-437 | without a positive budget one page is requested and nothing collected |
| `CompanyIndex.BuildIndex` | scripts/aggregator_discovery_policy.py:213-226 | each owned key once, with its first owner, candidates in list order, in whatever order a candidate's keys come |
| `CompanyIndex.SortedScanFindsBest` | scripts/aggregator_discovery_policy.py:239-243 | scanning the keys by falling length finds the longest match that was inserted first |
| `CompanyIndex.LookupIsAnswer` | scripts/aggregator_discovery_policy.py:229-243 | the lookup is the answer of the scan: the first owner of the key itself, else the first owner of a matching key of maximal length |
| `CompanyIndex.AnswerIsUnique` | scripts/aggregator_discovery_policy.py:229-243 | the scan has one answer only |
| `CompanyIndex.AnswerByNames` | scripts/aggregator_discovery_policy.py:213-243 | nobody exactly if no key, company name or source family of any candidate reads as the query or matches it; the first candidate with a name that reads as it, if there is one |
| `CompanyIndex.SetOrderIsIrrelevant` | scripts/aggregator_discovery_policy.py:213-226 | indexes built in different set orders answer alike, for any normaliser and match relation |
| `CompanyIndex.FindKnownCandidate` | scripts/aggregator_discovery_policy.py:229-243 | building the index and the two lookups give the answer of the scan |
| `CompanyIndex.SuppressCompany` | scripts/aggregator_discovery_policy.py:275-324 | kept for discovery exactly if the scan finds nobody, suppressed exactly for an active or stopped candidate, queued exactly for one due for recheck, observed exactly otherwise; which suppression, and whether a recheck is due, by the status |
| `CompanyIndex.EligibleMeansDue` | scripts/aggregator_discovery_policy.py:183-210 | whatever the order of the checks, a recheck is for an inactive candidate, not blocked, stopped for a recheckable reason and due |

## Left out

- Concurrency: calls are serial, as the advisory locks provide for documents, profiles and reports; two migration appliers at once are not modelled.
- Request and seed parsers, URL normalisation and the CHECK constraints on blank texts and vocabularies, which the parsers enforce before the modelled code.
- Letter case and digits beyond ASCII; whitespace is that of Python's `str.split`.
- SHA-256, PDF parsing and layout geometry, network requests and the drafter, which are arbitrary functions or given data.
- Timestamps other than the assessment's `updated_at` and the correction time; sequence gaps after a rollback.
- The creation time that selects the cohort of the mailbox clean-up: any set of rows may have it. Its approval token is checked before.
- The lookup of the approved draft, given as the newest id per job, and the regular expression that compacts a job title, given as its result.
- A failure of the handler itself while it writes the `failed` row of a migration.
- The resolution of origin URLs and the selection of proof rows before an activation; rows come with their origin.
- The counts that `verify_persisted` reports; its checks are modelled.
- `summarize_matches`, the response parsers and the recheck patterns and dates, which are branch reading or counting; reviews are given as two truth values.
- Splitting statistics of the annotation queue, repair labels, and all report writing, printing, HTTP and HTML.
- DocumentIntake.Workspace.Ingest: content is its hash, symbolic links are not followed, and a partly written temporary file appears only in the step model of the same module.
- CandidateProfile.ProfileTables.ApplyProfile: columns of a fact that no rule looks at are one value, and the single profile key `default` is implicit.
- Statements of a self-committing migration file behind its own `COMMIT`; files 018 and 020 have none.
- RequirementReport.RunKeepsNewest: only reports write; other scripts that update assessments are not steps of the run.
- CompanyIndex.SuppressCompany: reason texts are not modelled.
