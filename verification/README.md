# Verification of the OCI ACME publisher

The publisher keeps a remote OCI certificate in step with locally issued ACME
material. It talks to a remote store of certificate versions through
compare-and-swap requests whose answers may be lost, keeps a local operation
log, and may die at any call. This project models that protocol, the local
generation store, and the algorithms around them, and proves what they keep
over whole runs.

## How it is put together

- `Remotes` states the contract of the remote certificate once: four pointers
  (CURRENT, PREVIOUS, PENDING, LATEST), versions by number, and an entity tag
  that every applied mutation advances (compare-and-swap as in section 13.1.1
  of RFC 9110). Stages are derived from the pointers; `UploadStages` and
  `PromoteStages` restate the mutations in the stages a client sees.
- `CertificateServices` is the pair of adapters in front of it. A request can
  be lost before or after it is applied, and other writers may act before every
  request is served. Three flags describe a run: `exclusive` (no other writer),
  `reliable` (no fault) and `steady` (only promotions are unsettled: a request
  may or may not take effect and be answered with a transient failure).
  Contracts that mention none hold whoever else writes and whatever is lost.
- `Stores` is the SQLite store: every statement is a function on the tables and
  a method that applies it in place, with a ghost journal of transitions.
- `Protocol` is the state machine of one certificate: every remote mutation and
  every store write is one guarded action, a process may stop between any two
  of them (`Reaches`), and the host lock runs commands one after another, each
  possibly stopped anywhere (`HostRun`). A step of a host run is a command on
  this certificate or any command at all on other certificates of the same
  database. The guards say what the publisher must have established before it
  acts; the invariants are proved from the guards.
- `Sessions`, `Reconcilers`, `Rollbacks`, `PublicationServices` and `Bootstraps`
  are the services as classes over those objects. Each method ensures, for the
  only writer, that what it did is a legal run of `Protocol` (`Reaches`),
  whether it succeeded, failed or died. So the theorems about every run apply
  to the code's own branches, and a body that promotes before persisting,
  closes before recording or schedules a referenced version does not verify.
- `Bootstraps.Publisher.Serve` carries out any series of commands of every kind
  (bootstrap, batch, renewal, publication, rollback, retention, audit) on the
  whole host.
- `Histories` and `Fleets` are publishers of one certificate that no lock
  serializes: the log of what the service handled, and every interleaving of
  the publishers' single steps with each other, with rollbacks and retention,
  and with the service's removals.
- `Reentries` composes whole processes: one that stops anywhere, the one that
  takes over its database and certificate, and the one after that.
- `GenerationStores`, `RetentionPlans`, `ChainBuilders`, `Pagination`,
  `Retries`, `Audits`, `Alerts` and `Configs` are the remaining components, one
  module each.

Bundle validation is a predicate on fingerprints, a fingerprint stands for its
material, and X.509 checks are predicates and fields.

## What is proved, in short

- **Write-ahead.** In every state a certificate passes through, whatever commands
  run on it and on other certificates and wherever they stop, a recorded CURRENT
  version is the remote one, or an open operation carries the remote one
  (`WriteAheadAlways`). Host runs begin with an empty store
  (`FirstWorldIsSound`) or with a successful bootstrap (`Publisher.Bootstrap`).
- **Absorption.** Over any series of commands of every kind, bootstraps,
  recoveries, batches and both bulk closers included, a completed operation
  never changes again and completed means terminal (`Publisher.Serve`, and
  between the single actions of a host run `TerminalIsAbsorbing`); active
  operations are exactly the uncompleted rows (`ActiveIsUncompleted`).
- **Retention safety.** A version once scheduled for deletion is gone or
  DEPRECATED for ever (`ScheduledStaysDeprecated`), and a publication that moved
  CURRENT leaves exactly one version to roll back to, after its own audit and
  retention and also where one of them failed (`PublicationService.Publish`).
- **No duplicate upload.** An upload takes effect only where its material is
  neither CURRENT nor PENDING nor LATEST, under any interference
  (`PublicationReconciler.Publish`); every interleaving of any number of
  publishers of one fingerprint creates at most one version of it
  (`FleetUploadsAtMostOnce`).
- **Re-entry and soundness.** From any tables and any remote state whose
  CURRENT, PENDING and LATEST bundles validate, one fault-free publish succeeds with zero or one upload
  and zero or one promotion, exactly as CURRENT and the offers demand; a
  success leaves certificate state, operation row and every interrupted
  operation of the same material settled and touches no other row. After a
  process that stopped anywhere, the next one settles and the one after sends
  nothing (`PublishAgain`); over any series of commands under the host lock the
  certificate gains at most one version of the material
  (`HostRunAddsAtMostOne`).
- **Ambiguous promotions.** The promotion loop is pinned as a trace of looks,
  requests and answers: it asks again exactly after a transient answer, never
  after one took effect, and with unsettled promotions as the only fault a
  publish fails only after the last allowed attempt
  (`PublicationReconciler.PromoteCurrent`, `Publish`).
- **Policy.** After a publication an enforced audit that failed lets the command
  succeed only by restoring PREVIOUS; without faults the command succeeds
  exactly when the policy is content, and retention leaves no more due versions
  than are to be kept, each scheduled for after the configured delay
  (`PublicationService.Publish`, `Retention`).
- **Rollback.** A success restored the unique eligible PREVIOUS; two in a row
  restore the certificate (`RollBackTwice`); publishing the displaced LATEST material again needs
  no upload (`PublishAfterRollback`).
- **Identity.** No certificate is created while an open bootstrap of the same
  material carries an identity, nor by a batch once an identity is confirmed,
  and a confirmed identity never changes over any number of batches. A batch
  touches no remote certificate that none of its sets designates, and every
  version it reports is CURRENT of the certificate its set designates and
  serves that set's material. Without faults a set fails only for want of material
  or because something hindered it before the batch began (`Publisher.RenewAll`).
- **Commit atomicity, exactly.** Over every place a commit can die or raise,
  `current` is old or new and complete if and only if no exception after the
  swap let the handler clean up; one that raised before the swap and was
  cleaned up leaves nothing behind.

Three statements one might expect are false of the code. Each has a concrete
counterexample and the exact condition beside it:

- The clean-up handler of a commit also covers the change of the link's owner
  (src/oci_acme_publisher/certificate_store.py:105-122). If that raises, or an
  interrupt follows the swap, it removes the generation `current` now names:
  `CleanupCanRemoveThePublishedGeneration`, with the condition in
  `CommitIsAtomicExactlyWhen` and, where only calls raise,
  `AtomicForEveryFaultExactlyWhen` (exactly when not root).
- A candidate chain that holds a leaf alone raises an error the selection loop
  does not catch (src/oci_acme_publisher/acme_service.py:249-250, 273), so it
  hides a later acceptable candidate: `LeafOnlyCandidateHidesALaterOne`, with
  the condition in `SelectChain`.
- The OCID check of a configuration does not by itself make OCIDs distinct:
  `OcidCheckAloneAllowsSharing`, with the condition in
  `OcidCheckSufficesExactlyWhen` (exactly when no two sets share both OCID and
  common name). Accepted configurations do have distinct OCIDs, because their
  domains are disjoint (`AcceptedHasDistinctOcids`).

## Model

| member | source | states |
|---|---|---|
| `Remotes.UploadStages` | tests/fault_injection/test_reconciliation_reentry.py:27-89 | an upload adds a fresh highest version with exactly PENDING and LATEST; a superseded PENDING becomes DEPRECATED and LATEST leaves every other version; no other version changes |
| `Remotes.PromoteStages` | tests/fault_injection/test_reconciliation_reentry.py:27-89 | promoting makes the version CURRENT (keeping LATEST), the old CURRENT PREVIOUS, the old PREVIOUS DEPRECATED, and leaves every other stage alone |
| `CertificateServices.CertificateService.GetCertificate` | src/oci_acme_publisher/oci_certificates.py:98-114 | returns the entity tag and CURRENT number of one state of the certificate |
| `CertificateServices.CertificateService.GetPublicBundle` | src/oci_acme_publisher/oci_certificates.py:264-301 | returns number and fingerprint of the requested version, or of CURRENT, as of one state |
| `CertificateServices.CertificateService.ListVersions` | src/oci_acme_publisher/oci_certificates.py:116-144 | lists every version of one state exactly once with its stages, in any order |
| `CertificateServices.CertificateService.GetVersion` | src/oci_acme_publisher/oci_certificates.py:146-155 | one version with the tag it was read under; not found if it does not exist |
| `CertificateServices.CertificateService.UploadPendingVersion` | src/oci_acme_publisher/oci_certificates.py:186-211 | applied only under a matching tag; a normal return means applied; an error means either |
| `CertificateServices.CertificateService.PromoteCurrent` | src/oci_acme_publisher/oci_certificates.py:213-228 | applied only under a matching tag and for an existing version; an error leaves the effect open, and the request records what its sender was told |
| `CertificateServices.CertificateService.ScheduleVersionDeletion` | src/oci_acme_publisher/oci_certificates.py:230-252 | sets the deletion time only under a matching tag; an error leaves the effect open |
| `Stores.StateStore.StartOperation` | src/oci_acme_publisher/state_store.py:134-172 | appends one DISCOVERED row under a new id and changes no other row; a failed statement changes nothing |
| `Stores.StateStore.Transition` | src/oci_acme_publisher/state_store.py:174-213 | moves one row, keeping version and OCID unless given, and sets the completion time exactly for the eleven terminal states; a missing row is an error without effect |
| `Stores.StateStore.CompleteReconciledOperations` | src/oci_acme_publisher/state_store.py:279-310 | completes exactly the other active rows of the certificate with this fingerprint at the confirmed version, and returns how many |
| `Stores.StateStore.CompleteInterruptedAudits` | src/oci_acme_publisher/state_store.py:329-359 | completes exactly the other AUDIT_PENDING audit rows of the certificate and returns how many |
| `Stores.StateStore.RecordPublicationSuccess` | src/oci_acme_publisher/state_store.py:251-277 | records local and remote fingerprint and version of one certificate, nothing else |
| `Stores.StateStore.RecordRollbackSuccess` | src/oci_acme_publisher/state_store.py:361-380 | records the restored version and leaves the local fingerprint alone |
| `Stores.StateStore.RecordRenewalSuccess` | src/oci_acme_publisher/state_store.py:382-397 | records only the renewal time |
| `Stores.StateStore.RecordAuditSuccess` | src/oci_acme_publisher/state_store.py:312-327 | records only the audit time |
| `Stores.StateStore.ActiveIds` | src/oci_acme_publisher/state_store.py:215-239 | returns exactly the nonterminal operations of the certificate, in the order they were started |
| `Stores.StateStore.ConfirmedOciCertificateOcid` | src/oci_acme_publisher/state_store.py:241-249 | absent exactly when no completed row carries an OCID; otherwise the OCID of one completed last |
| `Stores.ActiveIsUncompleted` | src/oci_acme_publisher/state_store.py:215-239 | active operations are exactly the rows without a completion time |
| `Stores.LogStatementsTouch` | src/oci_acme_publisher/state_store.py:134-213 | starting an operation, and moving an open one, touch one certificate, keep what every row was started with, leave terminal rows alone and keep completion time and terminal state equivalent |
| `Stores.ClosersTouch` | src/oci_acme_publisher/state_store.py:279-359 | both bulk closers likewise touch one certificate and never a terminal row |
| `Stores.RecordsTouch` | src/oci_acme_publisher/state_store.py:251-397 | the statements on certificate state leave every operation and every other certificate alone |
| `Protocol.ActionKeepsRemote` | src/oci_acme_publisher/publication_service.py:418-461 | every guarded action keeps scheduled versions purely DEPRECATED, changes no version's material, never revokes a deletion and never reuses a number |
| `Protocol.ActionTouchesOwn` | src/oci_acme_publisher/state_store.py:174-359 | every guarded action leaves terminal rows and everything of other certificates alone and keeps the running operation open |
| `Protocol.RunTouchesOwn` | src/oci_acme_publisher/state_store.py:174-359 | so does every run of one command, from any tables whatever and wherever it stops |
| `Protocol.ActionKeepsLive` | src/oci_acme_publisher/reconciler.py:180-219 | a running operation carries CURRENT from the moment its promotion takes effect |
| `Protocol.ActionKeepsBacked` | src/oci_acme_publisher/reconciler.py:180-219 | intent persisted before promotion and success recorded before closing keep the recorded version explained, at every action and stop |
| `Protocol.RunKeepsSound` | src/oci_acme_publisher/publication_service.py:153-203 | every state one command on a certificate passes through, hence every state its crash leaves, keeps the joint invariant, absorbs terminal rows and revokes no deletion |
| `Protocol.FirstWorldIsSound` | src/oci_acme_publisher/state_store.py:104-121 | an empty store beside a certificate without scheduled deletions is sound: where runs for a configured OCID begin |
| `Protocol.SettledIsSound` | src/oci_acme_publisher/publication_service.py:606-621 | a store that records the CURRENT of a certificate is sound with nothing running: where runs after a bootstrap begin |
| `Protocol.RunKeepsRemote` | src/oci_acme_publisher/publication_service.py:418-461 | a run keeps scheduled versions DEPRECATED whatever the tables say |
| `Protocol.RunKeepsMaterial` | src/oci_acme_publisher/reconciler.py:158-166 | no run gives a version number to other material |
| `Protocol.RunKeepsRenewal` | src/oci_acme_publisher/state_store.py:382-397 | a recorded renewal stays recorded over every run |
| `Protocol.RunKeepsTarget` | src/oci_acme_publisher/reconciler.py:237-270 | a run that moved CURRENT leaves a PREVIOUS |
| `Protocol.TouchingOthersIsElsewhere` | src/oci_acme_publisher/state_store.py:108-121 | what touches only another certificate of the shared database is a step of this one's host run |
| `Protocol.RunIsElsewhere` | src/oci_acme_publisher/cli.py:585-591 | every run on another certificate is such a step: it spares this one's rows and recorded state |
| `Protocol.HostStepFollows` | src/oci_acme_publisher/cli.py:585-591 | a command on this certificate or on any other keeps this one sound |
| `Protocol.HostRunFollows` | src/oci_acme_publisher/cli.py:585-591 | between any two points of a series of commands on any certificates under the host lock nothing terminal and nothing scheduled changed |
| `Protocol.WriteAheadAlways` | src/oci_acme_publisher/reconciler.py:307-336 | for all series of commands on this and other certificates, each stopped anywhere: a recorded version equals the remote CURRENT or an active operation carries the remote CURRENT |
| `Protocol.ScheduledStaysDeprecated` | src/oci_acme_publisher/retention_service.py:33-54 | a version scheduled at one point is, at every later point and whatever ran in between on any certificate, gone or DEPRECATED, never CURRENT, PREVIOUS, PENDING or LATEST |
| `Protocol.TerminalIsAbsorbing` | src/oci_acme_publisher/state_store.py:290-310 | an operation of any certificate completed at one point of a host run is the same row at every later point; completed and terminal coincide throughout |
| `Sessions.OpenOperation` | src/oci_acme_publisher/reconciler.py:114-123 | the intent is logged before anything else; without a configured OCID it is refused and nothing is written |
| `Sessions.Persist` | src/oci_acme_publisher/reconciler.py:180-185 | a nonterminal step of the running operation, legal only if a promoted operation keeps carrying CURRENT |
| `Sessions.ReadUntilCurrent` | src/oci_acme_publisher/reconciler.py:206-210 | at most the configured number of reads; only the last may return another version or a retryable error; finds the promoted version at once when nothing fails |
| `Reconcilers.PublicationReconciler.FindMatchingPending` | src/oci_acme_publisher/reconciler.py:272-289 | none found under an unchanged tag means nothing offered has the fingerprint and everything offered validates; what is found is PENDING or LATEST with the fingerprint, and validates |
| `Reconcilers.PublicationReconciler.PromoteCurrent` | src/oci_acme_publisher/reconciler.py:237-270 | exactly the loop of the code as a trace: look, ask under the tag seen, look again after every transient answer until the version shows or the attempts are used up; none after one took effect; with unsettled promotions only, a failure means the attempts were used up; at most 90 seconds of sleep |
| `Reconcilers.PublicationReconciler.LookAndAsk` | src/oci_acme_publisher/reconciler.py:250-261 | one pass: the certificate is looked at, and asked for only if it does not show the version |
| `Reconcilers.PublicationReconciler.Classify` | src/oci_acme_publisher/reconciler.py:262-266 | an answer is tried again exactly for transport errors, 429, 500, 502, 503, 504 and the IncorrectState conflict |
| `Reconcilers.PublicationReconciler.Complete` | src/oci_acme_publisher/reconciler.py:307-337 | records, closes what the agreement settles, then closes itself; success leaves exactly `Published` |
| `Reconcilers.CompletionPublishes` | src/oci_acme_publisher/reconciler.py:318-337 | the statements in their order leave no reconcilable row of this certificate and fingerprint and touch no other row or certificate |
| `Reconcilers.NothingOffered` | src/oci_acme_publisher/reconciler.py:281-289 | a full listing without a match means the fingerprint is not offered, and that every offered bundle validated |
| `Reconcilers.UploadIsOffered` | src/oci_acme_publisher/reconciler.py:166-179 | after an upload the material alone is PENDING and LATEST, and what could be published still can |
| `Reconcilers.PublicationReconciler.SendUpload` | src/oci_acme_publisher/reconciler.py:156-170 | one guarded upload, persisted before anything else |
| `Reconcilers.PublicationReconciler.UploadAndFind` | src/oci_acme_publisher/reconciler.py:156-179 | the upload can take effect only in the state the tag was read in, where the fingerprint was neither CURRENT nor offered |
| `Reconcilers.PublicationReconciler.SelectCandidate` | src/oci_acme_publisher/reconciler.py:153-179 | reuses an offered version without an upload; uploads exactly once otherwise, and only after everything offered validated |
| `Reconcilers.PublicationReconciler.ReadConfirmed` | src/oci_acme_publisher/reconciler.py:206-213 | a normal return means CURRENT was shown with the local fingerprint and validates |
| `Reconcilers.PublicationReconciler.Confirm` | src/oci_acme_publisher/reconciler.py:206-219 | the confirmed version is persisted before the operation is settled |
| `Reconcilers.PublicationReconciler.PromoteAndConfirm` | src/oci_acme_publisher/reconciler.py:180-219 | the target is persisted before any promotion; success means it is CURRENT with the local fingerprint |
| `Reconcilers.PublicationReconciler.ReadTagged` | src/oci_acme_publisher/reconciler.py:125-129 | tag and CURRENT, the tag no later than what CURRENT showed, and CURRENT validates |
| `Reconcilers.PublicationReconciler.Examine` | src/oci_acme_publisher/reconciler.py:116-138 | the entity tag is read before CURRENT, so the tag dates every later read |
| `Reconcilers.PublicationReconciler.BringToCurrent` | src/oci_acme_publisher/reconciler.py:153-219 | selection, promotion and confirmation together, with the exact number of requests when nothing fails |
| `Reconcilers.PublicationReconciler.Replace` | src/oci_acme_publisher/reconciler.py:153-235 | brings other material at CURRENT to the local material; the old CURRENT becomes PREVIOUS |
| `Reconcilers.PublicationReconciler.Publish` | src/oci_acme_publisher/reconciler.py:103-235 | guarded uploads under any interference; nothing sent before what was read validated; success is sound and complete in the tables; a legal protocol run as sole writer; no mutation if CURRENT matches, no upload if offered; changed exactly when CURRENT differed; with unsettled promotions it fails only after the last attempt; without faults it converges with the exact number of requests; a certificate that can be published stays so wherever it stops; the journal is the documented path |
| `Histories.VersionsAfter` | src/oci_acme_publisher/reconciler.py:125-166 | an event adds a version of the fingerprint only if it is an applied upload, which then is LATEST |
| `Histories.EventIsInterference` | src/oci_acme_publisher/oci_certificates.py:186-252 | every request and every removal by the service is interference the guarantee of a publisher allows for: a later tag or the same certificate |
| `Histories.OfferedMeansNoUpload` | src/oci_acme_publisher/reconciler.py:153-166 | once the fingerprint is LATEST no later upload of it takes effect, removals by the service included |
| `Histories.AtMostOneUpload` | src/oci_acme_publisher/reconciler.py:125-166 | a history of guarded uploads of one fingerprint applies at most one and adds at most one version |
| `Fleets.ClearMeansGuarded` | src/oci_acme_publisher/reconciler.py:125-166 | because the tag was read before CURRENT and the list, an upload under it takes effect only where neither had the fingerprint |
| `Fleets.EventKeepsInformed` | src/oci_acme_publisher/reconciler.py:125-166 | whatever else is handled, what a publisher learned stays true while its tag is current |
| `Fleets.MoveKeepsSound` | src/oci_acme_publisher/reconciler.py:281-289 | every step of every publisher keeps all of them informed and the history guarded |
| `Fleets.FleetUploadsAtMostOnce` | src/oci_acme_publisher/reconciler.py:125-166 | for any number of interleaved publishers of one material, each stopping anywhere and losing answers, among rollbacks, retention and removals: at most one upload takes effect and at most one new version exists |
| `Reentries.RunKeepsPointersValid` | src/oci_acme_publisher/reconciler.py:281-305 | no run under validating material, however it stops, makes a pointer name a bundle that does not validate |
| `Reentries.RunAddsAtMostOne` | src/oci_acme_publisher/reconciler.py:153-166 | a run that stops anywhere adds at most one version of its material over all commands before it, and then the material is LATEST |
| `Reentries.HostRunAddsAtMostOne` | src/oci_acme_publisher/cli.py:585-591 | any series of commands for one material, each stopped anywhere, among any commands on other certificates, creates at most one version of it |
| `Reentries.PublishTwice` | src/oci_acme_publisher/reconciler.py:103-235 | without faults the first publish settles with exactly the requests still needed and the second sends none and returns unchanged at the same version |
| `Reentries.PublishAgain` | tests/fault_injection/test_reconciliation_reentry.py:92-258 | after a publish that stopped anywhere, a new process settles, sends only what was undone, leaves no interrupted operation of the material and at most one new version; a further publish sends nothing |
| `Reentries.PublishAfterRollback` | src/oci_acme_publisher/reconciler.py:153-156 | a rollback from LATEST material followed by its publish serves it again with promotions only |
| `Reentries.Displace` | src/oci_acme_publisher/rollback_service.py:47-139 | a fault-free rollback from LATEST material leaves it offered and publishable |
| `Reentries.RollBackTwice` | src/oci_acme_publisher/rollback_service.py:47-139 | two rollbacks that succeed restore the certificate but for its tag, record the original CURRENT and leave the recorded local fingerprint alone |
| `Rollbacks.PreviousIsUnique` | src/oci_acme_publisher/rollback_service.py:141-151 | the versions a rollback may restore are the one PREVIOUS if unscheduled, else none |
| `Rollbacks.ListedCandidates` | src/oci_acme_publisher/rollback_service.py:141-151 | filtering any listing finds that version and at most that |
| `Rollbacks.RollbackIsAnInvolution` | src/oci_acme_publisher/rollback_service.py:47-139 | exchanging CURRENT and PREVIOUS twice restores every pointer and version |
| `Rollbacks.RollbackKeepsLatestOffered` | src/oci_acme_publisher/reconciler.py:153-156 | the LATEST material a rollback displaced is still offered, so a later publish promotes it without an upload |
| `Rollbacks.RollbackService.PreviousVersion` | src/oci_acme_publisher/rollback_service.py:141-151 | returns the unique eligible PREVIOUS, or an error |
| `Rollbacks.RollbackService.ReadPrevious` | src/oci_acme_publisher/rollback_service.py:66-71 | the validated bundle of the unique PREVIOUS and a tag at which it still was |
| `Rollbacks.RollbackService.ReadRestored` | src/oci_acme_publisher/rollback_service.py:84-96 | a normal return means CURRENT was shown with the restored version and its fingerprint |
| `Rollbacks.RollbackService.Choose` | src/oci_acme_publisher/rollback_service.py:56-77 | the operation is opened first, and the validated PREVIOUS persisted with the tag read after it |
| `Rollbacks.RollbackService.Restore` | src/oci_acme_publisher/rollback_service.py:78-102 | one promotion request; success means CURRENT was read back with that version and fingerprint |
| `Rollbacks.RollbackService.ChooseAndRestore` | src/oci_acme_publisher/rollback_service.py:56-102 | everything before the record: at most one request, CURRENT and PREVIOUS exchanged or nothing, exchanged on success |
| `Rollbacks.RollbackService.RecordVerdict` | src/oci_acme_publisher/rollback_service.py:108-126 | an audit that failed or raised closes the operation as ROLLBACK_FAILED and raises; a fault the audit does not catch leaves it pending |
| `Rollbacks.RollbackService.Settle` | src/oci_acme_publisher/rollback_service.py:103-139 | records, audits if asked, then closes; local fingerprint and all other rows unchanged |
| `Rollbacks.RollbackService.Rollback` | src/oci_acme_publisher/rollback_service.py:47-139 | success means the unique unscheduled PREVIOUS is CURRENT with its validated fingerprint and only the remote half of certificate state changed; nothing promoted that does not validate; a legal run; CURRENT and PREVIOUS exchanged or nothing; without faults the exchange happens and it fails exactly when the audit does |
| `RetentionPlans.Select` | src/oci_acme_publisher/retention_service.py:35-46 | exactly the listed versions that are eligible |
| `RetentionPlans.SortOrdered` | src/oci_acme_publisher/retention_service.py:34-49 | newest first by time created, then number |
| `RetentionPlans.EligibleNewestFirst` | src/oci_acme_publisher/retention_service.py:34-49 | with distinct numbers, strictly newest first |
| `RetentionPlans.PlanSize` | src/oci_acme_publisher/retention_service.py:49-55 | it schedules max(0, eligible minus keep) versions |
| `RetentionPlans.PlannedAreDropped` | src/oci_acme_publisher/retention_service.py:49-54 | a scheduled version lies beyond the kept part of the eligible list |
| `RetentionPlans.KeptIsRetained` | src/oci_acme_publisher/retention_service.py:49-54 | an eligible version is not scheduled if and only if it lies in the kept part |
| `RetentionPlans.PlanIsExact` | src/oci_acme_publisher/retention_service.py:22-55 | schedules what exceeds the number kept, only eligible versions, and every kept eligible version is later in (time created, number) than every scheduled one |
| `RetentionPlans.PlanIgnoresListingOrder` | src/oci_acme_publisher/retention_service.py:33-54 | the plan does not depend on the order of the listing |
| `RetentionPlans.KeepingMoreSchedulesLess` | src/oci_acme_publisher/retention_service.py:49-54 | keeping more only shrinks the plan; a retained number is never scheduled even if listed twice |
| `RetentionPlans.PlanIsSafe` | src/oci_acme_publisher/retention_service.py:33-54 | every planned number is a listed eligible version and none is planned twice |
| `RetentionPlans.ReplanningSchedulesNothing` | src/oci_acme_publisher/retention_service.py:22-55 | planning again at the same time after applying the plan schedules nothing |
| `PublicationServices.PlannedAreSchedulable` | src/oci_acme_publisher/publication_service.py:427-436 | every planned version exists, has no protected stage, is not scheduled and is not referenced by an open operation |
| `PublicationServices.PublicationService.Referenced` | src/oci_acme_publisher/publication_service.py:427-431 | exactly the versions active operations carry |
| `PublicationServices.PublicationService.ScheduleAll` | src/oci_acme_publisher/publication_service.py:438-469 | a prefix of the plan is scheduled and nothing else about the certificate changes, wherever it stops |
| `PublicationServices.PublicationService.Retention` | src/oci_acme_publisher/publication_service.py:409-472 | only due versions are scheduled (no stage but DEPRECATED, unreferenced, at least the minimum age in days), each for exactly the configured days ahead; success leaves as many due as are to be kept; nothing when disabled; a legal run |
| `PublicationServices.PublicationService.SchedulePlan` | src/oci_acme_publisher/publication_service.py:409-472 | the remote is unchanged or scheduled by a prefix of the plan of its own listing and open operations, the whole plan on success |
| `PublicationServices.EligibleIsDue` | src/oci_acme_publisher/retention_service.py:35-46 | a listed version is eligible if and only if it is due in terms of pointers, references, deletion and literal age |
| `PublicationServices.PlannedAreDue` | src/oci_acme_publisher/retention_service.py:30-54 | what a plan schedules was due, and is deleted exactly the configured number of days later |
| `PublicationServices.PlanLeavesTheKept` | src/oci_acme_publisher/retention_service.py:49-54 | after a whole plan exactly the newest to be kept are still due |
| `PublicationServices.AuditStatements` | src/oci_acme_publisher/publication_service.py:325-331 | a successful audit closes its own row and every stale audit row of the certificate, records the audit time and touches nothing else |
| `PublicationServices.PublicationService.OpenAudit` | src/oci_acme_publisher/publication_service.py:294-305 | the audit is logged and pending before anything is read |
| `PublicationServices.PublicationService.ReadExpected` | src/oci_acme_publisher/publication_service.py:308-317 | the expected fingerprint is CURRENT's, validated |
| `PublicationServices.PublicationService.CompleteAudit` | src/oci_acme_publisher/publication_service.py:327-334 | success, audit time, completion and the closing of stale audits in this order |
| `PublicationServices.PublicationService.RecordAudit` | src/oci_acme_publisher/publication_service.py:316-343 | a mismatch returns false and an audit error raises, both closing the row as AUDIT_FAILED with its error code; a fault nothing catches leaves the row pending |
| `PublicationServices.PublicationService.Audit` | src/oci_acme_publisher/publication_service.py:287-346 | a legal run that never touches the remote; what it reports is exactly the verdict on the endpoints: true, false, an audit error, or an uncaught fault that leaves the row for a later audit to close; only against a CURRENT that validates |
| `PublicationServices.PublicationService.RunPostPublicationAudit` | src/oci_acme_publisher/publication_service.py:474-507 | nothing at all when disabled; observing never fails but for a fault; enforcing a failed audit succeeds only by restoring PREVIOUS; without faults it passes exactly when the policy is content |
| `PublicationServices.PublicationService.AuditOutcome` | src/oci_acme_publisher/publication_service.py:480-484 | an audit error counts as a mismatch, any other exception is raised |
| `PublicationServices.PublicationService.EnforcePostPublicationAudit` | src/oci_acme_publisher/publication_service.py:474-492 | a failed audit raises, or rolls back where policy says so: success then means CURRENT and PREVIOUS were exchanged, and without faults a restorable PREVIOUS is restored |
| `PublicationServices.PublicationService.RunPostPublicationRetention` | src/oci_acme_publisher/publication_service.py:509-528 | nothing when disabled; only due versions scheduled; what retention met is raised exactly when it is none of the failures to be swallowed |
| `PublicationServices.RollbackTargetSurvives` | docs/rollback.md:3-7 | in a sound state retention leaves PREVIOUS eligible for rollback |
| `PublicationServices.MovedKeepsTarget` | docs/rollback.md:3-7 | a run that moved CURRENT leaves exactly one eligible PREVIOUS, wherever it stops |
| `PublicationServices.PublishedIsRestorable` | src/oci_acme_publisher/rollback_service.py:141-151 | after a publication that moved CURRENT, what was CURRENT can be restored |
| `PublicationServices.PublicationService.Converge` | src/oci_acme_publisher/publication_service.py:170-190 | success serves the local material and settles it; what it displaced is PREVIOUS and can be restored; nothing sent if it was CURRENT; one eligible PREVIOUS whenever CURRENT moved; succeeds whenever nothing fails and the certificate can be published |
| `PublicationServices.PublicationService.FollowUp` | src/oci_acme_publisher/publication_service.py:198-199 | audit and retention after a publication: pointers stay, or are exchanged by an enforced rollback; without faults success is exactly the policy's, and no more due versions are left than are to be kept |
| `PublicationServices.WholeCommand` | src/oci_acme_publisher/publication_service.py:153-203 | a publication and what follows it are one run, which keeps what either of them keeps |
| `PublicationServices.PublicationService.Publish` | src/oci_acme_publisher/publication_service.py:153-203 | publish, audit and retention together are one legal run; success serves the local material, or has it rolled back to PREVIOUS where policy enforces that; one eligible PREVIOUS is left whether the command returned, failed or died; without faults success is exactly the policy's and retention is complete |
| `Bootstraps.FreshUnidentified` | src/oci_acme_publisher/publication_service.py:215-225 | fresh material brings no new claim to an identity |
| `Bootstraps.FreshIdentified` | src/oci_acme_publisher/publication_service.py:215-225 | fresh material leaves an agreed identity agreed |
| `Bootstraps.RunKeepsIdentity` | src/oci_acme_publisher/publication_service.py:251-270 | every run of a publication under the confirmed identity keeps it |
| `Bootstraps.RunLeavesOthers` | src/oci_acme_publisher/publication_service.py:235-285 | a run changes and adds only rows and state of its own certificate, absorbs terminal rows and logs only issued material |
| `Bootstraps.CommandKeeps` | src/oci_acme_publisher/publication_service.py:251-270 | for whatever a command under an identity did before it stopped: the identity stays agreed, other certificates are untouched, terminal rows absorb, and a sound certificate stays sound |
| `Bootstraps.ClaimAdvances` | src/oci_acme_publisher/publication_service.py:566-620 | the single claim stays single until it completes, which confirms its identity, or fails, which leaves none |
| `Bootstraps.Publisher.BootstrapCandidates` | src/oci_acme_publisher/publication_service.py:644-653 | exactly the open bootstrap operations of this material that carry an OCID, each once |
| `Bootstraps.Publisher.FinishBootstrap` | src/oci_acme_publisher/publication_service.py:654-697 | returns the logged OCID only if its CURRENT is the local material, and settles exactly that operation; always succeeds then if nothing fails |
| `Bootstraps.Publisher.RecoverBootstrap` | docs/disaster-recovery.md:10-17 | no recovery exactly leaves the tables alone with no such operation; several are an error; one is finished and its OCID returned |
| `Bootstraps.Publisher.CloseRejected` | src/oci_acme_publisher/publication_service.py:622-630 | the failures that prove a mismatch close the operation as OCI_VERSION_FAILED; every other failure leaves it open for recovery |
| `Bootstraps.Publisher.VerifyCreated` | src/oci_acme_publisher/publication_service.py:592-633 | success means the new certificate serves the local material and the operation is settled; a mismatch closes it as failed |
| `Bootstraps.Publisher.CreateLogged` | src/oci_acme_publisher/publication_service.py:570-591 | exactly one create request; the identity it returned is persisted on the operation before anything reads it; a failed creation closes the operation |
| `Bootstraps.Publisher.Create` | src/oci_acme_publisher/publication_service.py:566-594 | logged intent, one proper create request and the logged identity, in this order |
| `Bootstraps.Publisher.CreateAndVerify` | src/oci_acme_publisher/publication_service.py:566-633 | intent is logged before the only create request, which is sent over no open bootstrap of the material; success returns a new identity that serves it |
| `Bootstraps.Publisher.IssueInitial` | src/oci_acme_publisher/publication_service.py:538-553 | issues for one certificate alone, and leaves one without identity without one |
| `Bootstraps.Publisher.IssueNext` | src/oci_acme_publisher/publication_service.py:205-225 | issues for one certificate alone, and leaves a confirmed identity agreed |
| `Bootstraps.Publisher.RecoverOrCreate` | src/oci_acme_publisher/publication_service.py:551-621 | an interrupted bootstrap of the material is finished instead of creating; success returns an identity that serves the material |
| `Bootstraps.Publisher.Bootstrap` | src/oci_acme_publisher/publication_service.py:530-633 | at most one create request, never over an open bootstrap of the same material; refused under a configured OCID; success returns an identity that serves the local material, is the only one, and is sound for host runs to begin with; every existing remote certificate is unchanged; without faults it fails only for want of valid material or over an interrupted bootstrap that cannot be finished |
| `Bootstraps.Publisher.Renew` | src/oci_acme_publisher/publication_service.py:205-233 | works on the given certificate and no other; success serves the material it issued there; never creates, keeps the agreed identity and a sound certificate sound; without faults it fails only for want of material or where the certificate cannot be published or its audit fails |
| `Bootstraps.Publisher.Perform` | src/oci_acme_publisher/cli.py:647-667 | each task does its own work: publication serves the material, rollback exchanges CURRENT and PREVIOUS, retention schedules only due versions and tidies up, audit leaves the remote alone; without faults each succeeds on a certificate that allows it, whose audit turns out well |
| `Bootstraps.Publisher.CommandUnder` | src/oci_acme_publisher/publication_service.py:153-203 | a task under one identity, ended, failed or dead: its effect is on that certificate alone and is that task's; identity agreed, other rows untouched, terminal rows absorbed, a sound certificate sound; material that does not validate is not published; without faults it succeeds where its work can be done |
| `Bootstraps.Publisher.RenewOne` | src/oci_acme_publisher/publication_service.py:243-273 | works only on the configured certificate or one a completed row confirmed; success makes the reported version CURRENT there with the set's material; creates only without any confirmed OCID and without an open bootstrap of the material; without faults it fails only for want of material or where something hinders renewal or bootstrap |
| `Bootstraps.Publisher.RenewAll` | src/oci_acme_publisher/publication_service.py:235-285 | every set has exactly one result or failure, in order; exactly the named failures go on; without faults a set fails only for want of material or because something hindered it before the batch began; every reported version is CURRENT of the certificate its set designates with the set's material; a certificate no set may work on is untouched; identities kept, other certificates spared, terminal rows absorbed, no create request over a confirmed or open identity |
| `Bootstraps.Publisher.IsContained` | src/oci_acme_publisher/publication_service.py:86-99 | the failures after which a batch goes on |
| `Bootstraps.Publisher.RenewNext` | src/oci_acme_publisher/publication_service.py:239-285 | one more set has one result or failure more and keeps what the batch did and reported so far |
| `Bootstraps.Publisher.BatchEnds` | src/oci_acme_publisher/publication_service.py:239-285 | wherever a batch ends, strangers are untouched, and at its end every report holds |
| `Bootstraps.HinderedBefore` | src/oci_acme_publisher/publication_service.py:239-285 | other sets of a batch hinder no set whose certificate they leave alone |
| `Bootstraps.BatchServesOn` | src/oci_acme_publisher/publication_service.py:239-285 | one more set undoes no earlier report and touches no stranger's certificate |
| `Bootstraps.BatchGoesOn` | src/oci_acme_publisher/publication_service.py:239-285 | one more set of a batch keeps what the batch kept so far, for every set and every other certificate |
| `Bootstraps.Publisher.Command` | src/oci_acme_publisher/cli.py:647-667 | each command of the host absorbs terminal rows and keeps the log consistent, whatever becomes of it |
| `Bootstraps.Publisher.Serve` | src/oci_acme_publisher/cli.py:585-591 | over any series of commands of every kind on all certificates, each under its own settings, each ended, failed or dead: between any two points terminal rows are the same and completed means terminal |
| `Bootstraps.IdentityNeverChanges` | src/oci_acme_publisher/publication_service.py:243-273 | over any number of batches all completed operations of a certificate ever carry one OCID |
| `GenerationStores.CommitIsAtomicExactlyWhen` | src/oci_acme_publisher/certificate_store.py:83-123 | for every point and kind of failure: other generations untouched and `current` old, or new and complete, if and only if no exception after the swap cleaned up |
| `GenerationStores.FailedCommitLeavesNothing` | src/oci_acme_publisher/certificate_store.py:115-122 | a commit that raised before the swap and was cleaned up leaves every generation and `current` as they were |
| `GenerationStores.TakenNameIsRefused` | src/oci_acme_publisher/certificate_store.py:97-98 | an existing generation name is refused and nothing of it touched |
| `GenerationStores.AtomicForEveryFaultExactlyWhen` | src/oci_acme_publisher/certificate_store.py:105-122 | where only calls raise, atomic for every fault if and only if not run as root |
| `GenerationStores.CleanupCanRemoveThePublishedGeneration` | src/oci_acme_publisher/certificate_store.py:115-122 | the failing case, as root and otherwise: `current` names a generation that is gone and loading fails |
| `GenerationStores.CommitPublishes` | src/oci_acme_publisher/certificate_store.py:83-123 | an undisturbed commit makes `current` the new complete generation and keeps all others |
| `GenerationStores.LoadsExactlyWhen` | src/oci_acme_publisher/certificate_store.py:52-81 | loading returns material exactly when `current` names a complete generation of it inside the lineage, within the limits, that parses |
| `GenerationStores.CommitRoundTrips` | src/oci_acme_publisher/certificate_store.py:52-81 | committed material reads back byte for byte if and only if it fits the limits and parses |
| `GenerationStores.ValidatedMaterialFits` | src/oci_acme_publisher/certificate_validator.py:181-184 | material the validator admits fits the read limits |
| `GenerationStores.NativeCertificateStore.WriteNew` | src/oci_acme_publisher/certificate_store.py:154-164 | partial writes add up to the content; a struck write leaves nothing or a prefix |
| `GenerationStores.NativeCertificateStore.CleanUp` | src/oci_acme_publisher/certificate_store.py:115-121 | removes the three files and the directory in order, as far as the file system lets it, all of them where it lets it |
| `GenerationStores.NativeCertificateStore.TryCommit` | src/oci_acme_publisher/certificate_store.py:92-122 | the calls in order, stopped anywhere, are exactly the specified commit under some fault |
| `GenerationStores.NativeCertificateStore.CommitGeneration` | src/oci_acme_publisher/certificate_store.py:83-123 | atomic with the condition above; a taken name changes nothing; a commit that raised before the swap leaves nothing behind where removals go through; what a successful commit returns is the committed material if and only if it fits and parses |
| `ChainBuilders.WalkPath` | src/oci_acme_publisher/chain_builder.py:87-97 | succeeds if and only if leaf, intermediates and root form an issuer, CA and signature path (sections 6.1.3 and 6.1.4 of RFC 5280), and names a defect otherwise |
| `ChainBuilders.BuildOciChain` | src/oci_acme_publisher/chain_builder.py:71-108 | succeeds if and only if path, allowlists, family and size rules hold; the result is the intermediates without the root followed by the pinned root; every error names a defect that is there |
| `ChainBuilders.SizeJoined` | src/oci_acme_publisher/chain_builder.py:103-107 | the bundle size checked is the sum over leaf, intermediates and root |
| `ChainBuilders.RootCopiesAreIgnored` | src/oci_acme_publisher/chain_builder.py:79-81 | a copy of the root anywhere in the input changes neither verdict nor chain |
| `ChainBuilders.BuiltChainBuildsItself` | src/oci_acme_publisher/chain_builder.py:71-108 | a built chain fed back builds the same chain |
| `ChainBuilders.SelectChain` | src/oci_acme_publisher/acme_service.py:235-277 | selects if and only if an acceptable candidate has no leaf-only candidate before it, and then the first acceptable one |
| `ChainBuilders.LeafOnlyCandidateHidesALaterOne` | src/oci_acme_publisher/acme_service.py:249-250 | a leaf-only candidate hides an acceptable one behind it |
| `Pagination.ListVersions` | src/oci_acme_publisher/oci_certificates.py:116-144 | terminates over finitely many tokens, reads no page twice, succeeds if and only if the token chain is valid and ends, with the pages in order; each error is the one its last page calls for |
| `Pagination.WalksAgree` | src/oci_acme_publisher/oci_certificates.py:123-144 | any two walks of one server agree, the shorter being a prefix of the longer |
| `Pagination.WalkDecides` | src/oci_acme_publisher/oci_certificates.py:131-144 | where a walk stands decides whether a complete chain exists and how it goes on |
| `Pagination.StuckMeansIncomplete` | src/oci_acme_publisher/oci_certificates.py:131-143 | a broken page or an empty or repeated token means no complete chain exists |
| `Retries.DelayBounds` | src/oci_acme_publisher/oci_retry.py:35-40 | a Retry-After is honoured up to the maximum; otherwise the delay spans zero to the smaller of the maximum and the doubled base |
| `Retries.CeilingIsTheSmaller` | src/oci_acme_publisher/oci_retry.py:39-40 | without Retry-After the delay is drawn below the smaller of the maximum and the base doubled once an attempt |
| `Retries.RetryableException` | src/oci_acme_publisher/oci_retry.py:55-71 | transient responses, the eventually consistent not-found and transport errors are translated, with Retry-After only from responses; nothing else is |
| `Retries.SleepCeilingLinear` | src/oci_acme_publisher/oci_retry.py:74-84 | n sleeps take at most n times the maximum |
| `Retries.SleepCeilingExponential` | src/oci_acme_publisher/oci_retry.py:35-40 | n sleeps without Retry-After take at most base times (2 to the n, minus 1) |
| `Retries.PromotionSleepsAtMostNinetySeconds` | src/oci_acme_publisher/reconciler.py:245-269 | for every allowed number of attempts promotion retries sleep at most 90 seconds |
| `Retries.RetryReadSync` | src/oci_acme_publisher/oci_retry.py:74-84 | at most n calls; all but the last were retryable errors; the last reply is the result; a retryable last reply only at the n-th call; every Retry-After waited for; sleep bounds |
| `Retries.RetryReadUntilSync` | src/oci_acme_publisher/oci_retry.py:87-105 | likewise, and an unaccepted value is returned only from the n-th call |
| `Audits.CheckEndpoint` | src/oci_acme_publisher/audit_service.py:151-172 | the verdict over returned texts is exactly: every address, or one where one suffices, serves the fingerprint, and all addresses are allowed |
| `Audits.Once` | src/oci_acme_publisher/audit_service.py:144-149 | the endpoints that do not match, in order |
| `Audits.Audit` | src/oci_acme_publisher/audit_service.py:125-142 | between 1 and ceil(T/I)+1 passes; success if the last pass matched everywhere; enforce mode never returns unsuccessful; it never passes over a matching pass nor gives up before the deadline |
| `Audits.Judge` | src/oci_acme_publisher/audit_service.py:125-142 | the verdict operations act on: converged if and only if disabled or the last pass matched everywhere, a fault if and only if a resolver failed in it, mismatches only when observing, errors only when enforcing |
| `Alerts.Notifier.Notify` | src/oci_acme_publisher/notification_service.py:56-109 | suppressed exactly when off or when the last delivery had this status within the interval; at most two posts, the second exactly after a client error, a server error or 429; what is returned is exactly what the last post met; only a delivery is recorded; the spacing of deliveries is kept |
| `Alerts.Notifier.SpacingExtends` | src/oci_acme_publisher/state_store.py:399-427 | consecutive deliveries of a key with unchanged status are more than the interval less one second apart |
| `Configs.CheckCertificate` | src/oci_acme_publisher/config.py:363-379 | accepts exactly the certificates with distinct domains led by the common name, a short name, a certificate OCID and endpoints where audited |
| `Configs.CheckIdentities` | src/oci_acme_publisher/config.py:408-422 | one pass accepts exactly disjoint domains and compatible OCIDs; each error names a clash that is there |
| `Configs.CheckCrossFields` | src/oci_acme_publisher/config.py:398-435 | accepts exactly the configurations that satisfy every cross-field rule |
| `Configs.AcceptedHasDistinctOcids` | src/oci_acme_publisher/config.py:363-435 | every accepted configuration has pairwise distinct OCIDs |
| `Configs.OcidCheckSufficesExactlyWhen` | src/oci_acme_publisher/config.py:416-422 | what the OCID check admits has distinct OCIDs if and only if no two sets share both OCID and common name |
| `Configs.OcidCheckAloneAllowsSharing` | src/oci_acme_publisher/config.py:416-422 | the OCID check alone admits two sets sharing an OCID |

## Left out

- Fleets.FleetUploadsAtMostOnce: publishers are modelled by their single steps up to the upload; that the service removes only versions no pointer names is its contract.
- Protocol.WriteAheadAlways: holds under the host lock only, as publishers that bypass it could close each other's running operations; a further manual bootstrap of a certificate that already has an identity is no step of a host run.
- Protocol.TerminalIsAbsorbing: holds under the host lock only, for the same reason.
- Protocol.ScheduledStaysDeprecated: another writer of the certificate could promote a scheduled version; the claim is about runs serialized by the host lock.
- Protocol.RunKeepsSound: the service may remove versions at any point of a run, but the services are shown to be runs in which it removes none while one of their commands is under way.
- Reconcilers.PublicationReconciler.FindMatchingPending: does not say which match is returned when both PENDING and LATEST match, as the service chooses the listing order.
- Reconcilers.PublicationReconciler.Publish: convergence assumes that CURRENT, PENDING and LATEST bundles validate; otherwise the code raises.
- Bootstraps.Publisher.RenewAll: identity is claimed for sets without a configured OCID and for batches alone; a manual `bootstrap` after a confirmed identity, a crash between create and its persisted transition, and a run marked OCI_VERSION_FAILED are not excluded from leaving another certificate behind.
- Bootstraps.Publisher.Command: promises what every command keeps; what each command accomplishes is stated by the method it calls.
- Bootstraps.Publisher.Serve: likewise.
- Bootstraps.Publisher.Issue: every issuance has a new fingerprint; when it is due is arbitrary.
- Alerts.Notifier.Notify: a delivery whose record the store refuses is not modelled, nor calls without a deduplicator.
- Audits.Audit: probes of one pass are a function of the pass; their concurrency and timeouts are not modelled.
- Configs.CheckCertificate: the byte length of a common name is its number of characters, as normalized domains are ASCII.
- ETags that the service omits: the compare-and-swap claims need one, so tags are always present.
- Requests that take effect after their sender died: a lost request is applied when it is sent or never.
- Adapter reads are one step each; their retries are modelled separately in `Retries`, and the asynchronous `retry_read` is the same loop.
- Columns for request ids, start and update times, the last error code, and version labels.
- Logging, notifications sent by the services, preflight, production qualification, the command line, metrics, status and support output.
- SQLite: each statement is atomic or fails without effect; migrations and multi-statement transactions are not modelled.
- Filesystem permissions, ownership, durability and files the store did not create.
- Rounding of floating-point delays (`real` is used, jitter is any share between 0 and 1) and responses whose Retry-After is not a number of seconds.
- X.509 parsing, signatures, PEM encoding, TLS, DNS and the ACME exchange: abstract predicates and fields.
