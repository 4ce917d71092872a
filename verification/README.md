# Verification of the lifecycle service

Models in Dafny of three parts of the backend, and proofs about them.

**The durable lifecycle protocol.** `Rows` holds the rows: projects, lifecycle jobs, one-time
re-authentication grants, the audit log and the runtime resource registry. `LifecycleQueue`,
`LifecycleRequests` and `ProvisionStore` give every committed transaction as a function of the
database; `LifecycleStore` has the same transactions as methods that update rows in place and roll
back, each proved equal to its function. `LifecycleSystem` puts them together: any number of workers
with a program counter, crashes anywhere, the advisory lock of the saga, and API requests, each event
with its own clock reading. `StoreInvariant`, `SystemInvariant`, `SystemSteps`, `SagaSteps` and
`WorkerSteps` carry the invariant over all of it; `LifecycleRuns`, `SagaSafety`, `RequestTheorems`,
`TransitionTheorems`, `DeletionGrants`, `ProvisionPossible` and `ClaimLoop` state the results about runs;
`QueueOutcomes`, `RequestOutcomes`, `ProvisionOutcomes` and `WorkerOutcomes` say on the fields of the rows
what each transaction and each step does.
`RetryDelay` is the backoff the queue uses.

**The redaction scanners.** `Redaction` specifies the assignment scanner as functions of the text and
an index, `RedactionScanner` has its loops, `RedactionSpans` says what may change, and `RedactedValues`
with `RedactionIdempotent` follow a second scan beside the first one. `ValueEnds`, `BlockScalars`,
`FlowValues`, `SecretNames`, `SecretTexts`, `LineHeads` and `ReachedKeys` characterise keys, values and the
heads of lines by the text alone, and prove that the scanner takes exactly those. `PrivateKeys` has the
private key pass, `PrivateKeyTheorems` and `KeyBlocks` what it replaces, `PrivateKeyLimits`, `OpenMarkers` and `SecondPass` what it
leaves standing and when a second pass finds more.

**The convergent resource managers.** `ProjectDatabases` models the PostgreSQL role and database manager
against a catalog that others may change between its statements. `ArtifactPublication` is the state
machine of concurrent renders of one generation, `EnvFile` the environment file and `RateLimit` the
re-authentication counters.

Where the code differs from what its comments or names suggest, the model follows the code:

- The transition table does not cover every status change. A terminal job failure writes the project
  status directly, so READY can become PROVISION_FAILED (`StatusChangesExactly`, `ReadyCanFallBack`).
- Publishing a generation "together" does not look at how many bytes a write took
  (`VisibleIsOfOneRender`, `ShortWriteIsPublished`).
- The exact secret key names are all implied by the segment rule (`SecretKeysAreMarked`).
- A secret key without a value takes the head of the next line from it, because the scan steps over the
  break: a block scalar there is taken for a flow value and its lines stay (`HeadExactly`,
  `EmptyValueHidesBlock`).
- Six hyphens in a row let the private key pass step over a header (`SixHyphensHideHeader`), and a second
  pass may then replace it (`SecondPassCanRedact`).
- A creation that fails between its statements can leave a database without its mark, which then blocks the
  project (`UnmarkedLeftExactly`).

`dafny verify dfyconfig.toml` checks the whole project.

## Model

| member | source | states |
|---|---|---|
| `LifecycleRuns.Coupling` | backend/app/services/lifecycle_queue.py:65-343 | in every reachable state, whatever the interleaving of requests, workers and crashes: a project has at most one active job; an active PROVISION job means PROVISIONING or READY; PROVISIONING means there is an active PROVISION job; DELETING holds exactly when there is an active DELETE job |
| `TransitionTheorems.StatusChangesExactly` | backend/app/services/project_lifecycle.py:16-26 | every committed status change of every run is in the transition table or is READY to PROVISION_FAILED; and that one happens exactly when the step fails a PROVISION job that has published READY and is not completed, a condition on the state and the event before the step |
| `TransitionTheorems.JobFailsExactly` | backend/app/services/lifecycle_queue.py:285-343 | a step fails a job exactly when an idle worker's claim query finds it running on its last attempt, or a worker whose runner raised still owns it and the error is permanent or the attempts are used up |
| `TransitionTheorems.JobSucceedsExactly` | backend/app/services/lifecycle_queue.py:195-222 | a step makes a job SUCCEEDED exactly when a worker whose runner returned finalizes a job it still holds; then lease and error are gone, the finish is stamped, nothing else changes, and the job is a provision whose project is READY |
| `TransitionTheorems.JobClaimedExactly` | backend/app/services/lifecycle_queue.py:65-137 | a step raises the attempt of a job exactly when an idle worker's claim takes it as the first claimable job with attempts left; the worker then holds it for one lease and runs it |
| `TransitionTheorems.JobRetriedExactly` | backend/app/services/lifecycle_queue.py:285-343 | a step makes a job wait for a retry exactly when the worker that holds it reports an error that is not permanent while attempts are left |
| `QueueOutcomes.HeartbeatExactly` | backend/app/services/lifecycle_queue.py:140-192 | accepted exactly from the holder, who from then on holds the job at every instant before the end of a whole new lease and at none after it |
| `QueueOutcomes.CompleteExactly` | backend/app/services/lifecycle_queue.py:195-222 | accepted exactly from the holder, with the row left then, field by field |
| `QueueOutcomes.RetryExactly` | backend/app/services/lifecycle_queue.py:285-343 | for the holder's error that is not final: the row left waiting, for the base doubled with each attempt but the first, plus jitter, within the cap |
| `QueueOutcomes.FinalErrorFails` | backend/app/services/lifecycle_queue.py:285-325 | for one that is permanent or comes with the attempts used up: the job is failed with its code, cut to 64 characters |
| `QueueOutcomes.FailJobExactly` | backend/app/services/lifecycle_queue.py:230-282 | the rows and the audit event a terminal failure leaves, by operation |
| `QueueOutcomes.SelectedExactly` | backend/app/services/lifecycle_queue.py:78-106 | the query finds exactly the job that can be claimed, is not locked by others, and comes before every other such job by time available, time created and identifier |
| `QueueOutcomes.ClaimExactly` | backend/app/services/lifecycle_queue.py:65-137 | a claim takes that job, or fails it if its attempts are used up; the row left in either case, field by field |
| `ProvisionPossible.ReadyCanFallBack` | backend/app/services/lifecycle_queue.py:230-247 | the change outside the table does happen: a run in which the publishing worker crashes, the lease expires and the next attempt fails the READY project |
| `ProvisionPossible.CanPublish` | backend/app/services/compose_provisioner.py:235-270 | a live attempt whose project is PROVISIONING and that has not seen a required service down can be driven to READY by a world that answers well, so the safety results are not about an empty set of runs |
| `ProvisionPossible.LiveAttemptCanPublish` | backend/app/services/compose_provisioner.py:235-270 | in every reachable state that holds for each worker in the saga with a live lease: the project's status need not be asked for. Left out are an attempt that starts after a publication, one that waits for the lock, and one that has seen a service down |
| `LifecycleRuns.DeletionIsFinal` | backend/app/routers/admin.py:327-337 | once a deletion is accepted the project is DELETING or DELETION_FAILED in every later state |
| `LifecycleRuns.DeletionRejectedByIndex` | backend/app/models/project_lifecycle_job.py:83-90 | of the delete requests that pass every guard the active-job index rejects exactly those for a READY project whose PROVISION job has published and is unfinished |
| `LifecycleRuns.FailedToQueueAtInsert` | backend/app/routers/admin.py:440-468 | the reply that a deletion could not be queued comes only from a request that passed every guard |
| `LifecycleRuns.UnfinishedProvisionBlocksDeletion` | backend/app/routers/admin.py:405-468 | conversely, while such a job is unfinished no deletion request changes anything |
| `LifecycleRuns.RetryNeverRejectedByIndex` | backend/app/routers/projects.py:327-397 | the active-job index never rejects a provision retry: a refused insert is an identifier collision |
| `LifecycleRuns.CreateNeverRejectedByIndex` | backend/app/services/project_operations.py:96-183 | nor does it reject a creation: a project that does not exist has no active job |
| `LifecycleRuns.ClaimsAreUnique` | backend/app/services/lifecycle_queue.py:110-130 | two claims of one job in a run have different attempt numbers, the later one the higher |
| `LifecycleRuns.FencedForEver` | backend/app/services/lifecycle_queue.py:140-222 | an overtaken or finished attempt can never heartbeat, complete or retry again and changes nothing, for arbitrary clock readings and even with the same worker id |
| `LifecycleRuns.TerminalIsAbsorbing` | backend/app/services/lifecycle_queue.py:195-222 | a SUCCEEDED or FAILED job row never changes again |
| `LifecycleRuns.OwnerActsOrIsReclaimed` | backend/app/services/lifecycle_queue.py:83-95 | for a running job, at every instant the owner may act exactly when the job is not claimable by expiry |
| `LifecycleRuns.BoundedWork` | backend/app/services/lifecycle_queue.py:77-134 | claims, retries and terminations of a job total at most twice its permitted attempts; attempt never exceeds the maximum, strictly below it while waiting |
| `SagaSafety.ReadyIsEarned` | backend/app/services/compose_provisioner.py:467-481 | a step that makes a project READY is the publication of a live lease owner whose attempt ensured role and database, rendered the artifact and passed readiness, after a successful init of this generation, and its inspection after readiness reported for each of the five required services, last, the state running and no health text but healthy or running, in rows this attempt wrote from that inspection and the registry shows |
| `SagaSafety.RequiredRunningExactly` | backend/app/services/compose_provisioner.py:388-403 | the last check passes exactly when each of the five services, named one by one, has a report and its last one has the state running and a health that is empty, healthy or running |
| `WorkerOutcomes.LastCheckExactly` | backend/app/services/compose_provisioner.py:266-270 | in every run an attempt at its last check goes on to publish exactly when what it saw after readiness passes so, and else ends with an error that is not permanent |
| `WorkerOutcomes.InitIsNotRepeated` | backend/app/services/compose_provisioner.py:256-259 | in every run the init service is started only where the registry does not say that the init container of this generation has exited |
| `WorkerOutcomes.SagaEndsExactly` | backend/app/services/compose_provisioner.py:235-320 | a step of the saga raises exactly the error of its place, gives up silently exactly when it finds its job lost, returns exactly at the end; whoever leaves frees the project's lock |
| `WorkerOutcomes.BeatExactly` | backend/app/workers/lifecycle.py:83-142 | a heartbeat ends the attempt exactly when the job is lost, and otherwise changes the lease alone |
| `WorkerOutcomes.BrokenExactly` | backend/app/workers/lifecycle.py:120-142 | a heartbeat that breaks ends the attempt with its error and a crash without one; either frees the lock of its project alone |
| `WorkerOutcomes.RecordingExactly` | backend/app/services/compose_provisioner.py:322-343 | the registry rows of role, database and rendered artifact |
| `ProvisionOutcomes.StepTellsPosition` | backend/app/services/compose_provisioner.py:316-320 | in every reachable state the durable step of a live attempt's job is the one the attempt has entered last |
| `ProvisionOutcomes.UpsertExactly` | backend/app/services/compose_provisioner.py:422-465 | one registry row is written, under its name and generation, and no other |
| `ProvisionOutcomes.MarkMissingExactly` | backend/app/services/compose_provisioner.py:362-387 | exactly the container rows of this generation for required services of which no container was seen become absent |
| `ProvisionOutcomes.InitSkippedExactly` | backend/app/services/compose_provisioner.py:405-420 | init is skipped exactly when its container row of this generation says exited |
| `ProvisionOutcomes.InspectionExactly` | backend/app/services/compose_provisioner.py:576-581 | the status recorded for a container by its state and health, and the rows of network and volumes |
| `ProvisionOutcomes.PublishExactly` | backend/app/services/compose_provisioner.py:467-481 | READY is published exactly by the holder for a project that is PROVISIONING or PROVISION_FAILED; the rows left then |
| `SagaSafety.AttemptsNeverInterleave` | backend/app/services/compose_provisioner.py:273-293 | between two side effects of one attempt no other attempt acts on the project |
| `SagaSafety.LostAttemptStaysInStep` | backend/app/services/compose_provisioner.py:537-554 | an attempt that lost its lease performs nothing beyond the step it is in, in any further run, and cannot publish READY |
| `SagaSteps.SagaKeeps` | backend/app/services/compose_provisioner.py:235-270 | every step of the saga keeps the system invariant: evidence of what the attempt did, registry contents, lock ownership, uninterleaved effects |
| `WorkerSteps.NextKeeps` | backend/app/workers/lifecycle.py:106-250 | every event of a worker (claim, heartbeat, saga step, finalizer, crash) and of the API keeps the system invariant |
| `WorkerSteps.RunKeeps` | backend/app/workers/lifecycle.py:144-250 | the invariant holds after every run |
| `RequestTheorems.OneJobPerKey` | backend/app/services/project_operations.py:166-208 | no two jobs carry the same idempotency key |
| `RequestTheorems.TakenKeyChangesNothing` | backend/app/routers/projects.py:307-397 | a create, retry or delete request whose key is taken leaves the database as it is |
| `RequestTheorems.CreateReplays` | backend/app/services/project_operations.py:185-208 | the same creation, repeated in any later state, returns the same project and job and changes nothing |
| `RequestTheorems.RetryReplays` | backend/app/routers/projects.py:307-325 | the same for a provision retry |
| `RequestTheorems.DeletionReplays` | backend/app/routers/admin.py:302-325 | the same for a deletion, with or without a grant |
| `RequestTheorems.AuditConservation` | backend/app/services/lifecycle_queue.py:249-282 | every job has exactly one "requested" event, every FAILED job exactly one "failed" event, and there are no others; each names its job's project, requester and kind, a failure also its attempt and error code |
| `RequestOutcomes.GrantsAreSpentInTime` | backend/app/routers/admin.py:372-403 | in every reachable state a consumed grant was consumed before it expired |
| `RequestOutcomes.DeletionExactly` | backend/app/routers/admin.py:282-473 | a deletion is accepted as new exactly when project, status, confirmation, key and grant permit it: the grant is one of this user for deleting this project, unspent, unexpired and newer than the last failed deletion; the rows left then, the grant spent among them |
| `RequestOutcomes.DeletionAnsweredFromKey` | backend/app/routers/admin.py:302-325 | a deletion answered with an older job is answered with the one that was made for this very request |
| `RequestOutcomes.RetryProvisionExactly` | backend/app/routers/projects.py:282-397 | a retry is accepted as new exactly for a FAILED provision of a PROVISION_FAILED project under a free key, and the job queued then |
| `RequestOutcomes.CreateExactly` | backend/app/services/project_operations.py:66-211 | a creation is accepted as new exactly when slug, key and identifiers are free, and the rows inserted then |
| `RequestOutcomes.CreateOtherwise` | backend/app/services/project_operations.py:166-208 | otherwise the key decides, then the slug: the same request gets its job again, another one a conflict |
| `RequestOutcomes.RefusalExactly` | backend/app/services/reauth.py:129-173 | of the eight things that can stand against a grant the first in their order is the reason audited, under the account if it is known |
| `RequestTheorems.GrantBijection` | backend/app/routers/admin.py:354-434 | consumed grants and DELETE jobs correspond one to one, each grant spent by its user on its project |
| `RequestTheorems.GrantConsumedOnce` | backend/app/routers/admin.py:372-434 | a consumed grant stays with its job for ever |
| `DeletionGrants.DeletionsChain` | backend/app/routers/admin.py:354-403 | with a monotone clock a later DELETE job of a project spent a grant created strictly after the earlier one had failed |
| `DeletionGrants.BoundaryCoversFailures` | backend/app/routers/admin.py:354-370 | the boundary read from the latest failed deletion is not before the finish of any failed deletion of the project |
| `ClaimLoop.EachTurnTerminatesOne` | backend/app/services/lifecycle_queue.py:109-121 | each `continue` of the claim loop takes one exhausted job out, which is why the loop ends |
| `ClaimLoop.ClaimsFirstWithAttempts` | backend/app/services/lifecycle_queue.py:77-134 | with other rows locked in every turn, the loop claims the least job in (available_at, created_at, id) order that is due, unlocked in its last turn and has an attempt left; those before it were exhausted and are failed; nothing else changes but exhausted jobs that were due and unlocked in an earlier turn |
| `LifecycleQueue.SelectDue` | backend/app/services/lifecycle_queue.py:78-106 | the ordered query with LIMIT 1 finds a least eligible job, or none exactly when none is eligible |
| `LifecycleStores.LifecycleStore.ClaimNextJob` | backend/app/services/lifecycle_queue.py:65-137 | the loop over in-place updates computes the claim specification |
| `LifecycleStores.LifecycleStore.GrantLease` | backend/app/services/lifecycle_queue.py:123-130 | the lease fields are set one by one to the leased row |
| `LifecycleStores.LifecycleStore.RecordTerminalFailure` | backend/app/services/lifecycle_queue.py:230-265 | the project's failure status and the audit event by operation; nothing for RECONCILE; refused without a project |
| `LifecycleStores.LifecycleStore.FailJobRow` | backend/app/services/lifecycle_queue.py:268-282 | the job row is failed together with its project, or nothing is |
| `LifecycleStores.LifecycleStore.HeartbeatJob` | backend/app/services/lifecycle_queue.py:167-192 | extends a live owned lease, otherwise changes nothing |
| `LifecycleStores.LifecycleStore.CompleteJob` | backend/app/services/lifecycle_queue.py:195-222 | marks an owned live job SUCCEEDED and releases it, otherwise changes nothing |
| `LifecycleStores.LifecycleStore.RetryOrFailJob` | backend/app/services/lifecycle_queue.py:285-343 | fails the job when the error is permanent or the attempts are used up, else schedules the retry after the backoff delay |
| `LifecycleStores.LifecycleStore.SetCurrentStep` | backend/app/services/compose_provisioner.py:316-320 | records the step while the lease is owned |
| `LifecycleStores.LifecycleStore.Publish` | backend/app/services/compose_provisioner.py:467-481 | publishes READY through the transition table while the lease is owned, else changes nothing |
| `LifecycleStores.LifecycleStore.UpsertResource` | backend/app/services/compose_provisioner.py:422-465 | inserts or updates one registry row |
| `LifecycleStores.LifecycleStore.MarkMissingServices` | backend/app/services/compose_provisioner.py:362-387 | exactly the registry rows of required services not seen become absent |
| `LifecycleStores.LifecycleStore.CreateProjectOperation` | backend/app/services/project_operations.py:66-211 | project and job are inserted together, or the request is answered from its key, its slug or as failed |
| `LifecycleStores.LifecycleStore.RetryProjectProvision` | backend/app/routers/projects.py:282-397 | the guards, the replay and the re-enqueue of a failed provision |
| `LifecycleStores.LifecycleStore.CreateReauthGrant` | backend/app/services/reauth.py:107-195 | the checks in their order, the audited refusal of the first that fails, and the unspent grant with its audit event when none does |
| `LifecycleRequests.GrantIssuedExactly` | backend/app/services/reauth.py:138-195 | a grant is issued exactly to an active administrator with the right password, within the limits, for the delete action and an existing project; every outcome but an invalid access token adds one audit event |
| `LifecycleStores.LifecycleStore.RequestProjectDeletion` | backend/app/routers/admin.py:282-473 | the guards of a deletion in their order, and the grant it needs |
| `LifecycleStores.LifecycleStore.QueueProjectDeletion` | backend/app/routers/admin.py:405-468 | the grant is spent, the project moved and the job inserted together, or nothing is and the key decides the answer |
| `StoreInvariant.ClaimKeeps` | backend/app/services/lifecycle_queue.py:65-137 | a claim turn keeps the store invariant, and rows evolve only as permitted |
| `StoreInvariant.RetryOrFailKeeps` | backend/app/services/lifecycle_queue.py:285-343 | so does a retry or a failure |
| `StoreInvariant.PublishKeeps` | backend/app/services/compose_provisioner.py:467-481 | so does the publication of READY |
| `StoreInvariant.CreateKeeps` | backend/app/services/project_operations.py:66-211 | so does a creation |
| `StoreInvariant.RetryProvisionKeeps` | backend/app/routers/projects.py:282-397 | so does a provision retry |
| `StoreInvariant.DeletionKeeps` | backend/app/routers/admin.py:282-473 | so does a deletion request |
| `StoreInvariant.GrantKeeps` | backend/app/services/reauth.py:175-195 | so does issuing a grant |
| `RetryDelay.DelayInRange` | backend/app/services/lifecycle_errors.py:102-130 | an accepted delay lies in (0, cap] whatever the logarithm comparison answers; it is rejected exactly for a negative attempt or jitter or a base or cap that is not positive |
| `RetryDelay.LdexpIsPower` | backend/app/services/lifecycle_errors.py:102-130 | the exponential is the base times the integer power of two |
| `RetryDelay.DelayIsCappedExponential` | backend/app/services/lifecycle_errors.py:102-130 | with the comparison as it comes out without rounding the delay is min(cap, base * 2^attempt + jitter) |
| `StoreInvariant.RetryWaitsWithinCap` | backend/app/services/lifecycle_queue.py:326-337 | a scheduled retry is available after now and no later than the cap from now, whatever the logarithm comparison answers |
| `RetryDelay.DelayRightExactly` | backend/app/services/lifecycle_errors.py:102-130 | whatever the logarithm comparison answers, the delay is that minimum exactly when it does not answer "reached" while base * 2^attempt + jitter is still below the cap |
| `RetryDelay.DelayMonotone` | backend/app/services/lifecycle_errors.py:102-130 | it does not shrink when attempt or jitter grow |
| `RedactionIdempotent.RedactingTwiceIsRedactingOnce` | backend/app/services/secret_redaction.py:324-448 | redacting assignments in redacted text changes nothing, for every text |
| `RedactionIdempotent.DecideRescan` | backend/app/services/secret_redaction.py:333-445 | at corresponding indexes the second scan copies what the first put out and reaches the same line-prefix stage |
| `RedactionIdempotent.SecretRescan` | backend/app/services/secret_redaction.py:384-441 | where the first scan met a secret key, the second finds a value that is redacted or empty and moves past it |
| `RedactedValues.ValueRescan` | backend/app/services/secret_redaction.py:397-441 | the end of a value already redacted is found again, for quoted, unclosed, block, line, flow and inline values alike |
| `RedactedValues.PlainEndTail` | backend/app/services/secret_redaction.py:180-321 | where an unquoted value ends, what follows is no part of a key, and behind a line value only blanks, a comment or a break |
| `RedactedValues.EmptySettled` | backend/app/services/secret_redaction.py:410-435 | whether an unquoted value is empty depends on its first character alone |
| `ReachedKeys.RedactionReplacesSecretTexts` | backend/app/services/secret_redaction.py:324-448 | in the terms of the text alone: the output is the text with increasing disjoint spans replaced, each the whole value of a secret key; and every secret key of the text has its value among them unless the key is itself part of an earlier secret value or shares the quotes of an earlier key |
| `SecretTexts.SecretValueExactly` | backend/app/services/secret_redaction.py:333-445 | what the scan replaces at a key is a secret value by the grammar of keys, delimiters and values, which names none of the scanner's functions |
| `SecretTexts.ReadKeyExactly` | backend/app/services/secret_redaction.py:346-372 | the key read at an index is the one that stands there: a name between equal quotes, or a name with no more of it on either side |
| `SecretTexts.PlainValueEndExactly` | backend/app/services/secret_redaction.py:409-432 | which rule ends an unquoted value: block or line at the head of a line, the line for a name in upper case, else flow or inline |
| `LineHeads.HeadExactly` | backend/app/services/secret_redaction.py:333-383 | where a key can be read the scan is at the head of a line exactly when only blanks, one dash and the word export stand before it there, and the line is not behind an empty secret value |
| `ReachedKeys.EmptyValueHidesBlock` | backend/app/services/secret_redaction.py:438-440 | an empty value takes the head from the next line: a block scalar that is replaced as a whole when it stands alone keeps its lines there |
| `ReachedKeys.SecretKeysAreReached` | backend/app/services/secret_redaction.py:324-448 | the scan arrives at every secret key that no earlier key takes |
| `BlockScalars.BlockEndExactly` | backend/app/services/secret_redaction.py:201-259 | a block scalar ends with the text, or at the break before the first line with content not indented deeper than the key's column; every line of it before is empty or deeper |
| `BlockScalars.BlockHoldsItsLines` | backend/app/services/secret_redaction.py:241-259 | on lines that all are empty or deeper no character lies outside the block |
| `FlowValues.FlowValueEndExactly` | backend/app/services/secret_redaction.py:262-311 | a flow value is a row of characters, quoted texts and comments and ends where a delimiter, a break or a comment stands outside all brackets, without the blanks before it |
| `ValueEnds.QuotedEndExactly` | backend/app/services/secret_redaction.py:163-177 | a quoted value is a row of characters and escapes and ends behind the quote that closes it; it is open exactly when none does |
| `ValueEnds.LineValueEndExactly` | backend/app/services/secret_redaction.py:180-198 | a line value ends before its first comment, without the blanks there |
| `ValueEnds.InlineValueEndExactly` | backend/app/services/secret_redaction.py:314-321 | an inline value goes to the first of eleven characters |
| `SecretNames.SecretKeysHoldWords` | backend/app/services/secret_redaction.py:137-152 | a key is secret exactly when one of fourteen words stands in it, in either case, between underscores or its ends |
| `RedactionSpans.RedactionReplacesSecretValues` | backend/app/services/secret_redaction.py:324-448 | the output is the text with increasing disjoint spans replaced, and the spans are exactly the whole values, neither empty nor redacted, of the secret keys at which the scan arrives: a quoted value to its closing quote, an unquoted one to the end its place gives it |
| `RedactionSpans.ReplacesExactly` | backend/app/services/secret_redaction.py:333-445 | the scan replaces a value at a key exactly when the key is secret and its value is neither empty nor redacted, and replaces all of it |
| `RedactionSpans.NothingSecretNothingChanged` | backend/app/services/secret_redaction.py:324-448 | a text without a secret key is returned unchanged |
| `RedactionSpans.SecretKeysAreMarked` | backend/app/services/secret_redaction.py:137-152 | a key is secret exactly when a run of its upper-case segments is a marker: the exact names add nothing |
| `RedactionSpans.JoiningKeepsSecret` | backend/app/services/secret_redaction.py:137-152 | joining further segments to a secret key keeps it secret |
| `RedactionSpans.SegmentsOfJoin` | backend/app/services/secret_redaction.py:144-144 | splitting a joined name gives the segments of both parts |
| `RedactionScanner.QuotedValueEnd` | backend/app/services/secret_redaction.py:163-177 | the loop over a quoted value ends, at the closing quote or at none |
| `RedactionScanner.EndOfLineValue` | backend/app/services/secret_redaction.py:180-198 | the loops over a line value find its end before comment and trailing blanks |
| `RedactionScanner.NextLineBreak` | backend/app/services/secret_redaction.py:219-227 | the break and the start of the next line, CRLF taken as one |
| `RedactionScanner.BlockScalarEnd` | backend/app/services/secret_redaction.py:230-259 | the lines of a block scalar up to the first one not indented deeper than its key |
| `RedactionScanner.EndOfFlowValue` | backend/app/services/secret_redaction.py:262-311 | the end of a flow value under nested delimiters, quotes and comments |
| `RedactionScanner.EndOfInlineValue` | backend/app/services/secret_redaction.py:314-321 | the end of an inline value |
| `RedactionScanner.ClassifyKey` | backend/app/services/secret_redaction.py:137-152 | the loop over the markers decides secrecy |
| `RedactionScanner.FindKey` | backend/app/services/secret_redaction.py:346-372 | a quoted or bare key at an index |
| `RedactionScanner.MoveAtValue` | backend/app/services/secret_redaction.py:397-441 | which value is replaced by what, and where the scan goes on |
| `RedactionScanner.Redact` | backend/app/services/secret_redaction.py:324-448 | the single forward loop ends and returns the specified output |
| `RedactionScanner.FirstBreak` | backend/app/services/secret_redaction.py:181-185 | the nearer of the two searches for a break is the end of the line |
| `RedactionScanner.LastBreak` | backend/app/services/secret_redaction.py:239-241 | the later of the two backward searches is the start of the line |
| `KeyBlocks.PassReplacesKeyBlocks` | backend/app/services/secret_redaction.py:103-134 | in the terms of the text alone: the output is the text with disjoint blocks of six kinds replaced, each from its header to its first footer or the end, and every header of a kind is in one, or begins inside six hyphens in a row |
| `KeyBlocks.HeadedExactly` | backend/app/services/secret_redaction.py:52-60 | a header is recognised exactly where the text of one of the six kinds stands and its closing hyphens begin no other marker |
| `KeyBlocks.HeaderEndExactly` | backend/app/services/secret_redaction.py:84-100 | the header scan stops at the first marker, break or escaped break, and takes it when it is closing hyphens |
| `PrivateKeyTheorems.PassReplacesExactlyBlocks` | backend/app/services/secret_redaction.py:103-134 | for every text the output is the text with disjoint spans replaced, each from a recognised header to its first matching footer or the end |
| `PrivateKeyLimits.OutputShowsNoHeaderExactly` | backend/app/services/secret_redaction.py:103-134 | the output shows no recognised header exactly when every header of the text meets a replaced block |
| `PrivateKeyLimits.IdentityExactly` | backend/app/services/secret_redaction.py:103-134 | a pass is the identity exactly when every recognised header is stepped over by a skip |
| `PrivateKeyLimits.IdempotentExactly` | backend/app/services/secret_redaction.py:103-134 | a second pass changes nothing exactly when it steps over every header the first one left standing |
| `PrivateKeyTheorems.SkipPassesHeader` | backend/app/services/secret_redaction.py:114-127 | a skip passes over a recognised header in one way only: behind an unknown label whose closing hyphens run together, six in a row, with those of the header |
| `PrivateKeyLimits.SecondPassChangesNothing` | backend/app/services/secret_redaction.py:103-134 | so where no six hyphens stand in a row the output shows no recognised header and a second pass is the identity |
| `OpenMarkers.IdempotentWithoutOpenBlock` | backend/app/services/secret_redaction.py:103-134 | a condition on the input alone: the pass is idempotent on every text in which no begin marker without an end of its own runs into a replaced block |
| `SecondPass.SixHyphensHideHeader` | backend/app/services/secret_redaction.py:114-127 | for every known label, a text with six hyphens in a row whose header the pass leaves standing, though a second pass changes nothing |
| `SecondPass.SecondPassCanRedact` | backend/app/services/secret_redaction.py:103-134 | for every known label, a text on whose output the second pass replaces a header that the first left standing |
| `SecondPass.PassShifts` | backend/app/services/secret_redaction.py:103-134 | what the pass puts out from an index on depends on the text from there alone |
| `PrivateKeyTheorems.TextIsHeader` | backend/app/services/secret_redaction.py:84-100 | the text of a header with a known label is recognised unless a begin marker starts at its closing hyphens |
| `PrivateKeyTheorems.HeaderIsText` | backend/app/services/secret_redaction.py:84-100 | and only such a text is |
| `PrivateKeys.ScanHeader` | backend/app/services/secret_redaction.py:84-100 | the header loop stops at the closing hyphens, a break or its escape, another begin marker or the end |
| `PrivateKeys.RedactPrivateKeyBlocks` | backend/app/services/secret_redaction.py:103-134 | the block loop ends and returns the specified output |
| `ProjectDatabases.CallsStayJustified` | backend/app/services/project_database.py:145-310 | whatever anyone else does to the catalog between the manager's statements, a call's drop took an object under the name conductor_airflow_ and an id whose comment is conductor.project_id= and that id, or the unmarked database just created and read back; and a database was created only for a role with that comment |
| `ProjectDatabases.DatabaseManager.PerformAll` | backend/app/services/project_database.py:145-331 | the same over every sequence of calls, for any projects, failures and interference |
| `ProjectDatabases.EnsuredExactly` | backend/app/services/project_database.py:145-255 | ensuring fails exactly on a stranger's object, one under the name with any other comment or owner, or without the role; what it leaves carries the mark, and every other row is as before |
| `ProjectDatabases.DroppedExactly` | backend/app/services/project_database.py:257-310 | dropping fails exactly on a stranger's object, or on a role that owns a database, and takes that object alone |
| `ProjectDatabases.ValidatedExactly` | backend/app/services/project_database.py:72-78 | a deployment is valid exactly when its id is 32 lower-case hexadecimal digits and both names are made of it |
| `ProjectDatabases.DatabaseManager.EnsureDropVerify` | backend/app/services/project_database.py:145-331 | undisturbed, ensuring role and database, dropping both and verifying answers that both are absent, with every other row as before |
| `ProjectDatabases.EnsureThenDropIsAbsent` | backend/app/services/project_database.py:145-331 | without interference, ensuring and then dropping leaves neither object and every other row |
| `ProjectDatabases.EnsuringIsIdempotent` | backend/app/services/project_database.py:145-255 | without interference, ensuring again changes nothing |
| `ProjectDatabases.UnmarkedLeftExactly` | backend/app/services/project_database.py:205-250 | without interference a call leaves a database without its mark exactly when it created one and the read-back failed, or the mark and then the re-read or the drop; and such a database is foreign to every later ensure and drop, for ever |
| `ProjectDatabases.MarkedIsOwnedExactly` | backend/app/services/project_database.py:217-236 | a mark makes a database the manager's own exactly when its owner is the project's role, whoever created it |
| `ProjectDatabases.DatabaseManager.EnsureRole` | backend/app/services/project_database.py:145-175 | a role with the mark exists on success; a role with any other comment, or none, is a conflict and stays, whatever others did before |
| `ProjectDatabases.DatabaseManager.EnsureDatabase` | backend/app/services/project_database.py:177-255 | an owned database exists on success; under interference at most the database read back is dropped; without interference the catalog it leaves, for every pattern of failing statements |
| `ProjectDatabases.DatabaseManager.MarkCreated` | backend/app/services/project_database.py:205-250 | reading back, marking, reading again, compensating: what is left for every pattern of failures, and on which row a mark lands when others act in between |
| `ProjectDatabases.DatabaseManager.DropDatabase` | backend/app/services/project_database.py:257-288 | only a database with the mark, unchanged since it was first read, is dropped |
| `ProjectDatabases.DatabaseManager.DropRole` | backend/app/services/project_database.py:290-310 | only a role with the mark, unchanged since it was first read, is dropped; one with any other comment is a conflict and stays |
| `ProjectDatabases.DatabaseManager.VerifyAbsent` | backend/app/services/project_database.py:312-331 | absence of both; a foreign object under one of the names is a conflict |
| `ArtifactPublication.VisibleIsOfOneRender` | backend/app/services/runtime_artifacts.py:378-408 | after any interleaving of renders with crashes and faults the generation is absent, or holds exactly the two files of the render that published it as far as its two writes took them, and those are its files exactly when both of its own writes were whole |
| `ArtifactPublication.VisibleNeverChanges` | backend/app/services/runtime_artifacts.py:378-408 | once a generation is visible its contents never change |
| `ArtifactPublication.ReturnedMeansVisible` | backend/app/services/runtime_artifacts.py:378-436 | a render that returned finds its own content visible, whoever wrote it, except exactly when it published itself and one of its own writes was short |
| `ArtifactPublication.LaterRenderReturnsSameContent` | backend/app/services/runtime_artifacts.py:411-436 | a render begun on a visible generation returns only if its content is the visible one |
| `ArtifactPublication.EqualContentReturnsExactly` | backend/app/services/runtime_artifacts.py:411-436 | a render that finds a generation, at its start or after losing the race for the rename, returns exactly when the visible files are its own, whatever others do meanwhile, unless it is disturbed or crashes |
| `ArtifactPublication.ShortWriteIsPublished` | backend/app/services/runtime_artifacts.py:354-367 | the write call's count is not looked at: a render alone returns whatever it was, and what it leaves visible is its content exactly when the write was whole |
| `ArtifactPublication.NextKeeps` | backend/app/services/runtime_artifacts.py:354-436 | every step of every render keeps what is staged, what is visible and what each render knows |
| `EnvFile.ParseSerialize` | backend/app/services/runtime_artifacts.py:275-280 | reading a serialized file by the quote and backslash rule gives every name and value back, for all values |
| `EnvFile.SerializeIsInjective` | backend/app/services/runtime_artifacts.py:275-280 | different entries never give the same file |
| `EnvFile.EscapeByCharacter` | backend/app/services/runtime_artifacts.py:279-280 | the two replacements act on each character alone |
| `RateLimit.AtMostTwiceTheLimit` | backend/app/services/reauth.py:87-104 | in any interval of one window, at most twice the limit of attempts is admitted for a user, and for an address |
| `RateLimit.CountersExactly` | backend/app/services/reauth.py:24-30 | a counter stands for exactly the attempts since its window was opened, by an attempt |
| `RateLimit.RefusedAfterLimit` | backend/app/services/reauth.py:87-104 | an attempt is refused only if as many as the limit were made for its key less than one window before |
| `RateLimit.TwiceTheLimitIsReached` | backend/app/services/reauth.py:87-104 | and that many do pass, one full burst at each end of the interval, so the bound is exact |
| `RateLimit.NoWindowNoLimit` | backend/app/services/reauth.py:24-30 | a window length of zero admits any number of attempts at once: the bound needs the positive window that the setting does not enforce |
| `RateLimit.TickIsPaid` | backend/app/services/reauth.py:24-30 | each admitted attempt is paid for by the windows that can still overlap the interval |

## Left out

- Docker, HTTP readiness, asyncpg, Redis and Fernet are abstract steps that succeed, fail or never come back; each external call is atomic, and a subprocess that outlives its cancelled caller is not modelled.
- The users table, roles and permissions, and how tokens and passwords are verified: requests are modelled from the point where permission has been granted, and the outcomes of the account checks of a re-authentication are parameters.
- Environments, members, credentials and provider metadata of a new project, correlation ids, error message texts, response bodies.
- SHA-256 digests of requests and tokens are modelled by the value they digest, so as injective.
- An advisory lock whose database session is lost while its holder goes on is not modelled.
- The asyncio tasks of the worker are values of a program counter, not methods: the interleaving of runner, heartbeat and crash is the point there. The same holds for concurrent renders, where every file operation is one step.
- The registry row of a successful `inspect_resources` is always the compose network and the two volumes; provider ids and reconciliation of foreign labels are errors of that call.
- RECONCILE jobs are never enqueued and no DELETE runner is registered; both end in the error of a missing runner, as with the default registry.
- Deployment generation is constant after creation, as nothing in the modelled code changes it.
- The container state texts are taken as lower case already.
- `RequestDeletion` and `RetryProvision` take as a parameter whether the early key lookup saw a job committed meanwhile for another project; other races of the unique indexes are excluded by the project row lock.
- `DeletionGrants.DeletionsChain`: is stated for clock readings that never go back, because the boundary compares timestamps; equal readings are allowed. Among failed deletions created at the same instant the one with the larger identifier is taken as latest.
- `RetryDelay.DelayIsCappedExponential`: is over the reals, without floating-point rounding; the rounded comparison is arbitrary in `RetryDelay.DelayInRange` and `RetryDelay.DelayRightExactly`.
- `RedactionIdempotent.RedactingTwiceIsRedactingOnce`: letters, digits and case mapping are the ASCII ones, so keys with other letters are not modelled.
- `OpenMarkers.IdempotentWithoutOpenBlock`: is sufficient, not necessary; the exact condition, on the text the second pass is given, is `PrivateKeyLimits.IdempotentExactly`.
- The regular expression passes of the redaction and the composition of all passes.
- Parsing of names in `Serialize` relies on names without `=`, which the constant names satisfy; validation of values is not needed for the round trip.
- A statement to PostgreSQL that fails has no effect in the model, so a statement that takes effect while its answer is lost is not covered. A process that stops between creating and marking a database is no event of its own; what it leaves is what a failed read-back leaves.
- The owner of a database is a role name, not an oid; role renames are not modelled. The password of a role and the connection settings revoked before a drop do not appear in the catalog.
- File modes, symbolic links, directory syncs and power loss; staging names are unique. An error while the staging directory is removed leaves it in place.
- `ClaimLoop.ClaimsFirstWithAttempts`: other transactions hold row locks between the turns of one call but commit nothing; commits in between are events of their own in `LifecycleSystem`.
- `RateLimit.AtMostTwiceTheLimit`: asks for a positive window; `NoWindowNoLimit` shows why. Expiry of a rate counter and its increment happen at one instant of a monotone clock.
- Frontend, schemas, migrations, CRUD routers, the Airflow proxy and widgets.
