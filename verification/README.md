# Lead Hunter: verified protocols

This project models the stateful core of Lead Hunter in Dafny and proves what holds over every run of it:

- **Money, jobs and the worker.** Budgets, reservations, the append-only ledger, idempotent job creation and the
  at-least-once worker, first as a serial specification (`Accounts`), then as transactions that take row locks
  step by step in any interleaving (`Interleaving`). `Serializability` shows that every interleaving commits the
  state of a serial run; `Progress` says exactly when transactions deadlock and that all of them can be brought
  to an end; `Bookkeeping` gives conservation and ledger replay; `Deliveries` gives exactly-once effects; `Effects`
  says of each call when it succeeds and what it leaves, from its arguments; `Services` is the code itself,
  statement by statement, proved against the specification; `Usage` is the decimal arithmetic underneath.
- **Privacy.** Contacts, suppression, data-subject requests, the export gate and batched retention over one
  store (`Contacts`, `Privacy`), the invariants of every run (`Permanence`), when each call succeeds, what it leaves
  and who is suppressed where (`PrivacyEffects`), batches against bulk deletion and the exact content of an export
  (`Retention`, `Queries`), and the services loop by loop (`PrivacyServices`).
- **Sessions.** Login, rotation, replay revocation, MFA elevation, recovery codes and mass revocation
  (`Sessions`), with the service and its transactions in `Authentication`.
- **The direct pipeline.** Candidate collection and the submit, poll and drain protocol of the audits
  (`Pipeline`), the crawl loop and its evidence (`Crawl`), and the whitespace normal form (`Whitespace`).
- **Two Redis time protocols.** The fixed-window limiter (`RateLimit`) and the leased scheduler lock (`Lease`),
  on the commands of `Redis`.

`Outcomes`, `Basics` and `Text` hold the result types, names and string operations the others share. A raise of the
program is an `Err`; one service call is one transaction, and a call that raises is rolled back unless the code
commits first. Money counts whole micro-units, times are integers, UUIDs and random values are natural numbers.

## Where the code and its intent differ

- `settle` or `release` of a job can deadlock with `process_job` on it: the ledger row's foreign key wants a
  key-share lock on the job row, which the worker holds while it waits for the reservation. This is the only
  deadlock (`Progress.DeadlocksAreCrossings`), it is reachable exactly when the job is queued, its reservation
  active and the cost covered (`Progress.CrossingIsExact`), and only a rollback ends it (`Progress.OnlyARollbackEndsIt`).
  The calls the server and worker make today never meet it (`Deliveries.DeployedCallsFinish`).
- `JobService.transition` never touches the budget: a queued job it cancels holds its money for good
  (`Deliveries.CancelledJobHoldsItsMoney`); the coupling breaks exactly when a queued job is moved on.
- The report of the pipeline depends on the completion order exactly when two audits with one external id
  disagree (`Pipeline.ScheduleIndependence`): ids are keyed without their provider. On a reused orchestrator it
  is the successful audits exactly when no audit failed whose id an earlier run had stored
  (`Pipeline.ReportIsTheSuccesses`), so the orchestrator is reusable exactly for new ids
  (`Pipeline.ReusableForNewIds`).
- The limiter's sharp bound for any interval of one window is `2 * limit - 1`, and it is reached.
- A refresh by a deactivated user marks the session revoked and then raises, so the mark is rolled back
  (`Sessions.InactiveRefreshIsForgotten`); in the same way the `auth.login_failed` event is never committed
  (`Sessions.FailedLoginsLeaveNoEvent`).
- A contact once rectified has no source URL and can never be rectified again (`Permanence.RectifiedRowsAreFinal`);
  rectifying a value to itself leaves a suppressed contact stored (`Permanence.RectifiedValueIsGone`).
- Email contacts that name a person always expire after ninety days, so a policy of fewer days refuses them all
  (`Contacts.NamedEmailsNeedNinetyDays`).
- A global erasure deletes contacts in its own workspace only (`Permanence.GlobalErasureElsewhere`), and a request
  id replayed with another scope answers without applying that scope (`Permanence.ReplaysChangeNothing`).
- `persist` and `rectify` read the suppression list without a lock: an erasure that commits between the read and
  the write can be undone, exactly when the persist brings an allowed contact of its subject
  (`Permanence.RaceUndoesErasure`) or the rectification rewrites a contact to the erased value
  (`Permanence.RaceWithRectification`).
- A crawler with its browser running fetches the homepage of an allowed URL even when `max_pages` is less than one
  (`Crawl.HybridCrawler.CrawlSite`).

## Model

| member | source | states |
|---|---|---|
| `Usage.RoundingIsNearest` | src/domain/usage.py:12-19 | the rounding of a cost is the one integer nearest to it, ties to even |
| `Usage.AcceptedRange` | src/domain/usage.py:12-19 | a finite cost is accepted if and only if it lies from -0.0000005 up to, not including, 10^22 - 0.0000005 |
| `Usage.NormalizedIsNearestAndStable` | src/domain/usage.py:12-19 | an accepted cost is the nearest micro-unit, and normalising a stored column changes nothing |
| `Usage.NormalizedIsMonotone` | src/domain/usage.py:12-19 | a larger cost never normalises to a smaller one |
| `Usage.RoundingErrorIsBounded` | src/domain/usage.py:12-19 | the sum of n rounded costs is within n/2 micro-units of the exact sum |
| `Usage.WarningIsExact` | src/application/budgets.py:195-201 | the warning flag computed with 28-digit decimal division equals the exact cross-multiplied comparison for every row that fits Numeric(18,6) |
| `Bookkeeping.ReservationKeeps` | src/application/budgets.py:53-70 | the writes of a reservation that fits keep conservation, ledger replay, the indexes and each job's entries |
| `Bookkeeping.SettlementKeeps` | src/application/budgets.py:93-123 | so do the writes of a settlement, with its charge and the release of the difference |
| `Bookkeeping.ReleaseKeeps` | src/application/budgets.py:134-152 | so do the writes of a release |
| `Bookkeeping.OverrideKeeps` | src/application/budgets.py:172-192 | so does a new limit that covers the commitments, also when its ledger amount is negative |
| `Bookkeeping.CreationKeeps` | src/application/jobs.py:59-92 | so does a new job with its reservation |
| `Bookkeeping.FailureKeeps` | src/workers/broker.py:80-97 | so does the worker's failure of a job with its compensation |
| `Bookkeeping.CommitKeeps` | src/application/budgets.py:35-193 | every call of any service, whether it commits or raises, keeps all of it |
| `Bookkeeping.SerialRunsAreSound` | src/application/budgets.py:35-193 | over every serial run each budget's `reserved` is the sum of its active reservations, `spent` that of its settled amounts, `spent + reserved <= hard_limit`, and folding its ledger gives the row back |
| `Bookkeeping.BalancesAreNonNegative` | src/infrastructure/models.py:190-203 | in a sound state no column check on the balances can fire |
| `Serializability.FinishIsSerial` | src/infrastructure/database.py:31-45 | a transaction that finishes does to the state it meets what it would do alone, because the rows it read are still locked |
| `Serializability.FinishTouchesLocked` | src/application/budgets.py:44-48 | what a transaction writes are rows and unique keys it has locked |
| `Progress.WaitsUpward` | src/workers/broker.py:53-55 | every path asks for locks in the order job, reservation, budget, unique entry, and last the key-share lock on the parent job of its ledger row |
| `Serializability.InterleavingsAreSerial` | src/infrastructure/database.py:31-45 | the committed state of every interleaving of lock-level steps is that of the serial run of the committed requests |
| `Serializability.EveryInterleavingIsSound` | src/application/budgets.py:35-193 | so conservation and ledger replay hold at every committed state of every interleaving |
| `Progress.DeadlocksAreCrossings` | src/infrastructure/models.py:270-272 | in every interleaving some transactions are deadlocked if and only if a settlement or release holds the reservation of a job whose row the worker holds while it waits for that reservation |
| `Progress.CrossingIsExact` | src/application/budgets.py:84-113 | such a crossing is reachable from a committed state if and only if the job is queued there, its reservation is active and its budget exists, and a settlement asks for an accepted cost the reservation covers |
| `Progress.OnlyARollbackEndsIt` | src/workers/broker.py:53-55 | two that have crossed stay so through every event that does not roll one of them back |
| `Progress.NoDeadlock` | src/application/budgets.py:84-97 | in every reachable set of live transactions at least one can step, as long as no settlement or release meets a delivery of the same job |
| `Progress.AdvanceSpends` | src/application/budgets.py:127-138 | each step of an unblocked transaction uses up part of a bound fixed when it began |
| `Progress.AlwaysCanFinish` | src/infrastructure/database.py:31-45 | from every reachable state all live transactions can be ended within eight events each: by steps alone when no settlement or release meets a delivery of its job, otherwise by rolling back crossed deliveries |
| `Progress.AloneIsSerial` | src/infrastructure/database.py:31-45 | a call with no other beside it commits exactly what the serial specification says and is committed if and only if it succeeds there, in at most eight steps |
| `Progress.RaisesAreSerial` | src/infrastructure/models.py:143 | beside others a call raises only where it would raise alone at that moment, unless an insert of it met a row another had committed first |
| `Effects.CallsSucceedExactly` | src/application/budgets.py:35-171 | a call of any service succeeds if and only if it gets what it needs: an amount that rounds to a non-negative micro-unit of at most 28 digits, a budget that covers it, an active reservation, an unused key or a known one, a state to move on from |
| `Effects.RefusalsAreNamed` | src/application/budgets.py:35-171 | a call that is refused raises the error of the first check it fails |
| `Effects.CommittedCallsTakeEffect` | src/application/jobs.py:59-92 | in every interleaving each committed call was admitted by the state before it and left on it what its arguments ask for: rows, balances, ledger entries and audit event, and no other |
| `Effects.EveryJobIsAsAsked` | src/application/jobs.py:59-75 | in every interleaving each new job was created by a committed request with its workspace, its trimmed key and an estimate whose nearest micro-unit is the job's cost, and exactly that cost was reserved for it |
| `Effects.EverySettlementIsAsAsked` | src/application/budgets.py:84-113 | in every interleaving a settled reservation was charged what some committed settlement of its job asked for, to the nearest micro-unit |
| `Effects.EveryLimitIsAsAsked` | src/application/budgets.py:155-193 | in every interleaving a budget's limit is what the last committed override of its workspace asked for, or the one it began with |
| `Effects.TransitionsAreStages` | src/domain/jobs.py:23-43 | a job moves to the next stage, fails once it is worked on, or is cancelled, and from a last state nothing follows |
| `Deliveries.DeployedRunsAreCoupled` | src/workers/broker.py:39-97 | over runs of create, deliveries and overrides a job is queued if and only if its reservation, of the job's estimated cost, is active |
| `Deliveries.DeliveryTakesEffectOnce` | src/workers/broker.py:56-97 | a delivered job, however often it is delivered, is failed with one release entry equal to its reservation and one `job.failed` event |
| `Deliveries.EveryInterleavingDeliversOnce` | src/workers/broker.py:39-97 | the same for every interleaving and duplication of deliveries |
| `Deliveries.TransitionUncouples` | src/application/jobs.py:94-108 | the coupling of job and reservation breaks if and only if a queued job is moved to validating or cancelled |
| `Deliveries.CancelledJobHoldsItsMoney` | src/application/jobs.py:102-108 | a queued job cancelled by a transition keeps its reservation active through every later create, delivery and override |
| `Deliveries.OneJobPerKey` | src/infrastructure/models.py:143 | in every interleaving of any calls a workspace and key name at most one job |
| `Deliveries.EachJobIsReserved` | src/application/jobs.py:59-75 | in every interleaving of any calls each committed job has its one reservation, of its estimated cost |
| `Deliveries.ReplayedCreateAnswersTheSame` | src/application/jobs.py:51-58 | a create that answered a key keeps answering it with the same job and writes nothing, whatever happens in between |
| `Deliveries.EachJobIsPublishedOnce` | src/application/jobs.py:76-83 | in every interleaving each committed new job waits to be handed over or has been, exactly once in all, and an aborted create announces nothing |
| `Deliveries.HandedOverOnce` | src/application/jobs.py:76-83 | once what waits has been handed over, the queue has received each committed new job exactly once and nothing else |
| `Deliveries.DeployedCallsFinish` | src/workers/broker.py:39-97 | interleavings of create, deliveries and overrides never deadlock and can be finished by steps alone |
| `Services.BudgetService.Reserve` | src/application/budgets.py:35-72 | the method answers and leaves the tables as the serial specification says, error cases included |
| `Services.BudgetService.Settle` | src/application/budgets.py:74-124 | the same for settling, and the snapshot answered is that of the new budget row |
| `Services.BudgetService.Release` | src/application/budgets.py:126-153 | the same for releasing |
| `Services.BudgetService.OverrideLimit` | src/application/budgets.py:155-193 | the same for a new limit |
| `Services.JobService.Create` | src/application/jobs.py:36-92 | the same for creation; a listener is added exactly for a new job, and the key names the job answered |
| `Services.JobService.Transition` | src/application/jobs.py:94-108 | the same for a transition |
| `Services.Database.CommitSession` | src/infrastructure/database.py:31-45 | leaving the session commits its tables and then publishes what its listeners hold, in order |
| `Services.Database.CallCreate` | src/application/jobs.py:76-92 | a create in its own transaction publishes its job if and only if it committed one |
| `Services.Database.ProcessJob` | src/workers/broker.py:39-99 | one delivery does to the committed tables what the specification says, rolling back when the release raises |
| `Contacts.PhoneNormalFormsAreFixed` | src/application/suppression.py:95-101 | normalising a phone number twice is normalising it once, so its fingerprint does not depend on the spelling |
| `Contacts.NamedEmailsNeedNinetyDays` | src/application/privacy_policy.py:28-47 | the gate admits an email contact that names a person if and only if it is unexpired under a complete policy of exactly ninety days; a generic one until it expires |
| `PrivacyEffects.GateIsExact` | src/application/privacy_policy.py:28-47 | before it expires a generic contact passes the gate, a named one if and only if the workspace has an enabled policy of at most ninety days that permits the time it is kept |
| `PrivacyEffects.EmailContactsExactly` | src/domain/contacts.py:109-137 | an email contact is the normalised address, generic if and only if its local part is a shared mailbox, kept 365 days then and ninety otherwise |
| `PrivacyEffects.PhoneNumbersExactly` | src/application/suppression.py:95-101 | a phone number is its 7 to 20 digits and plus signs, and any other character anywhere makes no difference to its fingerprint |
| `Permanence.PersistIsExact` | src/application/contacts.py:38-81 | exactly the candidates neither expired, nor refused by the policy, nor suppressed are stored, no other row changes, and each is counted once |
| `PrivacyEffects.StoredRowsAreExact` | src/application/contacts.py:63-79 | each candidate to be stored gets a row with the workspace, value, fingerprint, classification and dates it came with, and no other row is new or changed |
| `PrivacyEffects.CountsAreExact` | src/application/contacts.py:42-81 | each of the four counts is the number of the candidates it is about |
| `PrivacyEffects.PersistSucceedsExactly` | src/application/contacts.py:42-81 | persisting raises if and only if an identifier that has to be looked up is unusable or an id drawn for a row is taken |
| `Permanence.PersistKeeps` | src/application/contacts.py:42-80 | persisting keeps the invariant of the store |
| `Permanence.EraseKeeps` | src/application/data_subject_requests.py:24-99 | so does an erasure or opposition |
| `Permanence.RectifyKeeps` | src/application/data_subject_requests.py:147-248 | so does a rectification: its rewritten rows are unsuppressed and within retention |
| `Permanence.CommitKeeps` | src/application/data_subject_requests.py:24-248 | every privacy call, whether it commits or raises, keeps it |
| `Permanence.ErasureIsPermanent` | src/application/data_subject_requests.py:54-99 | in every state any run reaches, each completed erasure or opposition has a matching suppression and no stored contact of its workspace, kind and fingerprint; stored contacts carry their own fingerprint and named ones expire within ninety days |
| `Permanence.EveryRunIsSound` | src/application/data_subject_requests.py:54-99 | a deployment that starts with nothing stored keeps all of this through every run |
| `Permanence.RequestsStayBound` | src/application/data_subject_requests.py:280-300 | a request id keeps its row, hence its subject, through any run, and no suppression is lifted |
| `Permanence.ReplaysChangeNothing` | src/application/data_subject_requests.py:43-53 | a call with a used request id changes nothing, and answers if and only if it names the subject the id is bound to |
| `Permanence.RepeatedRequestsAnswerTheSame` | src/application/data_subject_requests.py:280-300 | repeating a completed request after any run answers the same row and writes nothing |
| `Permanence.ErasureIsExact` | src/application/data_subject_requests.py:54-99 | an erasure deletes exactly the subject's contacts of its workspace and no other contact; request row and audit event say how many, and one suppression is added, of that workspace or of all |
| `PrivacyEffects.SuppressionIsExact` | src/application/suppression.py:55-92 | a call suppresses the subject it names in its own workspace, or in every one when its scope is global, and nobody else anywhere |
| `PrivacyEffects.SuppressedExactly` | src/application/suppression.py:31-53 | after any run a subject is suppressed in a workspace if and only if they were before or a call that succeeded named them for that workspace or for all |
| `PrivacyEffects.RectificationIsExact` | src/application/data_subject_requests.py:147-248 | a rectification rewrites the subject's contacts of its workspace to the replacement as of now and no other contact, suppresses the old value there, and logs how many rows there were |
| `PrivacyEffects.CallsSucceedExactly` | src/application/data_subject_requests.py:24-248 | a new request, suppression, policy or batch succeeds if and only if its identifier is usable and every row it would rewrite may become the replacement, its days are 1 to 90, its size 1 to 5000 |
| `PrivacyEffects.RefusalsAreNamed` | src/application/data_subject_requests.py:38-61 | what a call that is refused raises |
| `PrivacyEffects.ReplaysAnswerTheirRow` | src/application/data_subject_requests.py:280-300 | a repeated request is answered with the row its id is bound to, as it stands |
| `Permanence.ErasedStaysErased` | src/application/data_subject_requests.py:54-99 | after a completed erasure and any further calls the subject is suppressed and absent |
| `Permanence.RaceUndoesErasure` | src/application/contacts.py:42-80 | an erasure that commits between the reads and the inserts of a persist is undone if and only if the persist runs in its workspace, the subject was not suppressed when it read, and a candidate is an unexpired contact of theirs the policy allows |
| `Permanence.RaceWithRectification` | src/application/data_subject_requests.py:194-216 | an erasure that commits between the reads and the writes of a rectification is undone if and only if the rectification runs in its workspace and rewrites a stored email contact to the erased value from another one |
| `Permanence.BareSuppressionKeepsContacts` | src/application/suppression.py:55-92 | a bare suppression silences the subject if and only if no contact was stored |
| `Permanence.GlobalErasureElsewhere` | src/application/data_subject_requests.py:54-75 | a global erasure silences the subject in another workspace if and only if none of their contacts is stored there |
| `Permanence.RectifiedValueIsGone` | src/application/data_subject_requests.py:194-233 | a rectification suppresses the old value, which is gone from the contacts if and only if no row was rewritten to that same value |
| `Permanence.RectifiedRowsAreFinal` | src/application/data_subject_requests.py:194-216 | a second rectification of a rectified contact is always refused |
| `Retention.BatchesRefineBulkDeletion` | src/workers/retention.py:24-77 | with a clock that never goes back, repeating the batch while it was full deletes exactly the contacts of the workspace expired at the last reading, in expiry and id order, takes n / size + 1 runs, logs full batches and the remainder, and touches nothing else |
| `Retention.BatchTakesTheFirst` | src/workers/retention.py:34-46 | one batch removes the first expired rows and leaves the others in the same order |
| `Retention.ExportIsExact` | src/application/privacy_policy.py:85-137 | however the query breaks ties, the export raises if and only if a live unsuppressed named contact lacks a complete policy or outlives it, and otherwise answers exactly the live unsuppressed contacts, sorted by the collation, each once |
| `Retention.ExportCommitsAlike` | src/application/privacy_policy.py:92-114 | what an export commits does not depend on how its query breaks ties |
| `Retention.PurgeIsExact` | src/application/privacy_policy.py:92-108 | the purge leaves no expired contact of the workspace, touches no other contact and logs how many went, if any |
| `Queries.StringOrderIsLexicographic` | src/application/privacy_policy.py:109-113 | one string sorts before another if and only if they agree up to where it ends or has the smaller character |
| `Retention.ErasedSubjectsAreNotExported` | src/application/privacy_policy.py:116-123 | whatever follows an erasure, no export of its workspace, or of any workspace when it was global, contains the subject |
| `PrivacyServices.ContactService.Persist` | src/application/contacts.py:30-81 | the loop answers the counts and leaves the rows of the specification |
| `PrivacyServices.SuppressionService.Suppress` | src/application/suppression.py:55-92 | suppressing is idempotent by scope, kind and fingerprint |
| `PrivacyServices.DataSubjectRequestService.EraseAndSuppress` | src/application/data_subject_requests.py:24-99 | the method answers and leaves the store as the specification says, error cases included |
| `PrivacyServices.DataSubjectRequestService.RecordAccess` | src/application/data_subject_requests.py:101-145 | the same for an access request |
| `PrivacyServices.DataSubjectRequestService.Rectify` | src/application/data_subject_requests.py:147-248 | the same for a rectification, whose loop rewrites the rows in place in any order and raises what some rejected row raises |
| `PrivacyServices.PrivacyExportService.ExportableContacts` | src/application/privacy_policy.py:85-137 | an export answers one of the orders its query allows, raising at the first blocked contact, and leaves the purged store |
| `PrivacyServices.RetentionWorker.RunRetentionBatch` | src/workers/retention.py:24-58 | one run deletes the batch, logs it and says whether it was full |
| `PrivacyServices.RetentionWorker.EnforceWorkspaceRetention` | src/workers/retention.py:61-77 | the runs it enqueues itself, each with its own reading of the clock, leave the store of the whole chain of batches |
| `Sessions.FailuresRollBack` | src/application/authentication.py:106-118 | a request that raises changes the store if and only if it presents a wrong pair to a live session, and then exactly revokes that session |
| `Sessions.FailedLoginsLeaveNoEvent` | src/application/authentication.py:76-78 | over every run no `auth.login_failed` event is committed |
| `Sessions.InactiveRefreshIsForgotten` | src/application/authentication.py:114-117 | the revocation of a deactivated user's session is rolled back, and reactivation lets the same pair refresh |
| `Sessions.RequestsSucceedExactly` | src/application/authentication.py:72-221 | a login succeeds if and only if the password is right and the user stored and active, a refresh if and only if it presents the pair of a live session of an active user, and a guarded request if and only if its token authenticates and its code or enrollment is accepted |
| `Sessions.RefusalsAreNamed` | src/application/authentication.py:72-221 | a request that is refused raises the error of the first check it fails |
| `Sessions.RepliesAreExact` | src/application/authentication.py:72-221 | tokens are answered for the user who logged in, or for session and user of the request, and a visit with the context its token stands for |
| `Sessions.SessionsAreOpenedByLogins` | src/application/authentication.py:72-88 | over every run each new session was opened by an earlier login of its user with the right password, and ends the refresh lifetime after it |
| `Sessions.SessionsEndForAReason` | src/application/authentication.py:106-165 | over every run a session is revoked if and only if it was logged out, a refresh of it presented another pair while it was live, or its user was swept |
| `Sessions.VersionsCountSweeps` | src/application/authentication.py:156-165 | over every run a user's version counts the sweeps of that user |
| `Sessions.MfaMeansElevated` | src/application/authentication.py:201-221 | over every run a session is MFA-verified if and only if an accepted code elevated it |
| `Sessions.AuthenticatesExactly` | src/application/authentication.py:120-142 | over every run a token of a new session authenticates if and only if it is within its window, a login of its user opened the session less than the refresh lifetime ago, nothing ended it, the user is active, its version counts the sweeps and its MFA flag says whether the session was elevated |
| `Sessions.EnrollmentIsFresh` | src/application/authentication.py:167-199 | an enrollment answers a secret and eight recovery codes, all new and different, and stores exactly them, unconfirmed |
| `Sessions.StepCredentials` | src/application/authentication.py:201-264 | a credential changes only by its user's enrollment or an accepted code: a confirmation is dated, a recovery code struck off, a current code not |
| `Sessions.StepRecords` | src/application/authentication.py:77-210 | successful logins, logouts and confirmations are audited, each once, and nothing else is |
| `Sessions.RunAges` | src/application/authentication.py:72-221 | over every run owner and deadline of a session stay, MFA and revocation are never taken back, pairs only move on, and a dead session's pair and MFA flag are frozen |
| `Sessions.DeadSessionsStayDead` | src/application/authentication.py:120-142 | once a session is revoked or expired no token of it authenticates and no pair refreshes it, whatever happens next |
| `Sessions.DeadlineIsFixedAtLogin` | src/application/authentication.py:266-281 | the deadline set at login outlasts every rotation, and nothing authenticates after it |
| `Sessions.SweepsAreFinal` | src/application/authentication.py:156-165 | after `revoke_all` no token of a session the user had, and no token with an earlier version, ever authenticates for that user |
| `Sessions.OnlyTheLatestPairRefreshes` | src/application/authentication.py:90-118 | a refresh yields tokens if and only if it presents the pair last issued, as read off the replies of the run, for a live session of an active user |
| `Sessions.RotatedPairsEndTheirSession` | src/application/authentication.py:106-113 | a pair that was rotated away yields no tokens, and presenting it ends the session for good |
| `Sessions.ElevationIsEarned` | src/application/authentication.py:201-221 | a session is MFA-verified only after a request on that session whose code was accepted |
| `Sessions.MfaContextsAreEarned` | src/application/authentication.py:120-142 | so a context with MFA means an accepted code earlier on its session |
| `Sessions.ElevationRetiresOlderTokens` | src/application/authentication.py:201-221 | an elevation answers tokens with MFA, and tokens of the session without it never authenticate again |
| `Sessions.TokensBeforeElevationRetire` | src/application/authentication.py:120-142 | over every run no token issued for a session before its first elevation authenticates after it |
| `Sessions.ElevationRetiresExactly` | src/application/authentication.py:201-221 | of the tokens that authenticate, an elevation retires exactly those of its session without MFA, so a second one leaves earlier MFA tokens valid |
| `Sessions.IssuedTokensAuthenticate` | src/web/routes/auth.py:49-50 | tokens authenticate in the transaction that issued them |
| `Sessions.RecoveryCodesWorkOnce` | src/application/authentication.py:246-264 | over every run a recovery code elevates at most once, and a spent one never again |
| `Authentication.AuthenticationService.Login` | src/application/authentication.py:72-88 | the method answers as the specification says and leaves the session row and audit event for the commit; a refused login appends its event and leaves it to the rollback |
| `Authentication.AuthenticationService.Refresh` | src/application/authentication.py:90-118 | the same, a replay being revoked and committed before the raise and a deactivated user's revocation being left to the rollback |
| `Authentication.AuthenticationService.AuthenticateAccessToken` | src/application/authentication.py:120-142 | a token authenticates if and only if it decodes, its session is live and owned by its user, the user is active, and version and MFA flag agree with the rows |
| `Authentication.AuthenticationService.Logout` | src/application/authentication.py:144-154 | the context's own session is revoked and the event appended |
| `Authentication.AuthenticationService.RevokeAll` | src/application/authentication.py:156-165 | the version grows and every unrevoked session of the user, and no other, is revoked |
| `Authentication.AuthenticationService.BeginMfaEnrollment` | src/application/authentication.py:167-199 | a new secret and eight new codes replace the credential, unless a confirmed one wants MFA first |
| `Authentication.AuthenticationService.ConfirmMfa` | src/application/authentication.py:201-210 | an accepted code confirms the credential, elevates the session and rotates its pair |
| `Authentication.AuthenticationService.VerifyMfa` | src/application/authentication.py:212-221 | an accepted code of a confirmed credential elevates the session and rotates its pair |
| `Authentication.Server.Serve` | src/web/dependencies.py:43-64 | each request is one transaction guarded by its token, and leaves the store and reply of the specification |
| `Pipeline.CollectedAreTheFirst` | main.py:139-156 | the collected candidates are exactly the first ones of each provider and external id that have a website |
| `Pipeline.FlattenJoins` | main.py:139-156 | the results of the keywords are taken one after the other, each place in order |
| `Pipeline.SocialDomainsAreDropped` | main.py:169-177 | the filter keeps exactly the places that are not of a social domain, in their order |
| `Pipeline.SubmittedPlaces` | main.py:139-250 | the audits submitted are those of the places found first with their key and a website, not of a social domain, whose crawl was accepted, in the order in which they were found |
| `Pipeline.KeysAreDistinct` | main.py:139-156 | no two of them share provider and external id |
| `Pipeline.CollectedAt` | main.py:264-300 | the lead table holds for each id the lead of some consumed successful audit of that id, or what it held before |
| `Pipeline.ScheduleIndependence` | main.py:264-304 | the report is the same for every completion order if and only if successful audits of one external id agree |
| `Pipeline.IndependentForDistinctIds` | main.py:264-304 | it is so for every outcome of the audits if and only if the submitted ids are distinct |
| `Pipeline.OneProviderReport` | main.py:139-304 | the same for the submissions of candidates of one provider, and new candidate ids meet the condition |
| `Pipeline.OneProviderReportsPlaces` | main.py:139-304 | the report is the leads of exactly the places found whose audit succeeds, in that order, if and only if no audit failed of an accepted place whose id the table had already |
| `Pipeline.ReportIsTheSuccesses` | main.py:264-304 | with distinct ids the report is the successful audits in submission order, whatever the schedule, if and only if no audit failed whose id the lead table had already |
| `Pipeline.ReusableForNewIds` | main.py:264-304 | it is so for every outcome of the audits if and only if none of the submitted ids is in the table |
| `Pipeline.StaleLeadIsReported` | main.py:304 | after any run that audited an id with success, any run in which the audit of that id fails reports the lead of the earlier run |
| `Pipeline.TwoProvidersMayCollide` | main.py:152-155 | two providers with one external id are both kept and then reported according to the completion order |
| `Pipeline.LeadHunterOrchestrator.CollectCandidates` | main.py:139-156 | the loop collects the first candidate of each key |
| `Pipeline.LeadHunterOrchestrator.StreamAudits` | main.py:205-300 | every submitted future is consumed exactly once, completed plus pending is submitted throughout, and the table is that of the order in which they were consumed |
| `Pipeline.LeadHunterOrchestrator.RunWithWebsite` | main.py:139-304 | for one provider the run reports the leads of exactly those places found first with their key and a website, not of a social domain, whose crawl was accepted and whose audit succeeds, in the order found and whatever the schedule, if and only if no audit failed of a place whose id the orchestrator had stored; in particular when it had stored no place's id |
| `Crawl.EvidenceIsJustified` | src/domain/crawl.py:44-73 | evidence is valid if and only if no failure was given, the status is 200 to 299, the content type is HTML, XHTML or plain text, and 120 characters are left once the content is stripped; otherwise it carries the given failure or the first check that fails |
| `Crawl.AuditableExactly` | src/domain/crawl.py:130-153 | pages can be audited if and only if one web page has 200 characters once stripped or two have 120 |
| `Crawl.VisitCoherent` | src/crawler.py:291-361 | one page visit keeps the crawl coherent: every stored page has valid evidence with its URL and content hash, and every contact cites valid evidence |
| `Crawl.VisitAllCoherent` | src/crawler.py:289-361 | so does the whole loop, for any provider answers |
| `Crawl.VisitRecords` | src/crawler.py:295-361 | a visit leaves evidence that is valid exactly for a page served with status 200 to 299, a supported type and 120 characters, names what went wrong otherwise, and counts the page exactly when its contacts could be read too |
| `Crawl.PagesAreServed` | src/crawler.py:295-337 | the stored pages are those whose fetch ended with status 200 to 299, a supported type and at least 120 cleaned characters, the last such fetch for each URL |
| `Crawl.ContactsAreFound` | src/crawler.py:325-335 | every contact was found on a page that was served, and cites its URL, time and content hash |
| `Crawl.FindingsAreKept` | src/crawler.py:457-464 | for everything found on a page that was served a contact of at least its confidence is kept |
| `Crawl.EveryLinkIsFetched` | src/crawler.py:286-293 | links within the page budget are all fetched, whether or not those before them succeed |
| `Crawl.MergeKeepsTheBest` | src/crawler.py:457-464 | merging keeps for each address one of the contacts with the highest confidence |
| `Crawl.VisitKeeps` | src/crawler.py:295-361 | a visit adds its own evidence, forgets none, lowers no confidence and keeps every finding of a counted page |
| `Crawl.EveryVisitLeavesEvidence` | src/crawler.py:291-361 | every link fetched leaves evidence that names it |
| `Crawl.DiscoveredOnce` | src/crawler.py:255-284 | the links to crawl are the allowed priority pages other than the homepage, each once |
| `Crawl.DiscoveredInOrder` | src/crawler.py:255-284 | and come in the order in which their pages were first linked |
| `Crawl.FinishedIsHonest` | src/crawler.py:363-379 | the final status is success or partial if and only if the result is auditable, and success if and only if moreover all evidence is valid and nothing was blocked; without enough content it is empty, for the reason named |
| `Crawl.HybridCrawler.CrawlSite` | src/crawler.py:120-392 | nothing is fetched if and only if the URL policy refuses the URL or the crawler fails before asking for the homepage; otherwise the homepage and, once it is served and read, the first `max_pages - 1` links discovered; the pages reported are those served with status 200 to 299 and at least 120 characters, the contacts the best found on them; any other end has the status and code of what went wrong |
| `Crawl.HybridCrawler.CrawlPages` | src/crawler.py:289-361 | the loop over internal pages visits them in order within the page budget |
| `Crawl.HybridCrawler.DiscoverLinks` | src/crawler.py:255-284 | the discovery loop collects the links of the specification |
| `Whitespace.CleanReachesNormalForm` | src/crawler.py:394-402 | cleaned text has no trailing space on any line or at either end, no three newlines and no three spaces in a row, is no longer, and keeps every other character in order |
| `Whitespace.NormalFormsAreFixed` | src/crawler.py:394-402 | a text is left unchanged if and only if it is in normal form, so cleaning is idempotent |
| `Whitespace.GapsAreShortened` | src/crawler.py:394-402 | between two cleaned texts more than two newlines become two and three or more spaces one, fewer stay, and the texts are left alone |
| `Whitespace.LinesAreTrimmedOneByOne` | src/crawler.py:396-397 | each line loses the space at its end, each boundary becomes a newline, and one at the end of the text is dropped |
| `Whitespace.TrimLinesTrims` | src/crawler.py:396-397 | joining the right-stripped lines leaves no space before a line end |
| `Whitespace.CollapseLeavesNoTriple` | src/crawler.py:398-401 | replacing long runs leaves none |
| `Whitespace.CollapseKeepsTrimmed` | src/crawler.py:398-401 | and brings no trailing space back |
| `RateLimit.LimiterBound` | src/infrastructure/redis.py:16-23 | in any half-open interval of one window at most 2 * limit - 1 requests on a key are accepted, and none for a limit below one |
| `RateLimit.BoundIsReached` | src/infrastructure/redis.py:16-23 | that many are accepted in some run, for every limit from one and every window from two milliseconds |
| `RateLimit.WindowsNeverExtend` | src/infrastructure/redis.py:18-21 | no request moves the expiry of an open window, and the first one after it opens a new window and is accepted if and only if the limit is at least one |
| `RateLimit.NoWindowNoBound` | src/infrastructure/redis.py:18-21 | with a window that is not positive every request is the first of its own window |
| `RateLimit.RedisRateLimiter.Require` | src/infrastructure/redis.py:16-23 | one call counts on its own key only and refuses exactly above the limit |
| `Lease.RoundsAreApart` | src/workers/retention_scheduler.py:67-84 | two enqueue rounds are at least the earlier holder's interval apart, for any number of replicas |
| `Lease.EnqueuesAreApart` | src/workers/retention_scheduler.py:76-80 | when no round enqueues later than some slack after it took the lock, the messages of two rounds are at least the earlier interval less that slack apart |
| `Lease.RoundsAreBounded` | src/workers/retention_scheduler.py:67-101 | a span of T holds at most floor(T / 300 s) + 1 rounds |
| `Lease.LoneReplicaAlwaysAcquires` | src/workers/retention_scheduler.py:68-84 | a lone replica acquires on every turn |
| `Lease.ActiveIdsInOrder` | src/workers/retention_scheduler.py:76-80 | the workspaces enqueued are exactly the active ones, in the order of the table |
| `Lease.Scheduler.Turn` | src/workers/retention_scheduler.py:68-84 | one turn enqueues every active workspace if and only if it takes the lock |
| `Lease.StartScheduler` | src/workers/retention_scheduler.py:55-62 | a scheduler starts if and only if its setting is blank, which means 3600 seconds, or a number of at least 300 seconds |

## Left out

- Browser, Crawl4AI, BeautifulSoup, language model, Places, WHOIS and DNS: their answers are parameters.
- AES-GCM, Ed25519 tokens, Argon2, SHA-256 and HMAC: hashes of random values stand for the values, the fingerprint is an uninterpreted function of kind and normalised value, and a token is its claims.
- TOTP (section 4 of RFC 6238): `totp` decides; nothing is claimed about reuse of a code within its window.
- `normalize_email` (pattern and case folding) is a parameter, so nothing is claimed about which addresses it accepts; phone normalisation is modelled.
- Key-share locks on workspace and user rows, which nothing modelled locks exclusively, and on a budget row by the transaction that has already locked it; the order in which waiting requests are granted is arbitrary.
- Permanence.ErasureIsPermanent: is about serial transactions; of concurrent ones only an erasure within a persist or a rectification is modelled.
- Deliveries.EachJobIsPublishedOnce: a process that dies between commit and publish loses the message, which stays in the outbox here.
- Lease.RoundsAreApart: a round is timed when it takes the lock; its messages follow later, without a bound in the code.
- Concurrent requests on one session: the session row is read without a lock, so the single-use results are about serial requests.
- Authentication reads one clock value per request, where the code reads it again for each timestamp; `last_seen_at` is not modelled.
- Email lookup at login, which is a user id and a password verdict here.
- OIDC identity mapping, roles, permissions, RLS policies, cascades and migrations.
- Creation of workspaces, budgets and users: they are given, and `Sessions.Account` stands for other writers of users.
- Provider, unit, reason, actor, kind and settlement-time columns of the money tables, and the reason and creator of suppressions.
- Costs that are NaN or infinite, and Numeric overflow on commit, which is a crash event of a transaction.
- The two branches of `process_job` differ only in the failure reason and are one branch here.
- Drawn UUIDs may collide with a stored key: this aborts the call, at the row in question rather than at the flush.
- `WorkspacePrivacyPolicyService.put` keeps days and the enabled flag; the texts of a policy are taken as valid.
- Display value, URL, extraction method, confidence and evidence hash of stored contacts, except whether the URL is there.
- `subject_data` and `export_for_actor`: a filter and a permission check around what is modelled.
- Pipeline: callbacks that raise, an executor that refuses a submission, and the age and franchise filters, which are part of the crawl outcome of a candidate.
- Crawl: `_page_metadata`, the URL policy and link patterns are oracles, and contacts are kept as a map and not sorted.
- Redis: a key with an expiry is gone at that millisecond, and failures of the server are not modelled.
- Parsing the schedule interval with Python's `int` is a parameter.
- Spreadsheet, interface, command line, prompt and settings code.
