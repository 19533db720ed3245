/** The rows of the budget, reservation, ledger and job tables, and what one committed transaction
    does to them (src/application/budgets.py, src/application/jobs.py, src/workers/broker.py).
    Money is counted in whole micro-units. */
module Accounts {
  import opened Basics
  import opened Outcomes
  import opened Usage
  import Text

  type BudgetId = nat
  type JobId = nat

  datatype JobState = Queued | Validating | Running | Completed | Partial | Cancelled | Failed

  datatype ReservationState = Active | Settled | Released

  datatype EntryType = ReservationEntry | ChargeEntry | ReleaseEntry | OverrideEntry

  datatype Budget = Budget(workspace: WorkspaceId, hardLimit: int, spent: int, reserved: int, warning: nat)

  datatype Reservation = Reservation(
    workspace: WorkspaceId, budgetId: BudgetId, amount: int, settledAmount: int, state: ReservationState)

  datatype Job = Job(
    workspace: WorkspaceId, key: string, cost: int, carriesPayload: bool,
    state: JobState, errorCode: Option<string>)

  datatype LedgerEntry = LedgerEntry(workspace: WorkspaceId, job: Option<JobId>, kind: EntryType, amount: int)

  datatype AuditEvent =
    | BudgetOverridden(budgetId: BudgetId, oldLimit: int, newLimit: int)
    | JobCreated(workspace: WorkspaceId, job: JobId)
    | JobFailed(workspace: WorkspaceId, job: JobId, reason: string)

  /** The committed tables. `budgetOf` and `jobByKey` are the unique indexes on
      `usage_budgets.workspace_id` and on `jobs(workspace_id, idempotency_key)`; `reservations` is
      keyed by its unique `job_id`. */
  datatype Db = Db(
    budgets: map<BudgetId, Budget>,
    budgetOf: map<WorkspaceId, BudgetId>,
    reservations: map<JobId, Reservation>,
    jobs: map<JobId, Job>,
    jobByKey: map<(WorkspaceId, string), JobId>,
    ledger: seq<LedgerEntry>,
    audit: seq<AuditEvent>)

  datatype Error =
    | CostRejected | BudgetMissing | LimitReached | NotActive | AboveReservation | ReasonRequired
    | BelowCommitments | KeyRejected | PayloadRejected | JobMissing | TransitionRejected
    | IntegrityViolation

  datatype Snapshot = Snapshot(hardLimit: int, spent: int, reserved: int, warning: bool)

  /** One service call, which is one transaction. `Create` carries the UUID drawn for the new job,
      and whether its parameters hold a provider payload. */
  datatype Request =
    | Reserve(workspace: WorkspaceId, job: JobId, amount: real)
    | Settle(job: JobId, amount: real)
    | Release(job: JobId)
    | Override(workspace: WorkspaceId, newLimit: real, reason: string)
    | Create(workspace: WorkspaceId, job: JobId, amount: real, key: string, carriesPayload: bool)
    | Process(job: JobId)
    | Transition(job: JobId, target: JobState, code: Option<string>)

  const PIPELINE_NOT_CONFIGURED := "pipeline_not_configured"
  const PAYLOAD_NOT_ALLOWED := "provider_payload_not_allowed"
  const MAX_KEY_LENGTH := 128

  // ----- Checks that read only the arguments or one row -----

  function Cost(amount: real): Result<int, Error> {
    match NormalizedCost(amount)
    case Ok(units) => Ok(units)
    case Err(_) => Err(CostRejected)
  }

  function AllowedTransitions(state: JobState): set<JobState> {
    match state
    case Queued => {Validating, Cancelled}
    case Validating => {Running, Cancelled, Failed}
    case Running => {Completed, Partial, Cancelled, Failed}
    case _ => {}
  }

  predicate Fits(budget: Budget, cost: int) {
    budget.spent + budget.reserved + cost <= budget.hardLimit
  }

  predicate ValidKey(key: string) {
    key != "" && |key| <= MAX_KEY_LENGTH
  }

  function FindBudget(db: Db, workspace: WorkspaceId): Option<BudgetId> {
    if workspace in db.budgetOf && db.budgetOf[workspace] in db.budgets then Some(db.budgetOf[workspace])
    else None
  }

  /** The foreign key to the job and the unique `job_id` of a new reservation row. */
  predicate CanInsertReservation(db: Db, job: JobId) {
    job in db.jobs && job !in db.reservations
  }

  function FailureReason(job: Job): string {
    if job.carriesPayload then PAYLOAD_NOT_ALLOWED else PIPELINE_NOT_CONFIGURED
  }

  /** `error_code[:100] if error_code else None`. */
  function StoredCode(code: Option<string>): Option<string> {
    match code
    case None => None
    case Some(text) =>
      if text == "" then None else if |text| <= 100 then Some(text) else Some(text[..100])
  }

  function TakeSnapshot(budget: Budget): Snapshot {
    Snapshot(budget.hardLimit, budget.spent, budget.reserved,
             Warns(budget.spent, budget.reserved, budget.hardLimit, budget.warning))
  }

  // ----- What a transaction writes, from the rows it read under lock -----

  function WriteReservation(db: Db, job: JobId, b: BudgetId, budget: Budget, workspace: WorkspaceId, cost: int): Db {
    db.(budgets := db.budgets[b := budget.(reserved := budget.reserved + cost)],
        reservations := db.reservations[job := Reservation(workspace, b, cost, 0, Active)],
        ledger := db.ledger + [LedgerEntry(workspace, Some(job), ReservationEntry, cost)])
  }

  function SettlementEntries(job: JobId, r: Reservation, actual: int): seq<LedgerEntry> {
    [LedgerEntry(r.workspace, Some(job), ChargeEntry, actual)]
    + if r.amount - actual != 0 then [LedgerEntry(r.workspace, Some(job), ReleaseEntry, r.amount - actual)]
      else []
  }

  function WriteSettlement(db: Db, job: JobId, r: Reservation, budget: Budget, actual: int): Db {
    db.(budgets := db.budgets[r.budgetId := budget.(reserved := budget.reserved - r.amount,
                                                    spent := budget.spent + actual)],
        reservations := db.reservations[job := r.(state := Settled, settledAmount := actual)],
        ledger := db.ledger + SettlementEntries(job, r, actual))
  }

  function WriteRelease(db: Db, job: JobId, r: Reservation, budget: Budget): Db {
    db.(budgets := db.budgets[r.budgetId := budget.(reserved := budget.reserved - r.amount)],
        reservations := db.reservations[job := r.(state := Released)],
        ledger := db.ledger + [LedgerEntry(r.workspace, Some(job), ReleaseEntry, r.amount)])
  }

  function WriteOverride(db: Db, workspace: WorkspaceId, b: BudgetId, budget: Budget, newLimit: int): Db {
    db.(budgets := db.budgets[b := budget.(hardLimit := newLimit)],
        ledger := db.ledger + [LedgerEntry(workspace, None, OverrideEntry, newLimit - budget.hardLimit)],
        audit := db.audit + [BudgetOverridden(b, budget.hardLimit, newLimit)])
  }

  function WriteJob(db: Db, id: JobId, job: Job): Db {
    db.(jobs := db.jobs[id := job], jobByKey := db.jobByKey[(job.workspace, job.key) := id])
  }

  function WriteCreation(db: Db, id: JobId, job: Job, b: BudgetId, budget: Budget): Db {
    var placed := WriteReservation(WriteJob(db, id, job), id, b, budget, job.workspace, job.cost);
    placed.(audit := placed.audit + [JobCreated(job.workspace, id)])
  }

  function FailedJob(job: Job): Job {
    job.(state := Failed, errorCode := Some(FailureReason(job)))
  }

  function WriteFailure(db: Db, id: JobId, job: Job, r: Reservation, budget: Budget): Db {
    var released := WriteRelease(db.(jobs := db.jobs[id := FailedJob(job)]), id, r, budget);
    released.(audit := released.audit + [JobFailed(job.workspace, id, FailureReason(job))])
  }

  // ----- One transaction alone: the serial specification -----

  function ExecuteReserve(db: Db, workspace: WorkspaceId, job: JobId, amount: real): Result<Db, Error> {
    var cost :- Cost(amount);
    match FindBudget(db, workspace)
    case None => Err(BudgetMissing)
    case Some(b) =>
      if !Fits(db.budgets[b], cost) then Err(LimitReached)
      else if !CanInsertReservation(db, job) then Err(IntegrityViolation)
      else Ok(WriteReservation(db, job, b, db.budgets[b], workspace, cost))
  }

  function ExecuteSettle(db: Db, job: JobId, amount: real): Result<Db, Error> {
    var actual :- Cost(amount);
    if job !in db.reservations || !db.reservations[job].state.Active? then Err(NotActive)
    else
      var r := db.reservations[job];
      if actual > r.amount then Err(AboveReservation)
      else if r.budgetId !in db.budgets then Err(BudgetMissing)
      else Ok(WriteSettlement(db, job, r, db.budgets[r.budgetId], actual))
  }

  function ExecuteRelease(db: Db, job: JobId): Result<Db, Error> {
    if job !in db.reservations || !db.reservations[job].state.Active? then Err(NotActive)
    else
      var r := db.reservations[job];
      if r.budgetId !in db.budgets then Err(BudgetMissing)
      else Ok(WriteRelease(db, job, r, db.budgets[r.budgetId]))
  }

  function ExecuteOverride(db: Db, workspace: WorkspaceId, newLimit: real, reason: string): Result<Db, Error> {
    if Text.Strip(reason) == "" then Err(ReasonRequired)
    else
      var limit :- Cost(newLimit);
      match FindBudget(db, workspace)
      case None => Err(BelowCommitments)
      case Some(b) =>
        if limit < db.budgets[b].spent + db.budgets[b].reserved then Err(BelowCommitments)
        else Ok(WriteOverride(db, workspace, b, db.budgets[b], limit))
  }

  function NewJob(workspace: WorkspaceId, cost: int, key: string): Job {
    Job(workspace, Text.Strip(key), cost, false, Queued, None)
  }

  /** A key that is already taken answers the existing job and writes nothing. */
  function ExecuteCreate(
    db: Db, workspace: WorkspaceId, id: JobId, amount: real, key: string, carriesPayload: bool)
    : Result<Db, Error>
  {
    if !ValidKey(Text.Strip(key)) then Err(KeyRejected)
    else if carriesPayload then Err(PayloadRejected)
    else if (workspace, Text.Strip(key)) in db.jobByKey then Ok(db)
    else
      var cost :- Cost(amount);
      if id in db.jobs then Err(IntegrityViolation)
      else
        match FindBudget(db, workspace)
        case None => Err(BudgetMissing)
        case Some(b) =>
          if !Fits(db.budgets[b], cost) then Err(LimitReached)
          else if id in db.reservations then Err(IntegrityViolation)
          else Ok(WriteCreation(db, id, NewJob(workspace, cost, key), b, db.budgets[b]))
  }

  /** One delivery of a job id to the worker. */
  function ExecuteProcess(db: Db, id: JobId): Result<Db, Error> {
    if id !in db.jobs || db.jobs[id].state != Queued then Ok(db)
    else if id !in db.reservations || !db.reservations[id].state.Active? then Err(NotActive)
    else
      var r := db.reservations[id];
      if r.budgetId !in db.budgets then Err(BudgetMissing)
      else Ok(WriteFailure(db, id, db.jobs[id], r, db.budgets[r.budgetId]))
  }

  function ExecuteTransition(db: Db, id: JobId, target: JobState, code: Option<string>): Result<Db, Error> {
    if id !in db.jobs then Err(JobMissing)
    else if target !in AllowedTransitions(db.jobs[id].state) then Err(TransitionRejected)
    else Ok(db.(jobs := db.jobs[id := db.jobs[id].(state := target, errorCode := StoredCode(code))]))
  }

  function Execute(db: Db, request: Request): Result<Db, Error> {
    match request
    case Reserve(workspace, job, amount) => ExecuteReserve(db, workspace, job, amount)
    case Settle(job, amount) => ExecuteSettle(db, job, amount)
    case Release(job) => ExecuteRelease(db, job)
    case Override(workspace, newLimit, reason) => ExecuteOverride(db, workspace, newLimit, reason)
    case Create(workspace, job, amount, key, carriesPayload) =>
      ExecuteCreate(db, workspace, job, amount, key, carriesPayload)
    case Process(job) => ExecuteProcess(db, job)
    case Transition(job, target, code) => ExecuteTransition(db, job, target, code)
  }

  /** An error rolls the transaction back. */
  function Commit(db: Db, request: Request): Db {
    match Execute(db, request)
    case Ok(next) => next
    case Err(_) => db
  }

  /** The serial run of the requests, first to last. */
  function CommitAll(db: Db, requests: seq<Request>): Db {
    if requests == [] then db
    else Commit(CommitAll(db, requests[..|requests| - 1]), requests[|requests| - 1])
  }
}
