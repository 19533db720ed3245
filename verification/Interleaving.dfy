/** Concurrent service calls at the level of row locks. Each transaction looks, locks rows one by
    one, copies what it locked, and commits or rolls back; locks are held until then
    (src/infrastructure/database.py, `session`; the `with_for_update` selects and the unique
    constraints of src/infrastructure/models.py). */
module Interleaving {
  import opened Basics
  import opened Outcomes
  import opened Accounts
  import opened Bookkeeping
  import Text

  type TxnId = nat

  /** A row lock, or the claim an uncommitted insert has on a unique index entry. `ShareLock` is the
      key-share lock on a job row that inserting a row with a foreign key to it takes. */
  datatype Lock =
    | KeyLock(workspace: WorkspaceId, key: string)
    | JobLock(job: JobId)
    | RowLock(job: JobId)
    | BudgetLock(budget: BudgetId)
    | UniqueLock(job: JobId)
    | ShareLock(job: JobId)

  function Rank(lock: Lock): nat {
    match lock
    case KeyLock(_, _) => 0
    case JobLock(_) => 1
    case RowLock(_) => 2
    case BudgetLock(_) => 3
    case UniqueLock(_) => 4
    case ShareLock(_) => 5
  }

  /** Whether a transaction holding `held` keeps others from `lock`. Share locks exclude only the
      exclusive lock on the same job row. */
  predicate Excludes(held: set<Lock>, lock: Lock) {
    match lock
    case JobLock(job) => JobLock(job) in held || ShareLock(job) in held
    case ShareLock(job) => JobLock(job) in held
    case _ => lock in held
  }

  /** A live transaction: the locks it holds and the copies it took of the rows it locked. `doomed`
      records that an insert met a committed row with the same key. */
  datatype Txn = Txn(
    request: Request, looked: bool, doomed: bool, held: set<Lock>,
    job: Option<Job>, row: Option<Reservation>, budget: Option<(BudgetId, Budget)>)

  /** What a scheduled transaction does next. */
  datatype Move = Look | Wait(lock: Lock) | Raise | Return | Finish

  datatype System = System(
    db: Db, live: map<TxnId, Txn>, history: seq<Request>, outbox: seq<JobId>, published: seq<JobId>)

  datatype Event = Begin(id: TxnId, request: Request) | Advance(id: TxnId) | Crash(id: TxnId) | Publish

  // ----- One transaction -----

  /** Argument checks and the reads made before any lock. */
  function Opening(db: Db, request: Request): Move {
    match request
    case Reserve(_, _, amount) => if Cost(amount).Ok? then Look else Raise
    case Settle(_, amount) => if Cost(amount).Ok? then Look else Raise
    case Release(_) => Look
    case Override(_, limit, reason) => if Text.Strip(reason) != "" && Cost(limit).Ok? then Look else Raise
    case Create(workspace, _, amount, key, carriesPayload) =>
      if !ValidKey(Text.Strip(key)) || carriesPayload then Raise
      else if (workspace, Text.Strip(key)) in db.jobByKey then Return
      else if Cost(amount).Ok? then Look
      else Raise
    case Process(job) => if job in db.jobs then Look else Return
    case Transition(_, _, _) => Look
  }

  /** Lock the budget of a workspace, when it has one. */
  function LockBudget(db: Db, workspace: WorkspaceId): Move {
    match FindBudget(db, workspace)
    case None => Raise
    case Some(b) => Wait(BudgetLock(b))
  }

  /** The foreign key of a reservation or ledger row: the job must be committed, and its row is locked
      against deletion and against exclusive locks. */
  function LockParent(db: Db, t: Txn, job: JobId): Move {
    if job !in db.jobs then Raise
    else if ShareLock(job) !in t.held then Wait(ShareLock(job))
    else Finish
  }

  function ThenParent(move: Move, db: Db, t: Txn, job: JobId): Move {
    if move.Finish? then LockParent(db, t, job) else move
  }

  /** The reservation row, then its budget row: the common part of settle, release and the worker. */
  function LockReservation(db: Db, t: Txn, job: JobId, atLeast: int): Move {
    if t.row.None? then (if job in db.reservations then Wait(RowLock(job)) else Raise)
    else if !t.row.value.state.Active? || atLeast > t.row.value.amount then Raise
    else if t.budget.None? then
      (if t.row.value.budgetId in db.budgets then Wait(BudgetLock(t.row.value.budgetId)) else Raise)
    else Finish
  }

  /** The same where all of the reservation is given back. */
  function LockWhole(db: Db, t: Txn, job: JobId): Move {
    LockReservation(db, t, job, if t.row.Some? then t.row.value.amount else 0)
  }

  function NextMove(db: Db, t: Txn): Move {
    if !t.looked then Opening(db, t.request)
    else if t.doomed then Raise
    else
      match t.request
      case Reserve(workspace, job, amount) =>
        if t.budget.None? then LockBudget(db, workspace)
        else if Cost(amount).Err? || !Fits(t.budget.value.1, Cost(amount).value) then Raise
        else if UniqueLock(job) !in t.held then Wait(UniqueLock(job))
        else LockParent(db, t, job)
      case Settle(job, amount) =>
        if Cost(amount).Err? then Raise
        else ThenParent(LockReservation(db, t, job, Cost(amount).value), db, t, job)
      case Release(job) => ThenParent(LockWhole(db, t, job), db, t, job)
      case Override(workspace, limit, _) =>
        if t.budget.None? then LockBudget(db, workspace)
        else if Cost(limit).Err? || Cost(limit).value < t.budget.value.1.spent + t.budget.value.1.reserved then Raise
        else Finish
      case Create(workspace, job, amount, key, _) =>
        if KeyLock(workspace, Text.Strip(key)) !in t.held then Wait(KeyLock(workspace, Text.Strip(key)))
        else if JobLock(job) !in t.held then Wait(JobLock(job))
        else if t.budget.None? then LockBudget(db, workspace)
        else if Cost(amount).Err? || !Fits(t.budget.value.1, Cost(amount).value) then Raise
        else if UniqueLock(job) !in t.held then Wait(UniqueLock(job))
        else Finish
      case Process(job) =>
        if t.job.None? then (if job in db.jobs then Wait(JobLock(job)) else Return)
        else if t.job.value.state != Queued then Return
        else LockWhole(db, t, job)
      case Transition(job, target, _) =>
        if t.job.None? then (if job in db.jobs then Wait(JobLock(job)) else Raise)
        else if target !in AllowedTransitions(t.job.value.state) then Raise
        else Finish
  }

  /** Whether the insert behind this lock meets a committed row. */
  predicate Collides(db: Db, request: Request, lock: Lock) {
    match lock
    case KeyLock(workspace, key) => (workspace, key) in db.jobByKey
    case JobLock(job) => request.Create? && job in db.jobs
    case UniqueLock(job) => job in db.reservations || (!request.Create? && job !in db.jobs)
    case _ => false
  }

  /** The lock is granted, and the row behind it is copied as committed at that moment. */
  function Take(db: Db, t: Txn, lock: Lock): Txn {
    var locked := t.(held := t.held + {lock}, doomed := t.doomed || Collides(db, t.request, lock));
    match lock
    case JobLock(job) => if !t.request.Create? && job in db.jobs then locked.(job := Some(db.jobs[job])) else locked
    case RowLock(job) => if job in db.reservations then locked.(row := Some(db.reservations[job])) else locked
    case BudgetLock(b) => if b in db.budgets then locked.(budget := Some((b, db.budgets[b]))) else locked
    case _ => locked
  }

  /** The rows a finishing transaction writes, computed from its copies. */
  function Written(db: Db, t: Txn): Db {
    match t.request
    case Reserve(workspace, job, amount) =>
      if t.budget.Some? && Cost(amount).Ok? then
        WriteReservation(db, job, t.budget.value.0, t.budget.value.1, workspace, Cost(amount).value)
      else db
    case Settle(job, amount) =>
      if t.row.Some? && t.budget.Some? && Cost(amount).Ok? then
        WriteSettlement(db, job, t.row.value, t.budget.value.1, Cost(amount).value)
      else db
    case Release(job) =>
      if t.row.Some? && t.budget.Some? then WriteRelease(db, job, t.row.value, t.budget.value.1) else db
    case Override(workspace, limit, _) =>
      if t.budget.Some? && Cost(limit).Ok? then
        WriteOverride(db, workspace, t.budget.value.0, t.budget.value.1, Cost(limit).value)
      else db
    case Create(workspace, job, amount, key, _) =>
      if t.budget.Some? && Cost(amount).Ok? then
        WriteCreation(db, job, NewJob(workspace, Cost(amount).value, key), t.budget.value.0, t.budget.value.1)
      else db
    case Process(job) =>
      if t.job.Some? && t.row.Some? && t.budget.Some? then
        WriteFailure(db, job, t.job.value, t.row.value, t.budget.value.1)
      else db
    case Transition(job, target, code) =>
      if t.job.Some? then
        db.(jobs := db.jobs[job := t.job.value.(state := target, errorCode := StoredCode(code))])
      else db
  }

  // ----- The system -----

  predicate Free(s: System, lock: Lock) {
    forall id | id in s.live :: !Excludes(s.live[id].held, lock)
  }

  predicate Blocked(s: System, id: TxnId)
    requires id in s.live
  {
    var move := NextMove(s.db, s.live[id]);
    move.Wait? && !Free(s, move.lock)
  }

  function Announced(request: Request): seq<JobId> {
    if request.Create? then [request.job] else []
  }

  /** One event. A blocked transaction that is scheduled waits; `Publish` hands the oldest committed
      job id to the queue. */
  function Step(s: System, e: Event): System {
    match e
    case Begin(id, request) =>
      if id in s.live then s
      else s.(live := s.live[id := Txn(request, false, false, {}, None, None, None)])
    case Advance(id) => if id in s.live then AdvanceTxn(s, id) else s
    case Crash(id) => s.(live := s.live - {id})
    case Publish =>
      if s.outbox == [] then s
      else s.(outbox := s.outbox[1..], published := s.published + [s.outbox[0]])
  }

  function AdvanceTxn(s: System, id: TxnId): System
    requires id in s.live
  {
    var t := s.live[id];
    match NextMove(s.db, t)
    case Look => s.(live := s.live[id := t.(looked := true)])
    case Wait(lock) => if Free(s, lock) then s.(live := s.live[id := Take(s.db, t, lock)]) else s
    case Raise => s.(live := s.live - {id})
    case Return => s.(live := s.live - {id}, history := s.history + [t.request])
    case Finish =>
      s.(db := Written(s.db, t), live := s.live - {id}, history := s.history + [t.request],
         outbox := s.outbox + Announced(t.request))
  }

  function Runs(s: System, events: seq<Event>): System {
    if events == [] then s
    else Step(Runs(s, events[..|events| - 1]), events[|events| - 1])
  }

  function Start(db: Db): System {
    System(db, map[], [], [], [])
  }
}
