/** The budget and job services and the worker as the code runs them: statement by statement on the
    session's tables, committed or rolled back as a whole (src/application/budgets.py,
    src/application/jobs.py, src/workers/broker.py, src/infrastructure/database.py). */
module Services {
  import opened Basics
  import opened Outcomes
  import opened Accounts
  import Text
  import Usage

  /** The tables as one session sees and changes them, and its after-commit listeners. */
  class Session {
    var budgets: map<BudgetId, Budget>
    const budgetOf: map<WorkspaceId, BudgetId>
    var reservations: map<JobId, Reservation>
    var jobs: map<JobId, Job>
    var jobByKey: map<(WorkspaceId, string), JobId>
    var ledger: seq<LedgerEntry>
    var audit: seq<AuditEvent>
    var afterCommit: seq<JobId>

    constructor (db: Db)
      ensures View() == db && afterCommit == []
    {
      budgets, budgetOf, reservations := db.budgets, db.budgetOf, db.reservations;
      jobs, jobByKey := db.jobs, db.jobByKey;
      ledger, audit, afterCommit := db.ledger, db.audit, [];
    }

    function View(): Db
      reads this
    {
      Db(budgets, budgetOf, reservations, jobs, jobByKey, ledger, audit)
    }
  }

  /** A call answers as its specification does; when it raises, what it wrote so far is for the
      session to roll back. */
  ghost predicate Answers<T>(session: Session, outcome: Result<Db, Error>, r: Result<T, Error>)
    reads session
  {
    match outcome
    case Ok(db) => r.Ok? && session.View() == db
    case Err(error) => r == Err(error)
  }

  /** The snapshot gives the balances of the row, and warns where they reach the threshold. */
  ghost predicate Shows(snapshot: Snapshot, budget: Budget) {
    && snapshot.hardLimit == budget.hardLimit
    && snapshot.spent == budget.spent
    && snapshot.reserved == budget.reserved
    && snapshot.warning == Usage.Warns(budget.spent, budget.reserved, budget.hardLimit, budget.warning)
  }

  class BudgetService {
    constructor () {
    }

    method Reserve(session: Session, workspace: WorkspaceId, job: JobId, amount: real)
      returns (r: Result<Reservation, Error>)
      modifies session
      ensures Answers(session, ExecuteReserve(old(session.View()), workspace, job, amount), r)
      ensures r.Ok? ==> session.reservations[job] == r.value
      ensures session.afterCommit == old(session.afterCommit)
    {
      var cost :- Cost(amount);
      if workspace !in session.budgetOf || session.budgetOf[workspace] !in session.budgets {
        return Err(BudgetMissing);
      }
      var b := session.budgetOf[workspace];
      var budget := session.budgets[b];
      if budget.spent + budget.reserved + cost > budget.hardLimit {
        return Err(LimitReached);
      }
      var reservation := Reservation(workspace, b, cost, 0, Active);
      session.budgets := session.budgets[b := budget.(reserved := budget.reserved + cost)];
      if job !in session.jobs || job in session.reservations {
        return Err(IntegrityViolation);
      }
      session.reservations := session.reservations[job := reservation];
      session.ledger := session.ledger + [LedgerEntry(workspace, Some(job), ReservationEntry, cost)];
      r := Ok(reservation);
    }

    method Settle(session: Session, job: JobId, amount: real)
      returns (r: Result<Snapshot, Error>)
      modifies session
      ensures Answers(session, ExecuteSettle(old(session.View()), job, amount), r)
      ensures r.Ok? ==>
        var b := old(session.reservations[job].budgetId);
        Shows(r.value, session.budgets[b])
    {
      var actual :- Cost(amount);
      if job !in session.reservations || !session.reservations[job].state.Active? {
        return Err(NotActive);
      }
      var reservation := session.reservations[job];
      if actual > reservation.amount {
        return Err(AboveReservation);
      }
      if reservation.budgetId !in session.budgets {
        return Err(BudgetMissing);
      }
      ghost var before := session.View();
      var budget := session.budgets[reservation.budgetId];
      budget := budget.(reserved := budget.reserved - reservation.amount);
      budget := budget.(spent := budget.spent + actual);
      session.budgets := session.budgets[reservation.budgetId := budget];
      session.reservations := session.reservations[job := reservation.(state := Settled, settledAmount := actual)];
      session.ledger := session.ledger + [LedgerEntry(reservation.workspace, Some(job), ChargeEntry, actual)];
      var released := reservation.amount - actual;
      if released != 0 {
        session.ledger := session.ledger + [LedgerEntry(reservation.workspace, Some(job), ReleaseEntry, released)];
      }
      assert session.ledger == before.ledger + SettlementEntries(job, reservation, actual);
      r := Ok(TakeSnapshot(budget));
    }

    method Release(session: Session, job: JobId)
      returns (r: Result<Snapshot, Error>)
      modifies session
      ensures Answers(session, ExecuteRelease(old(session.View()), job), r)
      ensures r.Ok? ==>
        var b := old(session.reservations[job].budgetId);
        Shows(r.value, session.budgets[b])
      ensures session.afterCommit == old(session.afterCommit)
    {
      if job !in session.reservations || !session.reservations[job].state.Active? {
        return Err(NotActive);
      }
      var reservation := session.reservations[job];
      if reservation.budgetId !in session.budgets {
        return Err(BudgetMissing);
      }
      var budget := session.budgets[reservation.budgetId];
      var amount := reservation.amount;
      budget := budget.(reserved := budget.reserved - amount);
      session.budgets := session.budgets[reservation.budgetId := budget];
      session.reservations := session.reservations[job := reservation.(state := Released)];
      session.ledger := session.ledger + [LedgerEntry(reservation.workspace, Some(job), ReleaseEntry, amount)];
      r := Ok(TakeSnapshot(budget));
    }

    method OverrideLimit(
      session: Session, workspace: WorkspaceId, newLimit: real, reason: string)
      returns (r: Result<Snapshot, Error>)
      modifies session
      ensures Answers(session, ExecuteOverride(old(session.View()), workspace, newLimit, reason), r)
      ensures r.Ok? ==>
        var b := session.budgetOf[workspace];
        Shows(r.value, session.budgets[b])
    {
      if Text.Strip(reason) == "" {
        return Err(ReasonRequired);
      }
      var newValue :- Cost(newLimit);
      if workspace !in session.budgetOf || session.budgetOf[workspace] !in session.budgets {
        return Err(BelowCommitments);
      }
      var b := session.budgetOf[workspace];
      var budget := session.budgets[b];
      if newValue < budget.spent + budget.reserved {
        return Err(BelowCommitments);
      }
      var was := budget.hardLimit;
      session.budgets := session.budgets[b := budget.(hardLimit := newValue)];
      session.ledger := session.ledger + [LedgerEntry(workspace, None, OverrideEntry, newValue - was)];
      session.audit := session.audit + [BudgetOverridden(b, was, newValue)];
      r := Ok(TakeSnapshot(session.budgets[b]));
    }
  }

  function EnsureJobTransition(current: JobState, target: JobState): Result<(), Error> {
    if target in AllowedTransitions(current) then Ok(()) else Err(TransitionRejected)
  }

  datatype JobCreation = JobCreation(job: JobId, created: bool)

  class JobService {
    const budgets: BudgetService

    constructor (budgets: BudgetService) {
      this.budgets := budgets;
    }

    /** `newId` is the UUID drawn for a new job. */
    method Create(
      session: Session, workspace: WorkspaceId, newId: JobId, carriesPayload: bool, amount: real,
      idempotencyKey: string)
      returns (r: Result<JobCreation, Error>)
      modifies session
      ensures Answers(
        session, ExecuteCreate(old(session.View()), workspace, newId, amount, idempotencyKey, carriesPayload), r)
      ensures r.Ok? ==> session.afterCommit == old(session.afterCommit) + if r.value.created then [newId] else []
      ensures r.Ok? ==> (r.value.created <==> session.View() != old(session.View()))
      ensures r.Ok? ==> session.jobByKey[(workspace, Text.Strip(idempotencyKey))] == r.value.job
    {
      var key := Text.Strip(idempotencyKey);
      if key == "" || |key| > MAX_KEY_LENGTH {
        return Err(KeyRejected);
      }
      if carriesPayload {
        return Err(PayloadRejected);
      }
      if (workspace, key) in session.jobByKey {
        return Ok(JobCreation(session.jobByKey[(workspace, key)], false));
      }
      ghost var before := session.View();
      var cost :- Cost(amount);
      if newId in session.jobs {
        return Err(IntegrityViolation);
      }
      session.jobs := session.jobs[newId := Job(workspace, key, cost, carriesPayload, Queued, None)];
      session.jobByKey := session.jobByKey[(workspace, key) := newId];
      CostIsStable(amount);
      var _ :- budgets.Reserve(session, workspace, newId, Usage.Amount(cost));
      session.afterCommit := session.afterCommit + [newId];
      session.audit := session.audit + [JobCreated(workspace, newId)];
      assert newId in session.View().jobs && newId !in before.jobs;
      r := Ok(JobCreation(newId, true));
    }

    method Transition(session: Session, job: JobId, target: JobState, code: Option<string>)
      returns (r: Result<JobId, Error>)
      modifies session
      ensures Answers(session, ExecuteTransition(old(session.View()), job, target, code), r)
    {
      if job !in session.jobs {
        return Err(JobMissing);
      }
      var _ :- EnsureJobTransition(session.jobs[job].state, target);
      var row := session.jobs[job].(state := target);
      row := row.(errorCode := StoredCode(code));
      session.jobs := session.jobs[job := row];
      r := Ok(job);
    }
  }

  /** The stored estimate is passed to `reserve`, which normalises it again. */
  lemma CostIsStable(amount: real)
    requires Cost(amount).Ok?
    ensures Cost(Usage.Amount(Cost(amount).value)) == Cost(amount)
  {
    Usage.NormalizedIsNearestAndStable(amount);
  }

  /** The queue behind `DramatiqJobPublisher`. */
  class Publisher {
    var messages: seq<JobId>

    constructor ()
      ensures messages == []
    {
      messages := [];
    }

    method Publish(job: JobId)
      modifies this
      ensures messages == old(messages) + [job]
    {
      messages := messages + [job];
    }
  }

  /** One database with its committed tables. */
  class Database {
    var committed: Db
    const publisher: Publisher

    constructor (origin: Db, publisher: Publisher)
      ensures committed == origin && this.publisher == publisher
    {
      committed, this.publisher := origin, publisher;
    }

    /** Leaving the `session` block normally: commit, then run the after-commit listeners. */
    method CommitSession(session: Session)
      modifies this, publisher
      ensures committed == session.View()
      ensures publisher.messages == old(publisher.messages) + session.afterCommit
    {
      committed := session.View();
      var i := 0;
      while i < |session.afterCommit|
        invariant 0 <= i <= |session.afterCommit|
        invariant publisher.messages == old(publisher.messages) + session.afterCommit[..i]
        invariant committed == session.View()
      {
        publisher.Publish(session.afterCommit[i]);
        i := i + 1;
      }
    }

    /** A budget-service call in a session of its own. */
    method CallBudgets(budgets: BudgetService, request: Request) returns (r: Result<(), Error>)
      requires request.Reserve? || request.Settle? || request.Release? || request.Override?
      modifies this, publisher
      ensures committed == Commit(old(committed), request)
      ensures r.Ok? <==> Execute(old(committed), request).Ok?
      ensures publisher.messages == old(publisher.messages)
    {
      var session := new Session(committed);
      match request {
        case Reserve(workspace, job, amount) =>
          var _ :- budgets.Reserve(session, workspace, job, amount);
        case Settle(job, amount) =>
          var _ :- budgets.Settle(session, job, amount);
        case Release(job) =>
          var _ :- budgets.Release(session, job);
        case Override(workspace, newLimit, reason) =>
          var _ :- budgets.OverrideLimit(session, workspace, newLimit, reason);
      }
      committed := session.View();
      return Ok(());
    }

    /** `JobService.create` in a session of its own: a new job is committed and then published; a
        replayed key answers the first job; anything else changes and publishes nothing. */
    method CallCreate(
      service: JobService, workspace: WorkspaceId, newId: JobId, amount: real, key: string, carriesPayload: bool)
      returns (r: Result<JobCreation, Error>)
      modifies this, publisher
      ensures committed == Commit(old(committed), Create(workspace, newId, amount, key, carriesPayload))
      ensures r.Ok? <==> Execute(old(committed), Create(workspace, newId, amount, key, carriesPayload)).Ok?
      ensures r.Ok? ==> committed.jobByKey[(workspace, Text.Strip(key))] == r.value.job
      ensures publisher.messages
           == old(publisher.messages) + if committed != old(committed) then [newId] else []
    {
      var session := new Session(committed);
      r := service.Create(session, workspace, newId, carriesPayload, amount, key);
      if r.Ok? {
        CommitSession(session);
      }
    }

    /** `JobService.transition` in a session of its own. */
    method CallTransition(service: JobService, job: JobId, target: JobState, code: Option<string>)
      returns (r: Result<JobId, Error>)
      modifies this
      ensures committed == Commit(old(committed), Transition(job, target, code))
    {
      var session := new Session(committed);
      r := service.Transition(session, job, target, code);
      if r.Ok? {
        committed := session.View();
      }
    }

    /** `process_job`: one delivery of a job id to the worker. */
    method ProcessJob(budgets: BudgetService, id: JobId) returns (r: Result<(), Error>)
      modifies this
      ensures committed == Commit(old(committed), Process(id))
      ensures r.Ok? <==> Execute(old(committed), Process(id)).Ok?
    {
      ghost var before := committed;
      var session := new Session(committed);
      if id !in session.jobs {
        return Ok(());
      }
      var workspace := session.jobs[id].workspace;
      var job := session.jobs[id];
      if job.state != Queued {
        return Ok(());
      }
      var reason := if job.carriesPayload then PAYLOAD_NOT_ALLOWED else PIPELINE_NOT_CONFIGURED;
      assert EnsureJobTransition(job.state, Validating).Ok?;
      job := job.(state := Validating);
      assert EnsureJobTransition(job.state, Failed).Ok?;
      job := job.(state := Failed);
      job := job.(errorCode := Some(reason));
      session.jobs := session.jobs[id := job];
      assert session.View() == before.(jobs := before.jobs[id := job]);
      var _ :- budgets.Release(session, id);
      session.audit := session.audit + [JobFailed(workspace, id, reason)];
      committed := session.View();
      return Ok(());
    }
  }
}
