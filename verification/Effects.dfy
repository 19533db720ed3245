/** What each call of the budget and job services asks for and what it gets, in terms of its arguments, the
    rows it meets and the rows it leaves; and the same for every interleaving of calls. */
module Effects {
  import opened Basics
  import opened Outcomes
  import opened Usage
  import opened Accounts
  import opened Bookkeeping
  import opened Interleaving
  import opened Serializability
  import Text

  // ----- Amounts, keys and states -----

  /** `units` is `amount` rounded to the micro-unit, ties to even, and fits 28 digits. */
  ghost predicate Costs(amount: real, units: int) {
    && IsNearestTiesToEven(amount * 1_000_000.0, units)
    && 0 <= units < 10_000_000_000_000_000_000_000_000_000
  }

  lemma CostIsNearest(amount: real, units: int)
    ensures Cost(amount) == Ok(units) <==> Costs(amount, units)
    ensures Cost(amount).Err? <==> forall n :: !Costs(amount, n)
  {
    var nearest := RoundHalfEven(amount * 1_000_000.0);
    RoundingIsNearest(amount * 1_000_000.0, nearest);
    RoundingIsNearest(amount * 1_000_000.0, units);
    forall n | Costs(amount, n) ensures n == nearest {
      RoundingIsNearest(amount * 1_000_000.0, n);
    }
    assert Cost(amount).Ok? ==> Costs(amount, nearest);
  }

  /** How far a job has come; a job that is cancelled or has failed is on no stage. */
  function Stage(state: JobState): int {
    match state
    case Queued => 0
    case Validating => 1
    case Running => 2
    case Completed => 3
    case Partial => 3
    case Cancelled => -1
    case Failed => -1
  }

  /** A job goes on to the next stage, fails once it is being worked on, or is cancelled; from its last stage
      nothing follows. */
  predicate MayMove(from: JobState, to: JobState) {
    && 0 <= Stage(from) <= 2
    && (Stage(to) == Stage(from) + 1 || to == Cancelled || (to == Failed && Stage(from) > 0))
  }

  lemma TransitionsAreStages(from: JobState, to: JobState)
    ensures to in AllowedTransitions(from) <==> MayMove(from, to)
  {
  }

  // ----- When a call succeeds -----

  ghost predicate HasBudget(db: Db, workspace: WorkspaceId, b: BudgetId) {
    workspace in db.budgetOf && db.budgetOf[workspace] == b && b in db.budgets
  }

  /** The budget still covers the units. */
  ghost predicate Covers(db: Db, b: BudgetId, units: int)
    requires b in db.budgets
  {
    db.budgets[b].spent + db.budgets[b].reserved + units <= db.budgets[b].hardLimit
  }

  ghost predicate CanReserve(db: Db, workspace: WorkspaceId, amount: real) {
    exists b, units :: Costs(amount, units) && HasBudget(db, workspace, b) && Covers(db, b, units)
  }

  /** The new limit covers what is spent and held. */
  ghost predicate CanLimit(db: Db, workspace: WorkspaceId, newLimit: real) {
    exists b, units :: Costs(newLimit, units) && HasBudget(db, workspace, b) && Committed(db, b) <= units
  }

  function Committed(db: Db, b: BudgetId): int
    requires b in db.budgets
  {
    db.budgets[b].spent + db.budgets[b].reserved
  }

  ghost predicate HeldFor(db: Db, job: JobId) {
    job in db.reservations && db.reservations[job].state == Active && db.reservations[job].budgetId in db.budgets
  }

  /** What a call needs to succeed. */
  ghost predicate Admits(db: Db, request: Request) {
    match request
    case Reserve(workspace, job, amount) =>
      CanReserve(db, workspace, amount) && job in db.jobs && job !in db.reservations
    case Settle(job, amount) =>
      HeldFor(db, job) && exists units :: Costs(amount, units) && units <= db.reservations[job].amount
    case Release(job) => HeldFor(db, job)
    case Override(workspace, newLimit, reason) =>
      && (exists c :: c in reason && !Text.IsSpace(c))
      && CanLimit(db, workspace, newLimit)
    case Create(workspace, job, amount, key, carriesPayload) =>
      && 1 <= |Text.Strip(key)| <= 128 && !carriesPayload
      && ((workspace, Text.Strip(key)) in db.jobByKey
          || (CanReserve(db, workspace, amount) && job !in db.jobs && job !in db.reservations))
    case Process(job) => job in db.jobs && db.jobs[job].state == Queued ==> HeldFor(db, job)
    case Transition(job, target, _) => job in db.jobs && MayMove(db.jobs[job].state, target)
  }

  lemma {:induction false} NothingLeft(s: string)
    ensures Text.Strip(s) == "" <==> forall c | c in s :: Text.IsSpace(c)
  {
    LeftOver(s);
    RightOver(Text.StripLeft(s));
  }

  lemma {:induction false} LeftOver(s: string)
    ensures (forall c | c in s :: Text.IsSpace(c)) <==> Text.StripLeft(s) == ""
    ensures Text.StripLeft(s) != "" ==> !Text.IsSpace(Text.StripLeft(s)[0])
  {
    if s != [] {
      LeftOver(s[1..]);
      assert forall c :: c in s <==> c == s[0] || c in s[1..];
    }
  }

  lemma {:induction false} RightOver(s: string)
    requires s != [] ==> !Text.IsSpace(s[0])
    ensures Text.StripRight(s) == "" <==> s == ""
  {
    if |s| > 1 {
      RightOver(s[..|s| - 1]);
    }
  }

  lemma ReserveSucceeds(db: Db, workspace: WorkspaceId, amount: real)
    ensures CanReserve(db, workspace, amount) <==>
      && Cost(amount).Ok? && FindBudget(db, workspace).Some?
      && Fits(db.budgets[FindBudget(db, workspace).value], Cost(amount).value)
  {
    if Cost(amount).Ok? {
      CostIsNearest(amount, Cost(amount).value);
      if FindBudget(db, workspace).Some? {
        assert HasBudget(db, workspace, FindBudget(db, workspace).value);
      }
    }
    if b, units :| Costs(amount, units) && HasBudget(db, workspace, b) && Covers(db, b, units) {
      CostIsNearest(amount, units);
    }
  }

  /** A call succeeds if and only if it gets what it needs. */
  lemma CallsSucceedExactly(db: Db, request: Request)
    ensures Execute(db, request).Ok? <==> Admits(db, request)
  {
    match request
    case Reserve(workspace, _, amount) => ReserveSucceeds(db, workspace, amount);
    case Settle(job, amount) =>
      if Cost(amount).Ok? {
        CostIsNearest(amount, Cost(amount).value);
      }
      if units :| Costs(amount, units) {
        CostIsNearest(amount, units);
      }
    case Release(_) =>
    case Override(workspace, newLimit, reason) =>
      NothingLeft(reason);
      OverrideSucceeds(db, workspace, newLimit);
    case Create(workspace, _, amount, _, _) => ReserveSucceeds(db, workspace, amount);
    case Process(_) =>
    case Transition(job, target, _) =>
      if job in db.jobs {
        TransitionsAreStages(db.jobs[job].state, target);
      }
  }

  lemma OverrideSucceeds(db: Db, workspace: WorkspaceId, newLimit: real)
    ensures CanLimit(db, workspace, newLimit) <==>
      && Cost(newLimit).Ok? && FindBudget(db, workspace).Some?
      && Committed(db, FindBudget(db, workspace).value) <= Cost(newLimit).value
  {
    if Cost(newLimit).Ok? {
      CostIsNearest(newLimit, Cost(newLimit).value);
      if FindBudget(db, workspace).Some? {
        assert HasBudget(db, workspace, FindBudget(db, workspace).value);
      }
    }
    if b, units :| Costs(newLimit, units) && HasBudget(db, workspace, b) && Committed(db, b) <= units {
      CostIsNearest(newLimit, units);
    }
  }

  /** What a call that is refused raises: the first of its checks that fails. */
  ghost predicate Refuses(db: Db, request: Request, error: Error) {
    match request
    case Reserve(workspace, job, amount) =>
      if Uncosted(amount) then error == CostRejected
      else if !HasAnyBudget(db, workspace) then error == BudgetMissing
      else if !CanReserve(db, workspace, amount) then error == LimitReached
      else (job in db.reservations || job !in db.jobs) && error == IntegrityViolation
    case Settle(job, amount) =>
      if Uncosted(amount) then error == CostRejected
      else if job !in db.reservations || db.reservations[job].state != Active then error == NotActive
      else if forall units | Costs(amount, units) :: units > db.reservations[job].amount
      then error == AboveReservation
      else db.reservations[job].budgetId !in db.budgets && error == BudgetMissing
    case Release(job) =>
      if job !in db.reservations || db.reservations[job].state != Active then error == NotActive
      else db.reservations[job].budgetId !in db.budgets && error == BudgetMissing
    case Override(_, newLimit, reason) =>
      if forall c | c in reason :: Text.IsSpace(c) then error == ReasonRequired
      else if Uncosted(newLimit) then error == CostRejected
      else !Admits(db, request) && error == BelowCommitments
    case Create(workspace, job, amount, key, carriesPayload) =>
      if Text.Strip(key) == "" || |Text.Strip(key)| > 128 then error == KeyRejected
      else if carriesPayload then error == PayloadRejected
      else if Uncosted(amount) then error == CostRejected
      else if job in db.jobs then error == IntegrityViolation
      else if !HasAnyBudget(db, workspace) then error == BudgetMissing
      else if !CanReserve(db, workspace, amount) then error == LimitReached
      else job in db.reservations && error == IntegrityViolation
    case Process(job) =>
      if job !in db.reservations || db.reservations[job].state != Active then error == NotActive
      else db.reservations[job].budgetId !in db.budgets && error == BudgetMissing
    case Transition(job, target, _) =>
      error == if job !in db.jobs then JobMissing else TransitionRejected
  }

  ghost predicate Uncosted(amount: real) {
    forall units :: !Costs(amount, units)
  }

  ghost predicate HasAnyBudget(db: Db, workspace: WorkspaceId) {
    exists b :: HasBudget(db, workspace, b)
  }

  /** A call that is refused names the first check it fails. */
  lemma RefusalsAreNamed(db: Db, request: Request)
    requires Execute(db, request).Err?
    ensures Refuses(db, request, Execute(db, request).error)
  {
    CallsSucceedExactly(db, request);
    match request
    case Reserve(workspace, _, amount) => ReserveRefused(db, workspace, amount);
    case Create(workspace, _, amount, _, _) => ReserveRefused(db, workspace, amount);
    case Settle(_, amount) => CostIsNearest(amount, RoundHalfEven(amount * 1_000_000.0));
    case Override(_, newLimit, reason) =>
      NothingLeft(reason);
      CostIsNearest(newLimit, 0);
    case _ =>
  }

  lemma ReserveRefused(db: Db, workspace: WorkspaceId, amount: real)
    ensures Uncosted(amount) <==> Cost(amount).Err?
    ensures HasAnyBudget(db, workspace) <==> FindBudget(db, workspace).Some?
    ensures CanReserve(db, workspace, amount) <==>
      && Cost(amount).Ok? && FindBudget(db, workspace).Some?
      && Fits(db.budgets[FindBudget(db, workspace).value], Cost(amount).value)
  {
    CostIsNearest(amount, 0);
    ReserveSucceeds(db, workspace, amount);
    if FindBudget(db, workspace).Some? {
      assert HasBudget(db, workspace, FindBudget(db, workspace).value);
    }
  }

  // ----- What a call that succeeds leaves -----

  /** `units` more are held for the job: its reservation, the budget's balance and a ledger entry. */
  ghost predicate Holding(before: Db, after: Db, workspace: WorkspaceId, job: JobId, b: BudgetId, units: int) {
    && HasBudget(before, workspace, b)
    && job !in before.reservations
    && after.reservations == before.reservations[job := Reservation(workspace, b, units, 0, Active)]
    && after.budgets == before.budgets[b := before.budgets[b].(reserved := before.budgets[b].reserved + units)]
    && after.ledger == before.ledger + [LedgerEntry(workspace, Some(job), ReservationEntry, units)]
  }

  ghost predicate Reserved(before: Db, after: Db, workspace: WorkspaceId, job: JobId, amount: real) {
    exists b, units :: Costs(amount, units) && Holding(before, after, workspace, job, b, units)
  }

  ghost predicate Charged(before: Db, after: Db, job: JobId, units: int)
    requires HeldFor(before, job)
  {
    var r := before.reservations[job];
    var budget, rest := before.budgets[r.budgetId], r.amount - units;
    && rest >= 0
    && after.reservations == before.reservations[job := r.(state := Settled, settledAmount := units)]
    && after.budgets == before.budgets[
         r.budgetId := budget.(reserved := budget.reserved - r.amount, spent := budget.spent + units)]
    && after.ledger == before.ledger + [LedgerEntry(r.workspace, Some(job), ChargeEntry, units)]
         + if rest == 0 then [] else [LedgerEntry(r.workspace, Some(job), ReleaseEntry, rest)]
  }

  ghost predicate GivenBack(before: Db, after: Db, job: JobId)
    requires HeldFor(before, job)
  {
    var r := before.reservations[job];
    var budget := before.budgets[r.budgetId];
    && after.reservations == before.reservations[job := r.(state := Released)]
    && after.budgets == before.budgets[r.budgetId := budget.(reserved := budget.reserved - r.amount)]
    && after.ledger == before.ledger + [LedgerEntry(r.workspace, Some(job), ReleaseEntry, r.amount)]
  }

  ghost predicate Limited(before: Db, after: Db, workspace: WorkspaceId, b: BudgetId, units: int) {
    && HasBudget(before, workspace, b)
    && var budget := before.budgets[b];
    && after.reservations == before.reservations
    && after.budgets == before.budgets[b := budget.(hardLimit := units)]
    && after.ledger == before.ledger + [LedgerEntry(workspace, None, OverrideEntry, units - budget.hardLimit)]
    && after.audit == before.audit + [BudgetOverridden(b, budget.hardLimit, units)]
  }

  ghost predicate SameJobs(before: Db, after: Db) {
    after.jobs == before.jobs && after.jobByKey == before.jobByKey
  }

  ghost predicate SameMoney(before: Db, after: Db) {
    after.budgets == before.budgets && after.reservations == before.reservations && after.ledger == before.ledger
  }

  ghost predicate Created(before: Db, after: Db, workspace: WorkspaceId, job: JobId, amount: real, key: string) {
    && job !in before.jobs && (workspace, Text.Strip(key)) !in before.jobByKey
    && (exists b, units ::
          && Costs(amount, units) && Holding(before, after, workspace, job, b, units)
          && after.jobs == before.jobs[job := Job(workspace, Text.Strip(key), units, false, Queued, None)])
    && after.jobByKey == before.jobByKey[(workspace, Text.Strip(key)) := job]
    && after.audit == before.audit + [JobCreated(workspace, job)]
  }

  /** The reason a delivery fails a job for: no pipeline is configured, and no job may carry a payload. */
  function Reason(job: Job): string {
    if job.carriesPayload then "provider_payload_not_allowed" else "pipeline_not_configured"
  }

  ghost predicate Failing(before: Db, after: Db, job: JobId) {
    && job in before.jobs && HeldFor(before, job) && GivenBack(before, after, job)
    && var row := before.jobs[job];
    && after.jobs == before.jobs[job := row.(state := Failed, errorCode := Some(Reason(row)))]
    && after.jobByKey == before.jobByKey
    && after.audit == before.audit + [JobFailed(row.workspace, job, Reason(row))]
  }

  /** The first hundred characters of a code, none for an empty one. */
  ghost predicate Shortened(code: Option<string>, stored: Option<string>) {
    if code.None? || code.value == "" then stored == None
    else stored.Some? && stored.value <= code.value && |stored.value| == Min(100, |code.value|)
  }

  ghost predicate Moved(before: Db, after: Db, job: JobId, target: JobState, code: Option<string>) {
    && job in before.jobs && job in after.jobs
    && after.jobs == before.jobs[
         job := before.jobs[job].(state := target, errorCode := after.jobs[job].errorCode)]
    && Shortened(code, after.jobs[job].errorCode)
    && after.jobByKey == before.jobByKey && after.audit == before.audit
  }

  /** What a call that succeeds does. The table of budgets by workspace never changes. */
  ghost predicate TakesEffect(before: Db, request: Request, after: Db) {
    && after.budgetOf == before.budgetOf
    && match request
       case Reserve(workspace, job, amount) =>
         Reserved(before, after, workspace, job, amount) && SameJobs(before, after) && after.audit == before.audit
       case Settle(job, amount) =>
         && HeldFor(before, job) && (exists units :: Costs(amount, units) && Charged(before, after, job, units))
         && SameJobs(before, after) && after.audit == before.audit
       case Release(job) =>
         && HeldFor(before, job) && GivenBack(before, after, job)
         && SameJobs(before, after) && after.audit == before.audit
       case Override(workspace, newLimit, _) =>
         && (exists b, units :: Costs(newLimit, units) && Limited(before, after, workspace, b, units))
         && SameJobs(before, after)
       case Create(workspace, job, amount, key, _) =>
         if (workspace, Text.Strip(key)) in before.jobByKey then after == before
         else Created(before, after, workspace, job, amount, key)
       case Process(job) =>
         if job in before.jobs && before.jobs[job].state == Queued then Failing(before, after, job)
         else after == before
       case Transition(job, target, code) =>
         Moved(before, after, job, target, code) && SameMoney(before, after)
  }

  lemma ReserveTakesEffect(db: Db, workspace: WorkspaceId, job: JobId, amount: real)
    requires Execute(db, Reserve(workspace, job, amount)).Ok?
    ensures TakesEffect(db, Reserve(workspace, job, amount), Commit(db, Reserve(workspace, job, amount)))
  {
    var b, units := FindBudget(db, workspace).value, Cost(amount).value;
    CostIsNearest(amount, units);
    assert Holding(db, Commit(db, Reserve(workspace, job, amount)), workspace, job, b, units);
  }

  lemma SettleTakesEffect(db: Db, job: JobId, amount: real)
    requires Execute(db, Settle(job, amount)).Ok?
    ensures TakesEffect(db, Settle(job, amount), Commit(db, Settle(job, amount)))
  {
    var after, units := Commit(db, Settle(job, amount)), Cost(amount).value;
    CostIsNearest(amount, units);
    var r := db.reservations[job];
    assert after.ledger == db.ledger + ([LedgerEntry(r.workspace, Some(job), ChargeEntry, units)]
      + if r.amount - units == 0 then [] else [LedgerEntry(r.workspace, Some(job), ReleaseEntry, r.amount - units)]);
    assert Charged(db, after, job, units);
  }

  lemma OverrideTakesEffect(db: Db, workspace: WorkspaceId, newLimit: real, reason: string)
    requires Execute(db, Override(workspace, newLimit, reason)).Ok?
    ensures TakesEffect(
      db, Override(workspace, newLimit, reason), Commit(db, Override(workspace, newLimit, reason)))
  {
    var b, units := FindBudget(db, workspace).value, Cost(newLimit).value;
    CostIsNearest(newLimit, units);
    assert Limited(db, Commit(db, Override(workspace, newLimit, reason)), workspace, b, units);
  }

  lemma CreateTakesEffect(
    db: Db, workspace: WorkspaceId, job: JobId, amount: real, key: string, carriesPayload: bool)
    requires Execute(db, Create(workspace, job, amount, key, carriesPayload)).Ok?
    ensures TakesEffect(
      db, Create(workspace, job, amount, key, carriesPayload),
      Commit(db, Create(workspace, job, amount, key, carriesPayload)))
  {
    var after := Commit(db, Create(workspace, job, amount, key, carriesPayload));
    if (workspace, Text.Strip(key)) !in db.jobByKey {
      var b, units := FindBudget(db, workspace).value, Cost(amount).value;
      CostIsNearest(amount, units);
      assert Holding(db, after, workspace, job, b, units);
    }
  }

  /** Every call that succeeds takes the effect its arguments ask for, and no other. */
  lemma CallsTakeEffect(db: Db, request: Request)
    requires Execute(db, request).Ok?
    ensures TakesEffect(db, request, Commit(db, request))
  {
    match request
    case Reserve(workspace, job, amount) => ReserveTakesEffect(db, workspace, job, amount);
    case Settle(job, amount) => SettleTakesEffect(db, job, amount);
    case Override(workspace, newLimit, reason) => OverrideTakesEffect(db, workspace, newLimit, reason);
    case Create(workspace, job, amount, key, carriesPayload) =>
      CreateTakesEffect(db, workspace, job, amount, key, carriesPayload);
    case _ =>
  }

  // ----- Every interleaving -----

  lemma {:induction false} HistoryExecutes(origin: Db, events: seq<Event>, i: nat)
    requires i < |Runs(Start(origin), events).history|
    ensures var history := Runs(Start(origin), events).history;
      Execute(CommitAll(origin, history[..i]), history[i]).Ok?
  {
    var front, e := events[..|events| - 1], events[|events| - 1];
    var s, history := Runs(Start(origin), front), Runs(Start(origin), events).history;
    InterleavingsAreSerial(origin, front);
    HistoryGrows(s, e);
    if i < |s.history| {
      HistoryExecutes(origin, front, i);
      assert history[..i] == s.history[..i];
    } else {
      assert history[..i] == s.history;
    }
  }

  /** An event adds at most one call to the history, which succeeds on the state it meets. */
  lemma HistoryGrows(s: System, e: Event)
    requires Isolated(s)
    ensures var history := Step(s, e).history;
      history == s.history
      || exists request :: history == s.history + [request] && Execute(s.db, request).Ok?
  {
    if e.Advance? && e.id in s.live {
      var t := s.live[e.id];
      match NextMove(s.db, t)
      case Return => ReturnIsSerial(s.db, t);
      case Finish => FinishIsSerial(s.db, t);
      case _ =>
    }
  }

  /** In every interleaving each committed call was admitted by the state left by those committed before it,
      and took its effect on that state. */
  lemma CommittedCallsTakeEffect(origin: Db, events: seq<Event>, i: nat)
    requires i < |Runs(Start(origin), events).history|
    ensures var history := Runs(Start(origin), events).history;
      var before, after := CommitAll(origin, history[..i]), CommitAll(origin, history[..i + 1]);
      Admits(before, history[i]) && TakesEffect(before, history[i], after)
  {
    var history := Runs(Start(origin), events).history;
    var before := CommitAll(origin, history[..i]);
    HistoryExecutes(origin, events, i);
    CallsSucceedExactly(before, history[i]);
    CallsTakeEffect(before, history[i]);
    assert history[..i + 1] == history[..i] + [history[i]];
    CommitAllOfAppend(origin, history[..i], history[i]);
  }

  /** Request i of the history created the job: with its workspace, its trimmed key and its estimate to the
      nearest micro-unit. */
  ghost predicate CreatedBy(origin: Db, history: seq<Request>, i: nat, j: JobId, job: Job) {
    && i < |history| && history[i].Create? && history[i].job == j && !history[i].carriesPayload
    && j !in CommitAll(origin, history[..i]).jobs
    && history[i].workspace == job.workspace && Text.Strip(history[i].key) == job.key
    && Costs(history[i].amount, job.cost)
  }

  predicate SameJobAsked(a: Job, b: Job) {
    a.workspace == b.workspace && a.key == b.key && a.cost == b.cost && a.carriesPayload == b.carriesPayload
  }

  lemma CommitKeepsAsked(db: Db, request: Request, j: JobId)
    requires j in db.jobs
    ensures j in Commit(db, request).jobs && SameJobAsked(db.jobs[j], Commit(db, request).jobs[j])
  {
  }

  lemma CommitCreates(db: Db, request: Request, j: JobId)
    requires j !in db.jobs && j in Commit(db, request).jobs
    ensures request.Create? && request.job == j && !request.carriesPayload
    ensures var job := Commit(db, request).jobs[j];
      && request.workspace == job.workspace && Text.Strip(request.key) == job.key
      && Costs(request.amount, job.cost) && !job.carriesPayload
  {
    if request.Create? && Execute(db, request).Ok? {
      CostIsNearest(request.amount, Cost(request.amount).value);
    }
  }

  lemma {:induction false} JobsAreAsAsked(origin: Db, history: seq<Request>, j: JobId) returns (i: nat)
    requires j in CommitAll(origin, history).jobs && j !in origin.jobs
    ensures CreatedBy(origin, history, i, j, CommitAll(origin, history).jobs[j])
    ensures !CommitAll(origin, history).jobs[j].carriesPayload
  {
    var last := |history| - 1;
    var front := history[..last];
    var before := CommitAll(origin, front);
    if j in before.jobs {
      i := JobsAreAsAsked(origin, front, j);
      CommitKeepsAsked(before, history[last], j);
      assert history[..i] == front[..i];
    } else {
      CommitCreates(before, history[last], j);
      i := last;
    }
  }

  /** In every interleaving of any calls, each job that was not there before was created by a committed request
      that asked for it, with an estimate whose nearest micro-unit is the job's cost; and exactly that cost was
      reserved for it. */
  lemma EveryJobIsAsAsked(origin: Db, events: seq<Event>, j: JobId)
    requires j in Runs(Start(origin), events).db.jobs && j !in origin.jobs
    ensures var s := Runs(Start(origin), events);
      && (exists i: nat :: CreatedBy(origin, s.history, i, j, s.db.jobs[j]))
      && j in s.db.reservations && s.db.reservations[j].amount == s.db.jobs[j].cost
      && s.db.reservations[j].workspace == s.db.jobs[j].workspace
  {
    var s := Runs(Start(origin), events);
    InterleavingsAreSerial(origin, events);
    var i := JobsAreAsAsked(origin, s.history, j);
    NewJobsAreReserved(origin, s.history, j);
  }

  ghost predicate ReservedInFull(db: Db, j: JobId) {
    && j in db.jobs && j in db.reservations
    && db.reservations[j].amount == db.jobs[j].cost && db.reservations[j].workspace == db.jobs[j].workspace
  }

  lemma CommitKeepsReserved(db: Db, request: Request, j: JobId)
    requires ReservedInFull(db, j)
    ensures ReservedInFull(Commit(db, request), j)
  {
  }

  lemma CommitReservesNew(db: Db, request: Request, j: JobId)
    requires j !in db.jobs && j in Commit(db, request).jobs
    ensures ReservedInFull(Commit(db, request), j)
  {
  }

  lemma {:induction false} NewJobsAreReserved(origin: Db, history: seq<Request>, j: JobId)
    requires j in CommitAll(origin, history).jobs && j !in origin.jobs
    ensures ReservedInFull(CommitAll(origin, history), j)
  {
    var last := |history| - 1;
    var before := CommitAll(origin, history[..last]);
    if j in before.jobs {
      NewJobsAreReserved(origin, history[..last], j);
      CommitKeepsReserved(before, history[last], j);
    } else {
      CommitReservesNew(before, history[last], j);
    }
  }

  // ----- What was charged, and the limits in force -----

  ghost predicate SettledBy(history: seq<Request>, i: nat, j: JobId, units: int) {
    i < |history| && history[i].Settle? && history[i].job == j && Costs(history[i].amount, units)
  }

  predicate IsSettled(db: Db, j: JobId) {
    j in db.reservations && db.reservations[j].state == Settled
  }

  lemma CommitSettles(db: Db, request: Request, j: JobId)
    requires IsSettled(Commit(db, request), j)
    ensures
      || (IsSettled(db, j) && Commit(db, request).reservations[j] == db.reservations[j])
      || (request.Settle? && request.job == j
          && Costs(request.amount, Commit(db, request).reservations[j].settledAmount))
  {
    if request.Settle? && Execute(db, request).Ok? {
      CostIsNearest(request.amount, Cost(request.amount).value);
    }
  }

  lemma {:induction false} SettledAsAsked(origin: Db, history: seq<Request>, j: JobId) returns (i: nat)
    requires IsSettled(CommitAll(origin, history), j) && !IsSettled(origin, j)
    ensures SettledBy(history, i, j, CommitAll(origin, history).reservations[j].settledAmount)
  {
    var last := |history| - 1;
    var before := CommitAll(origin, history[..last]);
    CommitSettles(before, history[last], j);
    if IsSettled(before, j) && CommitAll(origin, history).reservations[j] == before.reservations[j] {
      i := SettledAsAsked(origin, history[..last], j);
    } else {
      i := last;
    }
  }

  /** In every interleaving, what a settled reservation was charged is the amount some committed settlement of
      its job asked for, to the nearest micro-unit. */
  lemma EverySettlementIsAsAsked(origin: Db, events: seq<Event>, j: JobId)
    requires IsSettled(Runs(Start(origin), events).db, j) && !IsSettled(origin, j)
    ensures var s := Runs(Start(origin), events);
      exists i: nat :: SettledBy(s.history, i, j, s.db.reservations[j].settledAmount)
  {
    InterleavingsAreSerial(origin, events);
    var i := SettledAsAsked(origin, Runs(Start(origin), events).history, j);
  }

  predicate Overrides(request: Request, workspace: WorkspaceId) {
    request.Override? && request.workspace == workspace
  }

  ghost predicate LastOverride(history: seq<Request>, workspace: WorkspaceId, i: nat) {
    && i < |history| && Overrides(history[i], workspace)
    && forall k | i < k < |history| :: !Overrides(history[k], workspace)
  }

  /** The limit is the one of the last override of the workspace, or the first one when there is none. */
  ghost predicate LimitInForce(history: seq<Request>, workspace: WorkspaceId, first: int, limit: int) {
    || (limit == first && forall k | 0 <= k < |history| :: !Overrides(history[k], workspace))
    || exists i: nat :: LastOverride(history, workspace, i) && Costs(history[i].newLimit, limit)
  }

  lemma LimitMoves(db: Db, request: Request, workspace: WorkspaceId, b: BudgetId)
    requires HasBudget(db, workspace, b) && db.budgets[b].workspace == workspace && BudgetsIndexed(db)
    requires Execute(db, request).Ok?
    ensures var after := Commit(db, request);
      && HasBudget(after, workspace, b) && after.budgets[b].workspace == workspace
      && if Overrides(request, workspace) then Costs(request.newLimit, after.budgets[b].hardLimit)
         else after.budgets[b].hardLimit == db.budgets[b].hardLimit
  {
    CallsTakeEffect(db, request);
  }

  lemma LimitOfMore(history: seq<Request>, workspace: WorkspaceId, first: int, before: int, after: int)
    requires history != [] && LimitInForce(history[..|history| - 1], workspace, first, before)
    requires var request := history[|history| - 1];
      if Overrides(request, workspace) then Costs(request.newLimit, after) else after == before
    ensures LimitInForce(history, workspace, first, after)
  {
    var last := |history| - 1;
    if Overrides(history[last], workspace) {
      assert LastOverride(history, workspace, last);
    } else if i: nat :| LastOverride(history[..last], workspace, i) && Costs(history[i].newLimit, before) {
      assert LastOverride(history, workspace, i);
    }
  }

  lemma {:induction false} LimitsAsAsked(origin: Db, history: seq<Request>, workspace: WorkspaceId, b: BudgetId)
    requires Genesis(origin) && HasBudget(origin, workspace, b)
    requires forall i | 0 <= i < |history| :: Execute(CommitAll(origin, history[..i]), history[i]).Ok?
    ensures var db := CommitAll(origin, history);
      && HasBudget(db, workspace, b) && db.budgets[b].workspace == workspace
      && LimitInForce(history, workspace, origin.budgets[b].hardLimit, db.budgets[b].hardLimit)
  {
    if history != [] {
      var last := |history| - 1;
      var front := history[..last];
      assert forall i | 0 <= i < last :: front[..i] == history[..i];
      LimitsAsAsked(origin, front, workspace, b);
      SerialRunsAreSound(origin, front);
      var before := CommitAll(origin, front);
      LimitMoves(before, history[last], workspace, b);
      LimitOfMore(
        history, workspace, origin.budgets[b].hardLimit, before.budgets[b].hardLimit,
        CommitAll(origin, history).budgets[b].hardLimit);
    }
  }

  /** In every interleaving the limit of a workspace's budget is what its last committed override asked for, to
      the nearest micro-unit, or the one it began with. */
  lemma EveryLimitIsAsAsked(origin: Db, events: seq<Event>, workspace: WorkspaceId, b: BudgetId)
    requires Genesis(origin) && HasBudget(origin, workspace, b)
    ensures var s := Runs(Start(origin), events);
      && HasBudget(s.db, workspace, b)
      && LimitInForce(s.history, workspace, origin.budgets[b].hardLimit, s.db.budgets[b].hardLimit)
  {
    var s := Runs(Start(origin), events);
    InterleavingsAreSerial(origin, events);
    forall i | 0 <= i < |s.history| ensures Execute(CommitAll(origin, s.history[..i]), s.history[i]).Ok? {
      HistoryExecutes(origin, events, i);
    }
    LimitsAsAsked(origin, s.history, workspace, b);
  }
}
