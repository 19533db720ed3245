/** Every interleaving of lock-level steps is equivalent to running the committed requests one after
    the other in commit order. */
module Serializability {
  import opened Outcomes
  import opened Accounts
  import opened Bookkeeping
  import opened Interleaving
  import Text

  // ----- What a live transaction knows -----

  ghost predicate CopiesJob(db: Db, t: Txn, id: JobId) {
    t.job.Some? ==> id in db.jobs && t.job.value == db.jobs[id] && JobLock(id) in t.held
  }

  ghost predicate CopiesRow(db: Db, t: Txn, id: JobId) {
    t.row.Some? ==> id in db.reservations && t.row.value == db.reservations[id] && RowLock(id) in t.held
  }

  ghost predicate CopiesBudget(db: Db, t: Txn) {
    t.budget.Some? ==>
      var (b, copy) := t.budget.value;
      b in db.budgets && copy == db.budgets[b] && BudgetLock(b) in t.held
  }

  /** The copies agree with the committed rows, and each lock ranks above those taken before it. */
  ghost predicate Holds(db: Db, t: Txn) {
    && CopiesBudget(db, t)
    && (!t.looked ==> t.held == {} && !t.doomed && t.job.None? && t.row.None? && t.budget.None?)
    && match t.request
       case Reserve(workspace, job, amount) =>
         && t.job.None? && t.row.None?
         && (t.looked ==> Cost(amount).Ok?)
         && (t.budget.None? ==> t.held == {})
         && (t.budget.Some? ==>
               && FindBudget(db, workspace) == Some(t.budget.value.0)
               && t.held <= {BudgetLock(t.budget.value.0), UniqueLock(job), ShareLock(job)})
         && (UniqueLock(job) in t.held && !t.doomed ==> CanInsertReservation(db, job))
         && (UniqueLock(job) !in t.held ==> ShareLock(job) !in t.held)
       case Settle(job, amount) =>
         && t.job.None? && !t.doomed && (t.looked ==> Cost(amount).Ok?)
         && HoldsReservation(db, t, job, {}, {ShareLock(job)})
       case Release(job) =>
         && t.job.None? && !t.doomed
         && HoldsReservation(db, t, job, {}, {ShareLock(job)})
       case Override(workspace, limit, reason) =>
         && t.job.None? && t.row.None? && !t.doomed
         && (t.looked ==> Text.Strip(reason) != "" && Cost(limit).Ok?)
         && (t.budget.None? ==> t.held == {})
         && (t.budget.Some? ==>
               FindBudget(db, workspace) == Some(t.budget.value.0) && t.held == {BudgetLock(t.budget.value.0)})
       case Create(workspace, job, amount, key, carriesPayload) =>
         var claim := KeyLock(workspace, Text.Strip(key));
         && t.job.None? && t.row.None?
         && (t.looked ==> ValidKey(Text.Strip(key)) && !carriesPayload && Cost(amount).Ok?)
         && (claim !in t.held ==> t.held == {})
         && (JobLock(job) !in t.held ==> t.held <= {claim})
         && (t.budget.None? ==> t.held <= {claim, JobLock(job)})
         && (t.budget.Some? ==>
               && FindBudget(db, workspace) == Some(t.budget.value.0)
               && t.held <= {claim, JobLock(job), BudgetLock(t.budget.value.0), UniqueLock(job)})
         && (claim in t.held && !t.doomed ==> (workspace, Text.Strip(key)) !in db.jobByKey)
         && (JobLock(job) in t.held && !t.doomed ==> job !in db.jobs)
         && (UniqueLock(job) in t.held && !t.doomed ==> job !in db.reservations)
       case Process(job) =>
         && !t.doomed && (t.looked ==> job in db.jobs)
         && CopiesJob(db, t, job) && (t.job.None? ==> t.held == {} && t.row.None?)
         && HoldsReservation(db, t, job, {JobLock(job)}, {})
       case Transition(job, _, _) =>
         && !t.doomed && t.row.None? && t.budget.None?
         && CopiesJob(db, t, job) && t.held <= {JobLock(job)} && (t.job.None? ==> t.held == {})
  }

  /** `before` and `last` are the locks on the job row, when the transaction takes one first or last. */
  ghost predicate HoldsReservation(db: Db, t: Txn, job: JobId, before: set<Lock>, last: set<Lock>) {
    && CopiesRow(db, t, job)
    && (t.row.None? ==> t.held <= before && t.budget.None?)
    && (t.row.Some? && t.budget.None? ==> t.held <= before + {RowLock(job)})
    && (t.budget.Some? ==>
          && t.row.Some? && t.row.value.budgetId == t.budget.value.0
          && t.held <= before + {RowLock(job), BudgetLock(t.budget.value.0)} + last)
  }

  // ----- What one commit can change -----

  /** `next` differs from `db` only in rows that `held` locks, and never drops a row. */
  ghost predicate OnlyTouches(db: Db, next: Db, held: set<Lock>) {
    && next.budgetOf == db.budgetOf && next.budgets.Keys == db.budgets.Keys
    && (forall b | b in db.budgets && BudgetLock(b) !in held :: next.budgets[b] == db.budgets[b])
    && db.jobs.Keys <= next.jobs.Keys
    && (forall j | j in next.jobs && JobLock(j) !in held :: j in db.jobs && next.jobs[j] == db.jobs[j])
    && db.reservations.Keys <= next.reservations.Keys
    && (forall j | j in next.reservations && j !in db.reservations :: UniqueLock(j) in held)
    && (forall j | j in db.reservations && RowLock(j) !in held :: next.reservations[j] == db.reservations[j])
    && (forall k | k in next.jobByKey && k !in db.jobByKey :: KeyLock(k.0, k.1) in held)
  }

  /** No lock of one transaction is excluded by the other's. */
  ghost predicate Apart(held: set<Lock>, others: set<Lock>) {
    forall lock | lock in held :: !Excludes(others, lock)
  }

  lemma OthersStillHold(db: Db, next: Db, held: set<Lock>, t: Txn)
    requires Holds(db, t) && OnlyTouches(db, next, held) && Apart(t.held, held)
    ensures Holds(next, t)
  {
  }

  /** A finishing transaction does what it would do alone on the committed state it meets. */
  lemma FinishIsSerial(db: Db, t: Txn)
    requires Holds(db, t) && NextMove(db, t).Finish?
    ensures Execute(db, t.request) == Ok(Written(db, t))
  {
  }

  lemma MoneyTouchesLocked(db: Db, next: Db, b: BudgetId, job: JobId, held: set<Lock>)
    requires b in db.budgets && BudgetLock(b) in held
    requires if job in db.reservations then RowLock(job) in held else UniqueLock(job) in held
    requires b in next.budgets && next.budgets == db.budgets[b := next.budgets[b]]
    requires job in next.reservations && next.reservations == db.reservations[job := next.reservations[job]]
    requires next.budgetOf == db.budgetOf && next.jobs == db.jobs && next.jobByKey == db.jobByKey
    ensures OnlyTouches(db, next, held)
  {
  }

  lemma JobTouchesLocked(db: Db, middle: Db, next: Db, id: JobId, job: Job, held: set<Lock>)
    requires OnlyTouches(db, middle, held) && JobLock(id) in held
    requires next.jobs == middle.jobs[id := job]
    requires || next.jobByKey == middle.jobByKey
             || (KeyLock(job.workspace, job.key) in held
                 && next.jobByKey == middle.jobByKey[(job.workspace, job.key) := id])
    requires next.budgetOf == middle.budgetOf && next.budgets == middle.budgets
    requires next.reservations == middle.reservations
    ensures OnlyTouches(db, next, held)
  {
  }

  lemma CreateTouchesLocked(db: Db, t: Txn)
    requires t.request.Create? && Holds(db, t) && NextMove(db, t).Finish?
    ensures OnlyTouches(db, Written(db, t), t.held)
  {
    var next, id := Written(db, t), t.request.job;
    var middle := next.(jobs := db.jobs, jobByKey := db.jobByKey);
    MoneyTouchesLocked(db, middle, t.budget.value.0, id, t.held);
    JobTouchesLocked(db, middle, next, id, next.jobs[id], t.held);
  }

  lemma ProcessTouchesLocked(db: Db, t: Txn)
    requires t.request.Process? && Holds(db, t) && NextMove(db, t).Finish?
    ensures OnlyTouches(db, Written(db, t), t.held)
  {
    var next, id := Written(db, t), t.request.job;
    var middle := next.(jobs := db.jobs);
    MoneyTouchesLocked(db, middle, t.budget.value.0, id, t.held);
    JobTouchesLocked(db, middle, next, id, next.jobs[id], t.held);
  }

  lemma OverrideTouchesLocked(db: Db, t: Txn)
    requires t.request.Override? && Holds(db, t) && NextMove(db, t).Finish?
    ensures OnlyTouches(db, Written(db, t), t.held)
  {
  }

  lemma TransitionTouchesLocked(db: Db, t: Txn)
    requires t.request.Transition? && Holds(db, t) && NextMove(db, t).Finish?
    ensures OnlyTouches(db, Written(db, t), t.held)
  {
  }

  lemma BudgetCallTouchesLocked(db: Db, t: Txn)
    requires t.request.Reserve? || t.request.Settle? || t.request.Release?
    requires Holds(db, t) && NextMove(db, t).Finish?
    ensures OnlyTouches(db, Written(db, t), t.held)
  {
    MoneyTouchesLocked(db, Written(db, t), t.budget.value.0, t.request.job, t.held);
  }

  /** And it changes only rows it has locked. */
  lemma FinishTouchesLocked(db: Db, t: Txn)
    requires Holds(db, t) && NextMove(db, t).Finish?
    ensures OnlyTouches(db, Written(db, t), t.held)
  {
    match t.request
    case Create(_, _, _, _, _) => CreateTouchesLocked(db, t);
    case Process(_) => ProcessTouchesLocked(db, t);
    case Override(_, _, _) => OverrideTouchesLocked(db, t);
    case Transition(_, _, _) => TransitionTouchesLocked(db, t);
    case _ => BudgetCallTouchesLocked(db, t);
  }

  lemma ReturnIsSerial(db: Db, t: Txn)
    requires Holds(db, t) && NextMove(db, t).Return?
    ensures Execute(db, t.request) == Ok(db)
  {
  }

  lemma TakingHoldsCreate(db: Db, t: Txn, lock: Lock)
    requires t.request.Create? && Holds(db, t) && NextMove(db, t) == Wait(lock)
    ensures Holds(db, Take(db, t, lock))
  {
  }

  lemma TakingHoldsProcess(db: Db, t: Txn, lock: Lock)
    requires t.request.Process? && Holds(db, t) && NextMove(db, t) == Wait(lock)
    ensures Holds(db, Take(db, t, lock))
  {
  }

  lemma TakingHolds(db: Db, t: Txn, lock: Lock)
    requires Holds(db, t) && NextMove(db, t) == Wait(lock)
    ensures Holds(db, Take(db, t, lock))
  {
    match t.request
    case Create(_, _, _, _, _) => TakingHoldsCreate(db, t, lock);
    case Process(_) => TakingHoldsProcess(db, t, lock);
    case _ =>
  }

  lemma LookingHolds(db: Db, t: Txn)
    requires Holds(db, t) && NextMove(db, t).Look?
    ensures Holds(db, t.(looked := true))
  {
  }

  // ----- The system -----

  /** Two live transactions never hold conflicting locks, and each knows the rows it locked. */
  ghost predicate Isolated(s: System) {
    && (forall id | id in s.live :: Holds(s.db, s.live[id]))
    && (forall i, j | i in s.live && j in s.live && i != j :: Apart(s.live[i].held, s.live[j].held))
  }

  lemma ApartWithFree(held: set<Lock>, others: set<Lock>, lock: Lock)
    requires Apart(held, others) && Apart(others, held) && !Excludes(others, lock)
    ensures Apart(held + {lock}, others) && Apart(others, held + {lock})
  {
  }

  /** Taking a free lock, or leaving, disturbs no other transaction. */
  lemma TakeKeepsIsolated(s: System, id: TxnId, lock: Lock)
    requires Isolated(s) && id in s.live && NextMove(s.db, s.live[id]) == Wait(lock) && Free(s, lock)
    ensures Isolated(s.(live := s.live[id := Take(s.db, s.live[id], lock)]))
  {
    TakingHolds(s.db, s.live[id], lock);
    assert Take(s.db, s.live[id], lock).held == s.live[id].held + {lock};
    forall other | other in s.live && other != id
      ensures Apart(s.live[id].held + {lock}, s.live[other].held)
      ensures Apart(s.live[other].held, s.live[id].held + {lock})
    {
      ApartWithFree(s.live[id].held, s.live[other].held, lock);
    }
  }

  lemma FinishKeepsIsolated(s: System, id: TxnId, next: Db)
    requires Isolated(s) && id in s.live && OnlyTouches(s.db, next, s.live[id].held)
    ensures Isolated(s.(db := next, live := s.live - {id}))
  {
    forall other | other in s.live && other != id ensures Holds(next, s.live[other]) {
      OthersStillHold(s.db, next, s.live[id].held, s.live[other]);
    }
  }

  lemma CommitAllOfAppend(db: Db, history: seq<Request>, request: Request)
    ensures CommitAll(db, history + [request]) == Commit(CommitAll(db, history), request)
  {
    assert (history + [request])[..|history|] == history;
  }

  lemma AdvanceIsSerial(s: System, id: TxnId, origin: Db)
    requires Isolated(s) && s.db == CommitAll(origin, s.history) && id in s.live
    ensures Isolated(AdvanceTxn(s, id))
    ensures AdvanceTxn(s, id).db == CommitAll(origin, AdvanceTxn(s, id).history)
  {
    var t := s.live[id];
    match NextMove(s.db, t)
    case Look => LookingHolds(s.db, t);
    case Wait(lock) =>
      if Free(s, lock) {
        TakeKeepsIsolated(s, id, lock);
      }
    case Raise =>
    case Return =>
      ReturnIsSerial(s.db, t);
      CommitAllOfAppend(origin, s.history, t.request);
    case Finish =>
      FinishIsSerial(s.db, t);
      FinishTouchesLocked(s.db, t);
      FinishKeepsIsolated(s, id, Written(s.db, t));
      CommitAllOfAppend(origin, s.history, t.request);
  }

  lemma StepIsSerial(s: System, e: Event, origin: Db)
    requires Isolated(s) && s.db == CommitAll(origin, s.history)
    ensures Isolated(Step(s, e)) && Step(s, e).db == CommitAll(origin, Step(s, e).history)
  {
    if e.Advance? && e.id in s.live {
      AdvanceIsSerial(s, e.id, origin);
    }
  }

  /** The committed state of every interleaving is the serial run of its committed requests. */
  lemma {:induction false} InterleavingsAreSerial(origin: Db, events: seq<Event>)
    ensures var s := Runs(Start(origin), events);
      Isolated(s) && s.db == CommitAll(origin, s.history)
  {
    if events != [] {
      InterleavingsAreSerial(origin, events[..|events| - 1]);
      StepIsSerial(Runs(Start(origin), events[..|events| - 1]), events[|events| - 1], origin);
    }
  }

  /** In every interleaving of any service calls each committed budget is conserved and agrees with
      its ledger, and each job's entries are the ones its reservation row implies. */
  lemma EveryInterleavingIsSound(origin: Db, events: seq<Event>)
    requires Genesis(origin)
    ensures Sound(Runs(Start(origin), events).db, LimitsOf(origin))
  {
    InterleavingsAreSerial(origin, events);
    SerialRunsAreSound(origin, Runs(Start(origin), events).history);
  }
}
