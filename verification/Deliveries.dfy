/** Job creation, publication and at-least-once delivery, over runs of `create`, `process_job` and
    `override_limit` (src/application/jobs.py, src/workers/broker.py). */
module Deliveries {
  import opened Outcomes
  import opened Accounts
  import opened Bookkeeping
  import opened Interleaving
  import opened Progress
  import opened Serializability
  import Text

  /** The calls the deployed server and worker make. */
  predicate Deployed(request: Request) {
    request.Create? || request.Process? || request.Override?
  }

  predicate AboutJob(event: AuditEvent, job: JobId) {
    match event
    case BudgetOverridden(_, _, _) => false
    case JobCreated(_, j) => j == job
    case JobFailed(_, j, _) => j == job
  }

  function EventsOf(audit: seq<AuditEvent>, job: JobId): seq<AuditEvent> {
    if audit == [] then []
    else
      var before := EventsOf(audit[..|audit| - 1], job);
      if AboutJob(audit[|audit| - 1], job) then before + [audit[|audit| - 1]] else before
  }

  lemma EventsOfAppend(audit: seq<AuditEvent>, event: AuditEvent, job: JobId)
    ensures EventsOf(audit + [event], job) == EventsOf(audit, job) + if AboutJob(event, job) then [event] else []
  {
    assert (audit + [event])[..|audit|] == audit;
  }

  /** A job is queued with its reservation active, or failed with its reservation released; the audit
      log tells the same story. */
  ghost predicate OnCourse(db: Db, j: JobId) {
    if j !in db.jobs then j !in db.reservations && EventsOf(db.audit, j) == []
    else
      var job := db.jobs[j];
      && j in db.reservations
      && db.reservations[j].amount == job.cost
      && db.reservations[j].workspace == job.workspace
      && if db.reservations[j].state.Active? then
           && job.state == Queued && job.errorCode == None
           && EventsOf(db.audit, j) == [JobCreated(job.workspace, j)]
         else
           && db.reservations[j].state.Released?
           && job.state == Failed && job.errorCode == Some(FailureReason(job))
           && EventsOf(db.audit, j)
              == [JobCreated(job.workspace, j), JobFailed(job.workspace, j, FailureReason(job))]
  }

  ghost predicate Coupled(db: Db) {
    forall j: JobId :: OnCourse(db, j)
  }

  ghost predicate Unused(db: Db) {
    Genesis(db) && db.jobs == map[] && db.audit == []
  }

  lemma CreationKeepsCourse(db: Db, id: JobId, job: Job, b: BudgetId, j: JobId)
    requires OnCourse(db, j) && OnCourse(db, id) && id !in db.jobs && b in db.budgets
    requires job.state == Queued && job.errorCode == None
    ensures OnCourse(WriteCreation(db, id, job, b, db.budgets[b]), j)
  {
    EventsOfAppend(db.audit, JobCreated(job.workspace, id), j);
  }

  lemma FailureKeepsCourse(db: Db, id: JobId, j: JobId)
    requires OnCourse(db, j) && OnCourse(db, id) && id in db.jobs && db.jobs[id].state == Queued
    requires db.reservations[id].budgetId in db.budgets
    ensures OnCourse(
      WriteFailure(db, id, db.jobs[id], db.reservations[id], db.budgets[db.reservations[id].budgetId]), j)
  {
    EventsOfAppend(db.audit, JobFailed(db.jobs[id].workspace, id, FailureReason(db.jobs[id])), j);
  }

  lemma CommitKeepsCourse(db: Db, request: Request, j: JobId)
    requires Coupled(db) && Deployed(request)
    ensures OnCourse(Commit(db, request), j)
  {
    assert OnCourse(db, j);
    var next := Commit(db, request);
    if next != db {
      match request
      case Create(workspace, id, amount, key, _) =>
        assert OnCourse(db, id);
        CreationKeepsCourse(db, id, NewJob(workspace, Cost(amount).value, key), FindBudget(db, workspace).value, j);
      case Process(id) =>
        assert OnCourse(db, id);
        FailureKeepsCourse(db, id, j);
      case Override(workspace, limit, _) =>
        var b := FindBudget(db, workspace).value;
        EventsOfAppend(db.audit, BudgetOverridden(b, db.budgets[b].hardLimit, Cost(limit).value), j);
    }
  }

  /** A job is queued exactly while its reservation is active, in every state such runs reach. */
  lemma {:induction false} DeployedRunsAreCoupled(origin: Db, requests: seq<Request>)
    requires Unused(origin) && forall r | r in requests :: Deployed(r)
    ensures Coupled(CommitAll(origin, requests))
  {
    if requests != [] {
      var before := CommitAll(origin, requests[..|requests| - 1]);
      DeployedRunsAreCoupled(origin, requests[..|requests| - 1]);
      forall j: JobId ensures OnCourse(CommitAll(origin, requests), j) {
        CommitKeepsCourse(before, requests[|requests| - 1], j);
      }
    }
  }

  // ----- A delivery takes effect once -----

  ghost predicate Delivered(db: Db, j: JobId) {
    j in db.jobs && db.jobs[j].state == Failed
  }

  lemma DeliveryFails(db: Db, limits: map<BudgetId, int>, j: JobId)
    requires Sound(db, limits) && Coupled(db) && j in db.jobs
    ensures Delivered(Commit(db, Process(j)), j)
  {
    assert OnCourse(db, j);
  }

  lemma FailedStaysFailed(db: Db, request: Request, j: JobId)
    requires Coupled(db) && Deployed(request) && Delivered(db, j)
    ensures Delivered(Commit(db, request), j)
  {
    assert OnCourse(db, j);
  }

  lemma {:induction false} DeliveredStaysDelivered(origin: Db, requests: seq<Request>, i: nat, j: JobId)
    requires Unused(origin) && forall r | r in requests :: Deployed(r)
    requires i < |requests| && requests[i] == Process(j) && j in CommitAll(origin, requests[..i]).jobs
    ensures Delivered(CommitAll(origin, requests), j)
  {
    var last := |requests| - 1;
    var before := CommitAll(origin, requests[..last]);
    DeployedRunsAreCoupled(origin, requests[..last]);
    if i == last {
      SerialRunsAreSound(origin, requests[..last]);
      DeliveryFails(before, LimitsOf(origin), j);
    } else {
      assert requests[..last][..i] == requests[..i];
      DeliveredStaysDelivered(origin, requests[..last], i, j);
      FailedStaysFailed(before, requests[last], j);
    }
  }

  /** What a delivered job looks like, however often it is delivered again: failed, one reservation
      entry, one release entry of the same amount, one `job.created` and one `job.failed` event. */
  ghost predicate SettledOnce(db: Db, j: JobId) {
    && j in db.jobs && j in db.reservations
    && db.jobs[j].state == Failed
    && db.jobs[j].errorCode == Some(FailureReason(db.jobs[j]))
    && LedgerOf(db.ledger, j)
       == [LedgerEntry(db.jobs[j].workspace, Some(j), ReservationEntry, db.jobs[j].cost),
           LedgerEntry(db.jobs[j].workspace, Some(j), ReleaseEntry, db.jobs[j].cost)]
    && EventsOf(db.audit, j)
       == [JobCreated(db.jobs[j].workspace, j),
           JobFailed(db.jobs[j].workspace, j, FailureReason(db.jobs[j]))]
  }

  lemma DeliveryTakesEffectOnce(origin: Db, requests: seq<Request>, i: nat, j: JobId)
    requires Unused(origin) && forall r | r in requests :: Deployed(r)
    requires i < |requests| && requests[i] == Process(j) && j in CommitAll(origin, requests[..i]).jobs
    ensures SettledOnce(CommitAll(origin, requests), j)
  {
    var db := CommitAll(origin, requests);
    DeliveredStaysDelivered(origin, requests, i, j);
    DeployedRunsAreCoupled(origin, requests);
    SerialRunsAreSound(origin, requests);
    assert OnCourse(db, j) && ItemizedJob(db, j);
  }

  // ----- What `JobService.transition` does to the coupling -----

  /** The coupling breaks exactly when a queued job is moved to a state it may move to: a transition that
      succeeds never moves the budget. */
  lemma TransitionUncouples(db: Db, id: JobId, target: JobState, code: Option<string>)
    requires Coupled(db)
    ensures Coupled(Commit(db, Transition(id, target, code)))
       <==> !(id in db.jobs && db.jobs[id].state == Queued && (target == Validating || target == Cancelled))
  {
    var next := Commit(db, Transition(id, target, code));
    assert OnCourse(db, id);
    if Execute(db, Transition(id, target, code)).Ok? {
      assert next.jobs[id].state == target && next.reservations == db.reservations;
      assert !OnCourse(next, id);
    }
  }

  ghost predicate HeldByCancelled(db: Db, id: JobId) {
    && id in db.jobs && db.jobs[id].state == Cancelled
    && id in db.reservations && db.reservations[id].state == Active
  }

  lemma StaysHeld(db: Db, request: Request, id: JobId)
    requires HeldByCancelled(db, id) && Deployed(request)
    ensures HeldByCancelled(Commit(db, request), id)
  {
  }

  /** A queued job cancelled that way keeps its money held through every later create, delivery and
      override. */
  lemma {:induction false} CancelledJobHoldsItsMoney(
    origin: Db, first: seq<Request>, id: JobId, code: Option<string>, more: seq<Request>)
    requires Unused(origin) && (forall r | r in first :: Deployed(r)) && (forall r | r in more :: Deployed(r))
    requires id in CommitAll(origin, first).jobs && CommitAll(origin, first).jobs[id].state == Queued
    ensures HeldByCancelled(CommitAll(CommitAll(origin, first + [Transition(id, Cancelled, code)]), more), id)
  {
    if more == [] {
      CommitAllOfAppend(origin, first, Transition(id, Cancelled, code));
      DeployedRunsAreCoupled(origin, first);
      assert OnCourse(CommitAll(origin, first), id);
    } else {
      CancelledJobHoldsItsMoney(origin, first, id, code, more[..|more| - 1]);
      StaysHeld(CommitAll(CommitAll(origin, first + [Transition(id, Cancelled, code)]), more[..|more| - 1]),
                more[|more| - 1], id);
    }
  }

  // ----- The same, for every interleaving -----

  ghost predicate OnlyDeployed(events: seq<Event>) {
    forall e | e in events && e.Begin? :: Deployed(e.request)
  }

  lemma {:induction false} HistoryIsDeployed(origin: Db, events: seq<Event>)
    requires OnlyDeployed(events)
    ensures var s := Runs(Start(origin), events);
      && (forall id | id in s.live :: Deployed(s.live[id].request))
      && (forall r | r in s.history :: Deployed(r))
  {
    if events != [] {
      var e := events[|events| - 1];
      HistoryIsDeployed(origin, events[..|events| - 1]);
      assert e in events;
      var s := Runs(Start(origin), events[..|events| - 1]);
      if e.Advance? && e.id in s.live && NextMove(s.db, s.live[e.id]).Wait? {
        assert Take(s.db, s.live[e.id], NextMove(s.db, s.live[e.id]).lock).request == s.live[e.id].request;
      }
    }
  }

  /** Under any duplication and interleaving of deliveries, a job is queued if and only if its
      reservation is active, its reservation is of its estimated cost, and a committed delivery of it
      has taken effect exactly once. */
  lemma EveryInterleavingDeliversOnce(origin: Db, events: seq<Event>, j: JobId)
    requires Unused(origin) && OnlyDeployed(events)
    ensures var s := Runs(Start(origin), events);
      && OnCourse(s.db, j)
      && forall i | 0 <= i < |s.history| && s.history[i] == Process(j) && j in CommitAll(origin, s.history[..i]).jobs ::
           SettledOnce(s.db, j)
  {
    var s := Runs(Start(origin), events);
    HistoryIsDeployed(origin, events);
    InterleavingsAreSerial(origin, events);
    DeployedRunsAreCoupled(origin, s.history);
    forall i | 0 <= i < |s.history| && s.history[i] == Process(j) && j in CommitAll(origin, s.history[..i]).jobs
      ensures SettledOnce(s.db, j)
    {
      DeliveryTakesEffectOnce(origin, s.history, i, j);
    }
  }

  // ----- Idempotent creation -----

  /** In every interleaving of any calls, a workspace and key name at most one job. */
  lemma OneJobPerKey(origin: Db, events: seq<Event>, i: JobId, j: JobId)
    requires Genesis(origin)
    requires var jobs := Runs(Start(origin), events).db.jobs;
      i in jobs && j in jobs && jobs[i].workspace == jobs[j].workspace && jobs[i].key == jobs[j].key
    ensures i == j
  {
    EveryInterleavingIsSound(origin, events);
  }

  ghost predicate EachReserved(db: Db) {
    forall j | j in db.jobs :: j in db.reservations && db.reservations[j].amount == db.jobs[j].cost
  }

  lemma CreationReserves(db: Db, id: JobId, job: Job, b: BudgetId)
    requires EachReserved(db) && b in db.budgets
    ensures EachReserved(WriteCreation(db, id, job, b, db.budgets[b]))
  {
  }

  lemma FailureReserves(db: Db, id: JobId)
    requires EachReserved(db) && id in db.jobs && id in db.reservations
    requires db.reservations[id].budgetId in db.budgets
    ensures EachReserved(
      WriteFailure(db, id, db.jobs[id], db.reservations[id], db.budgets[db.reservations[id].budgetId]))
  {
  }

  lemma CommitReserves(db: Db, request: Request)
    requires EachReserved(db)
    ensures EachReserved(Commit(db, request))
  {
    if Commit(db, request) != db {
      match request
      case Create(workspace, id, amount, key, _) =>
        CreationReserves(db, id, NewJob(workspace, Cost(amount).value, key), FindBudget(db, workspace).value);
      case Process(id) => FailureReserves(db, id);
      case _ =>
    }
  }

  lemma {:induction false} RunsReserve(origin: Db, requests: seq<Request>)
    requires EachReserved(origin)
    ensures EachReserved(CommitAll(origin, requests))
  {
    if requests != [] {
      RunsReserve(origin, requests[..|requests| - 1]);
      CommitReserves(CommitAll(origin, requests[..|requests| - 1]), requests[|requests| - 1]);
    }
  }

  /** In every interleaving of any calls, each committed job has its one reservation, of its estimated
      cost. */
  lemma EachJobIsReserved(origin: Db, events: seq<Event>, j: JobId)
    requires Unused(origin) && j in Runs(Start(origin), events).db.jobs
    ensures var db := Runs(Start(origin), events).db;
      j in db.reservations && db.reservations[j].amount == db.jobs[j].cost
  {
    InterleavingsAreSerial(origin, events);
    RunsReserve(origin, Runs(Start(origin), events).history);
  }

  ghost predicate Extends(before: Db, after: Db) {
    && before.jobs.Keys <= after.jobs.Keys
    && before.jobByKey.Keys <= after.jobByKey.Keys
    && forall k | k in before.jobByKey :: after.jobByKey[k] == before.jobByKey[k]
  }

  lemma CreationExtends(db: Db, id: JobId, job: Job, b: BudgetId)
    requires b in db.budgets && (job.workspace, job.key) !in db.jobByKey
    ensures Extends(db, WriteCreation(db, id, job, b, db.budgets[b]))
  {
  }

  lemma JobWriteExtends(db: Db, next: Db, id: JobId)
    requires next.jobByKey == db.jobByKey
    requires next.jobs == db.jobs || (id in next.jobs && next.jobs == db.jobs[id := next.jobs[id]])
    ensures Extends(db, next)
  {
  }

  lemma CommitExtends(db: Db, request: Request)
    ensures Extends(db, Commit(db, request))
  {
    var next := Commit(db, request);
    if next != db {
      match request
      case Create(workspace, id, amount, key, _) =>
        CreationExtends(db, id, NewJob(workspace, Cost(amount).value, key), FindBudget(db, workspace).value);
      case Override(_, _, _) => JobWriteExtends(db, next, 0);
      case _ => JobWriteExtends(db, next, request.job);
    }
  }

  lemma {:induction false} RunsExtend(origin: Db, done: seq<Request>, more: seq<Request>)
    ensures Extends(CommitAll(origin, done), CommitAll(origin, done + more))
  {
    if more == [] {
      assert done + more == done;
    } else {
      var front, last := more[..|more| - 1], more[|more| - 1];
      RunsExtend(origin, done, front);
      CommitExtends(CommitAll(origin, done + front), last);
      CommitAllOfAppend(origin, done + front, last);
      assert done + more == done + front + [last];
    }
  }

  /** A create that has answered a key keeps answering it with the same job, whatever happens next:
      replaying it writes nothing. */
  lemma ReplayedCreateAnswersTheSame(origin: Db, first: seq<Request>, more: seq<Request>, replay: Request)
    requires replay.Create? && Execute(CommitAll(origin, first), replay).Ok?
    ensures var k := (replay.workspace, Text.Strip(replay.key));
      var answered := CommitAll(origin, first + [replay]);
      var later := CommitAll(origin, first + [replay] + more);
      && k in answered.jobByKey && k in later.jobByKey
      && later.jobByKey[k] == answered.jobByKey[k]
      && Execute(later, replay) == Ok(later)
  {
    CommitAllOfAppend(origin, first, replay);
    RunsExtend(origin, first + [replay], more);
  }

  // ----- Publication -----

  /** `announced` holds each job of `jobs` that is not in `old` once, and nothing else. */
  ghost predicate OnceEach(announced: seq<JobId>, jobs: set<JobId>, prior: set<JobId>) {
    forall j: JobId :: multiset(announced)[j] == if j in jobs && j !in prior then 1 else 0
  }

  /** Every job created since the start has been announced exactly once, and no other. */
  ghost predicate AnnouncedOnce(s: System, origin: Db) {
    && origin.jobs.Keys <= s.db.jobs.Keys
    && OnceEach(s.published + s.outbox, s.db.jobs.Keys, origin.jobs.Keys)
  }

  lemma OnceEachOfNew(announced: seq<JobId>, jobs: set<JobId>, prior: set<JobId>, id: JobId)
    requires OnceEach(announced, jobs, prior) && id !in jobs && prior <= jobs
    ensures OnceEach(announced + [id], jobs + {id}, prior)
  {
    forall j: JobId
      ensures multiset(announced + [id])[j] == if j in jobs + {id} && j !in prior then 1 else 0
    {
      assert multiset(announced + [id]) == multiset(announced) + multiset{id};
    }
  }

  /** Only a create adds a job, and its id was unused. */
  lemma FinishAddsItsJob(db: Db, t: Txn)
    requires Holds(db, t) && NextMove(db, t).Finish?
    ensures t.request.Create? ==>
      t.request.job !in db.jobs && Written(db, t).jobs.Keys == db.jobs.Keys + {t.request.job}
    ensures !t.request.Create? ==> Written(db, t).jobs.Keys == db.jobs.Keys
  {
  }

  lemma FinishAnnounces(s: System, id: TxnId, origin: Db)
    requires Isolated(s) && AnnouncedOnce(s, origin) && id in s.live && NextMove(s.db, s.live[id]).Finish?
    ensures AnnouncedOnce(AdvanceTxn(s, id), origin)
  {
    var t, next := s.live[id], AdvanceTxn(s, id);
    FinishAddsItsJob(s.db, t);
    assert next.published + next.outbox == s.published + s.outbox + Announced(t.request);
    if t.request.Create? {
      OnceEachOfNew(s.published + s.outbox, s.db.jobs.Keys, origin.jobs.Keys, t.request.job);
    } else {
      assert next.published + next.outbox == s.published + s.outbox;
    }
  }

  lemma StepAnnounces(s: System, e: Event, origin: Db)
    requires Isolated(s) && AnnouncedOnce(s, origin)
    ensures AnnouncedOnce(Step(s, e), origin)
  {
    if e.Advance? && e.id in s.live && NextMove(s.db, s.live[e.id]).Finish? {
      FinishAnnounces(s, e.id, origin);
    } else {
      OthersAnnounceNothing(s, e);
    }
  }

  lemma OthersAnnounceNothing(s: System, e: Event)
    requires e.Advance? && e.id in s.live ==> !NextMove(s.db, s.live[e.id]).Finish?
    ensures Step(s, e).db == s.db
    ensures Step(s, e).published + Step(s, e).outbox == s.published + s.outbox
  {
    if e.Publish? && s.outbox != [] {
      assert s.outbox == [s.outbox[0]] + s.outbox[1..];
    }
  }

  /** With a working publisher each committed job id is published exactly once: it waits in the
      outbox or has been handed over, and a create that aborts announces nothing. */
  lemma {:induction false} EachJobIsPublishedOnce(origin: Db, events: seq<Event>)
    ensures AnnouncedOnce(Runs(Start(origin), events), origin)
  {
    if events != [] {
      var before := events[..|events| - 1];
      EachJobIsPublishedOnce(origin, before);
      InterleavingsAreSerial(origin, before);
      StepAnnounces(Runs(Start(origin), before), events[|events| - 1], origin);
    }
  }

  function Publishing(n: nat): seq<Event> {
    if n == 0 then [] else Publishing(n - 1) + [Publish]
  }

  lemma PublishOne(s: System, n: nat)
    requires n < |s.outbox|
    ensures Step(s.(outbox := s.outbox[n..], published := s.published + s.outbox[..n]), Publish)
         == s.(outbox := s.outbox[n + 1..], published := s.published + s.outbox[..n + 1])
  {
    assert s.outbox[n..][1..] == s.outbox[n + 1..];
    assert s.outbox[..n + 1] == s.outbox[..n] + [s.outbox[n]];
    assert s.published + s.outbox[..n + 1] == s.published + s.outbox[..n] + [s.outbox[n]];
  }

  lemma {:induction false} PublishingMoves(s: System, n: nat)
    requires n <= |s.outbox|
    ensures Runs(s, Publishing(n)) == s.(outbox := s.outbox[n..], published := s.published + s.outbox[..n])
  {
    if n == 0 {
      assert s.outbox[..0] == [] && s.published + [] == s.published;
    } else {
      PublishingMoves(s, n - 1);
      RunsOfAppend(s, Publishing(n - 1), Publish);
      PublishOne(s, n - 1);
    }
  }

  /** Once the outbox has been handed over, the queue itself has received each new job once and no other. */
  lemma HandedOverOnce(origin: Db, events: seq<Event>)
    ensures var s := Runs(Start(origin), events);
      var after := Runs(s, Publishing(|s.outbox|));
      && after == s.(outbox := [], published := after.published)
      && OnceEach(after.published, s.db.jobs.Keys, origin.jobs.Keys)
  {
    var s := Runs(Start(origin), events);
    EachJobIsPublishedOnce(origin, events);
    PublishingMoves(s, |s.outbox|);
    assert s.outbox[..|s.outbox|] == s.outbox;
  }

  // ----- Progress -----

  /** Interleavings of deployed calls never deadlock, and the live ones can all be finished by steps
      alone: none of them settles or releases a job outside its delivery. */
  lemma DeployedCallsFinish(origin: Db, events: seq<Event>) returns (rest: seq<Event>)
    requires OnlyDeployed(events)
    ensures var s := Runs(Start(origin), events);
      && !AnyDeadlock(s)
      && (s.live == map[] || exists id :: id in s.live && !Blocked(s, id))
      && Runs(s, rest).live == map[] && |rest| <= 8 * |s.live|
      && forall e | e in rest :: e.Advance?
  {
    HistoryIsDeployed(origin, events);
    var s := Runs(Start(origin), events);
    forall a | a in s.live ensures !s.live[a].request.Settle? && !s.live[a].request.Release? {
      assert Deployed(s.live[a].request);
    }
    WithoutSharedJobs(s);
    DeadlocksAreCrossings(origin, events);
    NoDeadlock(origin, events);
    rest := AlwaysCanFinish(origin, events);
  }
}
