/** When concurrent calls deadlock, and that all of them can be brought to an end. Locks are asked for in
    the order job, reservation, budget, except for the key-share lock on the job row that the ledger row
    of a settlement or release takes last. */
module Progress {
  import opened Outcomes
  import opened Accounts
  import opened Bookkeeping
  import opened Interleaving
  import opened Serializability

  /** A transaction waits for a lock that ranks above all it holds. */
  lemma WaitsUpward(db: Db, t: Txn, lock: Lock)
    requires Holds(db, t) && NextMove(db, t) == Wait(lock)
    ensures forall h | h in t.held :: Rank(h) < Rank(lock)
  {
  }

  // ----- The one way to deadlock -----

  predicate SettlesOrReleases(request: Request, j: JobId) {
    (request.Settle? || request.Release?) && request.job == j
  }

  /** A settlement or release of a job holds its reservation row and waits for its job row, which the
      worker holds while it waits for the reservation row. */
  ghost predicate Crossed(s: System, a: TxnId, p: TxnId, j: JobId) {
    && a in s.live && p in s.live
    && SettlesOrReleases(s.live[a].request, j) && s.live[p].request == Process(j)
    && RowLock(j) in s.live[a].held && NextMove(s.db, s.live[a]) == Wait(ShareLock(j))
    && JobLock(j) in s.live[p].held && NextMove(s.db, s.live[p]) == Wait(RowLock(j))
  }

  ghost predicate AnyCrossed(s: System) {
    exists a, p, j :: Crossed(s, a, p, j)
  }

  ghost predicate WaitsFor(s: System, id: TxnId, holder: TxnId)
    requires id in s.live && holder in s.live
  {
    var move := NextMove(s.db, s.live[id]);
    move.Wait? && Excludes(s.live[holder].held, move.lock)
  }

  ghost predicate HeldUp(s: System, stuck: set<TxnId>, id: TxnId)
    requires stuck <= s.live.Keys && id in s.live
  {
    exists holder :: holder in stuck && WaitsFor(s, id, holder)
  }

  /** Transactions each of which waits for another of them. */
  ghost predicate Deadlocked(s: System, stuck: set<TxnId>) {
    && stuck != {} && stuck <= s.live.Keys
    && forall id {:trigger HeldUp(s, stuck, id)} | id in stuck :: HeldUp(s, stuck, id)
  }

  lemma ShareIsLast(db: Db, t: Txn, j: JobId)
    requires Holds(db, t) && ShareLock(j) in t.held
    ensures !NextMove(db, t).Wait?
  {
  }

  /** Who keeps a foreign key waiting is the worker before it has the reservation, or can step. */
  lemma ShareWaitsForTheWorker(s: System, id: TxnId, holder: TxnId, j: JobId)
    requires Isolated(s) && id in s.live && holder in s.live && id != holder
    requires NextMove(s.db, s.live[id]) == Wait(ShareLock(j)) && JobLock(j) in s.live[holder].held
    requires NextMove(s.db, s.live[holder]).Wait?
    ensures Crossed(s, id, holder, j)
  {
    var t, h := s.live[id], s.live[holder];
    assert Holds(s.db, t) && Holds(s.db, h) && Apart(t.held, h.held);
    WaiterOfShare(s.db, t, j);
    HolderOfJob(s.db, h, j);
  }

  lemma WaiterOfShare(db: Db, t: Txn, j: JobId)
    requires Holds(db, t) && NextMove(db, t) == Wait(ShareLock(j))
    ensures j in db.jobs
    ensures
      || (SettlesOrReleases(t.request, j) && RowLock(j) in t.held)
      || (t.request.Reserve? && j !in db.reservations)
  {
  }

  lemma HolderOfJob(db: Db, h: Txn, j: JobId)
    requires Holds(db, h) && JobLock(j) in h.held && j in db.jobs && NextMove(db, h).Wait?
    ensures h.request == Process(j) && j in db.reservations
    ensures RowLock(j) in h.held || NextMove(db, h) == Wait(RowLock(j))
  {
  }

  ghost function Waiting(s: System, id: TxnId): nat
    requires id in s.live
  {
    var move := NextMove(s.db, s.live[id]);
    if move.Wait? then Rank(move.lock) else 0
  }

  /** Waiting climbs the lock order, or two transactions are crossed. */
  lemma HolderIsHigher(s: System, id: TxnId, holder: TxnId)
    requires Isolated(s) && id in s.live && holder in s.live && WaitsFor(s, id, holder)
    requires NextMove(s.db, s.live[holder]).Wait?
    ensures id != holder
    ensures
      || Waiting(s, id) < Waiting(s, holder)
      || exists j :: Crossed(s, id, holder, j)
  {
    var lock := NextMove(s.db, s.live[id]).lock;
    WaitsUpward(s.db, s.live[id], lock);
    WaitsUpward(s.db, s.live[holder], NextMove(s.db, s.live[holder]).lock);
    if lock.ShareLock? && id != holder {
      ShareWaitsForTheWorker(s, id, holder, lock.job);
    } else if lock.JobLock? && ShareLock(lock.job) in s.live[holder].held {
      ShareIsLast(s.db, s.live[holder], lock.job);
    }
  }

  /** Following a blocked transaction to the holder of its lock climbs the lock order, so it ends at
      one that can step. */
  lemma {:induction false} SomeoneCanStep(s: System, id: TxnId) returns (next: TxnId)
    requires Isolated(s) && id in s.live && !AnyCrossed(s)
    ensures next in s.live && !Blocked(s, next)
    decreases 6 - Waiting(s, id)
  {
    next := id;
    if Blocked(s, id) {
      var holder :| holder in s.live && WaitsFor(s, id, holder);
      next := holder;
      if Blocked(s, holder) {
        HolderIsHigher(s, id, holder);
        next := SomeoneCanStep(s, holder);
      }
    }
  }

  lemma StuckWaits(s: System, stuck: set<TxnId>, id: TxnId) returns (holder: TxnId)
    requires Deadlocked(s, stuck) && id in stuck
    ensures holder in stuck && WaitsFor(s, id, holder) && NextMove(s.db, s.live[holder]).Wait?
  {
    assert HeldUp(s, stuck, id);
    holder :| holder in stuck && WaitsFor(s, id, holder);
    assert HeldUp(s, stuck, holder);
  }

  lemma {:induction false} StuckAreCrossed(s: System, stuck: set<TxnId>, id: TxnId)
    requires Isolated(s) && Deadlocked(s, stuck) && id in stuck
    ensures AnyCrossed(s)
    decreases 6 - Waiting(s, id)
  {
    var holder := StuckWaits(s, stuck, id);
    HolderIsHigher(s, id, holder);
    if Waiting(s, id) < Waiting(s, holder) {
      StuckAreCrossed(s, stuck, holder);
    }
  }

  lemma CrossedAreStuck(s: System, a: TxnId, p: TxnId, j: JobId)
    requires Crossed(s, a, p, j)
    ensures Deadlocked(s, {a, p})
  {
    assert WaitsFor(s, a, p) && WaitsFor(s, p, a);
  }

  ghost predicate AnyDeadlock(s: System) {
    exists stuck :: Deadlocked(s, stuck)
  }

  lemma StuckIffCrossed(s: System)
    requires Isolated(s)
    ensures AnyDeadlock(s) <==> AnyCrossed(s)
  {
    if AnyDeadlock(s) {
      var stuck :| Deadlocked(s, stuck);
      var id :| id in stuck;
      StuckAreCrossed(s, stuck, id);
    }
    if AnyCrossed(s) {
      var a, p, j :| Crossed(s, a, p, j);
      CrossedAreStuck(s, a, p, j);
    }
  }

  /** In every interleaving, transactions are deadlocked if and only if a settlement or release of some
      job and the worker on that job have crossed. */
  lemma DeadlocksAreCrossings(origin: Db, events: seq<Event>)
    ensures AnyDeadlock(Runs(Start(origin), events)) <==> AnyCrossed(Runs(Start(origin), events))
  {
    InterleavingsAreSerial(origin, events);
    StuckIffCrossed(Runs(Start(origin), events));
  }

  /** No live settlement or release is of a job that a live delivery is of. */
  ghost predicate NoSharedJobs(s: System) {
    forall a, p | a in s.live && p in s.live && s.live[p].request.Process? ::
      !SettlesOrReleases(s.live[a].request, s.live[p].request.job)
  }

  lemma WithoutSharedJobs(s: System)
    requires NoSharedJobs(s)
    ensures !AnyCrossed(s)
  {
  }

  /** In every reachable state with live transactions at least one can step, as long as no settlement or
      release meets a delivery of the same job. */
  lemma NoDeadlock(origin: Db, events: seq<Event>)
    requires NoSharedJobs(Runs(Start(origin), events))
    ensures var s := Runs(Start(origin), events);
      s.live == map[] || exists id :: id in s.live && !Blocked(s, id)
  {
    var s := Runs(Start(origin), events);
    InterleavingsAreSerial(origin, events);
    WithoutSharedJobs(s);
    if s.live != map[] {
      var id :| id in s.live;
      var next := SomeoneCanStep(s, id);
    }
  }

  // ----- When the two cross -----

  /** The job is still queued, and its reservation is active and covers what the call settles. */
  predicate CanCross(db: Db, request: Request, j: JobId) {
    && SettlesOrReleases(request, j)
    && j in db.jobs && db.jobs[j].state == Queued
    && j in db.reservations && db.reservations[j].state == Active && db.reservations[j].budgetId in db.budgets
    && (request.Settle? ==> Cost(request.amount).Ok? && Cost(request.amount).value <= db.reservations[j].amount)
  }

  /** Both look, the call locks reservation and budget, the worker locks the job. */
  function Crossing(request: Request, j: JobId): seq<Event> {
    [Begin(0, request), Begin(1, Process(j)), Advance(0), Advance(0), Advance(0), Advance(1), Advance(1)]
  }

  lemma RunsOfAppend(s: System, events: seq<Event>, e: Event)
    ensures Runs(s, events + [e]) == Step(Runs(s, events), e)
  {
    assert (events + [e])[..|events|] == events;
  }

  /** The two transactions before either commits. */
  function Pair(db: Db, call: Txn, worker: Txn): System {
    System(db, map[0 := call, 1 := worker], [], [], [])
  }

  function Fresh(request: Request): Txn {
    Txn(request, false, false, {}, None, None, None)
  }

  lemma CallAdvances(db: Db, call: Txn, next: Txn, worker: Txn, lock: Lock)
    requires NextMove(db, call) == Wait(lock) && next == Take(db, call, lock)
    requires !Excludes(call.held, lock) && !Excludes(worker.held, lock)
    ensures Step(Pair(db, call, worker), Advance(0)) == Pair(db, next, worker)
  {
    assert map[0 := call, 1 := worker][0 := next] == map[0 := next, 1 := worker];
  }

  lemma WorkerAdvances(db: Db, call: Txn, worker: Txn, next: Txn, lock: Lock)
    requires NextMove(db, worker) == Wait(lock) && next == Take(db, worker, lock)
    requires !Excludes(call.held, lock) && !Excludes(worker.held, lock)
    ensures Step(Pair(db, call, worker), Advance(1)) == Pair(db, call, next)
  {
    assert map[0 := call, 1 := worker][1 := next] == map[0 := call, 1 := next];
  }

  lemma BothBegin(db: Db, request: Request, j: JobId)
    requires CanCross(db, request, j)
    ensures var call, worker := Fresh(request), Fresh(Process(j));
      && Step(Step(Start(db), Begin(0, request)), Begin(1, Process(j))) == Pair(db, call, worker)
      && Step(Pair(db, call, worker), Advance(0)) == Pair(db, call.(looked := true), worker)
  {
    var call, worker := Fresh(request), Fresh(Process(j));
    assert map[][0 := call][1 := worker] == map[0 := call, 1 := worker];
    assert map[0 := call, 1 := worker][0 := call.(looked := true)] == map[0 := call.(looked := true), 1 := worker];
  }

  lemma WorkerLooks(db: Db, call: Txn, j: JobId)
    requires j in db.jobs
    ensures Step(Pair(db, call, Fresh(Process(j))), Advance(1)) == Pair(db, call, Fresh(Process(j)).(looked := true))
  {
    var worker := Fresh(Process(j));
    assert map[0 := call, 1 := worker][1 := worker.(looked := true)] == map[0 := call, 1 := worker.(looked := true)];
  }

  lemma CallLocks(db: Db, request: Request, j: JobId, worker: Txn) returns (locked: Txn)
    requires CanCross(db, request, j) && worker.held == {}
    ensures locked.request == request && JobLock(j) !in locked.held && ShareLock(j) !in locked.held
    ensures RowLock(j) in locked.held && NextMove(db, locked) == Wait(ShareLock(j))
    ensures Step(Step(Pair(db, Fresh(request).(looked := true), worker), Advance(0)), Advance(0))
         == Pair(db, locked, worker)
  {
    var looking, b := Fresh(request).(looked := true), db.reservations[j].budgetId;
    var locking := Take(db, looking, RowLock(j));
    locked := Take(db, locking, BudgetLock(b));
    CallAdvances(db, looking, locking, worker, RowLock(j));
    CallAdvances(db, locking, locked, worker, BudgetLock(b));
  }

  lemma RunsOfTwo(s: System, events: seq<Event>, a: Event, b: Event)
    ensures Runs(s, events + [a, b]) == Step(Step(Runs(s, events), a), b)
  {
    RunsOfAppend(s, events, a);
    RunsOfAppend(s, events + [a], b);
    assert events + [a, b] == events + [a] + [b];
  }

  lemma RunsOfCalling(s: System, begun: seq<Event>)
    ensures Runs(s, begun + [Advance(0), Advance(0), Advance(0)])
         == Step(Step(Step(Runs(s, begun), Advance(0)), Advance(0)), Advance(0))
  {
    RunsOfAppend(s, begun, Advance(0));
    RunsOfTwo(s, begun + [Advance(0)], Advance(0), Advance(0));
    assert begun + [Advance(0)] + [Advance(0), Advance(0)] == begun + [Advance(0), Advance(0), Advance(0)];
  }

  lemma RunsOfCrossing(s: System, request: Request, j: JobId)
    ensures var begun := Step(Step(s, Begin(0, request)), Begin(1, Process(j)));
      var called := Step(Step(Step(begun, Advance(0)), Advance(0)), Advance(0));
      Runs(s, Crossing(request, j)) == Step(Step(called, Advance(1)), Advance(1))
  {
    var begun := [] + [Begin(0, request), Begin(1, Process(j))];
    var called := begun + [Advance(0), Advance(0), Advance(0)];
    RunsOfTwo(s, [], Begin(0, request), Begin(1, Process(j)));
    RunsOfCalling(s, begun);
    RunsOfTwo(s, called, Advance(1), Advance(1));
    assert Crossing(request, j) == called + [Advance(1), Advance(1)];
  }

  lemma CrossingHappens(db: Db, request: Request, j: JobId)
    requires CanCross(db, request, j)
    ensures var s := Runs(Start(db), Crossing(request, j));
      Crossed(s, 0, 1, j) && s.db == db && s.live[0].request == request
  {
    var worker := Fresh(Process(j));
    RunsOfCrossing(Start(db), request, j);
    BothBegin(db, request, j);
    var locked := CallLocks(db, request, j, worker);
    WorkerLooks(db, locked, j);
    var looking := worker.(looked := true);
    WorkerAdvances(db, locked, looking, Take(db, looking, JobLock(j)), JobLock(j));
  }

  lemma CrossedCanCross(db: Db, a: Txn, p: Txn, j: JobId)
    requires Holds(db, a) && Holds(db, p) && SettlesOrReleases(a.request, j) && p.request == Process(j)
    requires NextMove(db, a) == Wait(ShareLock(j)) && NextMove(db, p) == Wait(RowLock(j))
    ensures CanCross(db, a.request, j)
  {
  }

  /** A settlement or release and a delivery of its job can cross if and only if the job is queued and its
      reservation active, and a settlement asks for a cost the reservation covers. */
  lemma CrossingIsExact(db: Db, request: Request, j: JobId)
    ensures CanCross(db, request, j) <==> exists events, a, p ::
      var s := Runs(Start(db), events);
      s.db == db && Crossed(s, a, p, j) && s.live[a].request == request
  {
    if CanCross(db, request, j) {
      CrossingHappens(db, request, j);
    }
    if events, a, p :| var s := Runs(Start(db), events);
      s.db == db && Crossed(s, a, p, j) && s.live[a].request == request
    {
      InterleavingsAreSerial(db, events);
      var s := Runs(Start(db), events);
      CrossedCanCross(s.db, s.live[a], s.live[p], j);
    }
  }

  ghost predicate Spares(e: Event, a: TxnId, p: TxnId) {
    e != Crash(a) && e != Crash(p)
  }

  /** Rows are never deleted, so what the two wait for stays what it is. */
  lemma StaysPut(db: Db, next: Db, t: Txn, j: JobId)
    requires db.jobs.Keys <= next.jobs.Keys && db.reservations.Keys <= next.reservations.Keys
    requires Holds(db, t) && (SettlesOrReleases(t.request, j) || t.request == Process(j))
    requires NextMove(db, t) == Wait(ShareLock(j)) || NextMove(db, t) == Wait(RowLock(j))
    ensures NextMove(next, t) == NextMove(db, t)
  {
  }

  lemma RowsStay(s: System, e: Event)
    requires Isolated(s)
    ensures s.db.jobs.Keys <= Step(s, e).db.jobs.Keys && s.db.reservations.Keys <= Step(s, e).db.reservations.Keys
  {
    if e.Advance? && e.id in s.live && NextMove(s.db, s.live[e.id]).Finish? {
      FinishTouchesLocked(s.db, s.live[e.id]);
    }
  }

  lemma BlockedStays(s: System, e: Event, id: TxnId)
    requires id in s.live && Blocked(s, id) && e != Crash(id)
    ensures id in Step(s, e).live && Step(s, e).live[id] == s.live[id]
  {
  }

  lemma CrossedStays(s: System, e: Event, a: TxnId, p: TxnId, j: JobId)
    requires Isolated(s) && Crossed(s, a, p, j) && Spares(e, a, p)
    ensures Crossed(Step(s, e), a, p, j)
  {
    RowsStay(s, e);
    assert Excludes(s.live[p].held, ShareLock(j)) && Excludes(s.live[a].held, RowLock(j));
    BlockedStays(s, e, a);
    BlockedStays(s, e, p);
    StaysPut(s.db, Step(s, e).db, s.live[a], j);
    StaysPut(s.db, Step(s, e).db, s.live[p], j);
  }

  lemma {:induction false} CrossedStaysOn(
    s: System, origin: Db, more: seq<Event>, a: TxnId, p: TxnId, j: JobId)
    requires Isolated(s) && s.db == CommitAll(origin, s.history)
    requires Crossed(s, a, p, j) && forall e | e in more :: Spares(e, a, p)
    ensures var after := Runs(s, more);
      Isolated(after) && after.db == CommitAll(origin, after.history) && Crossed(after, a, p, j)
  {
    if more != [] {
      var front, last := more[..|more| - 1], more[|more| - 1];
      CrossedStaysOn(s, origin, front, a, p, j);
      StepIsSerial(Runs(s, front), last, origin);
      CrossedStays(Runs(s, front), last, a, p, j);
    }
  }

  /** Two that have crossed stay so until one of them is rolled back. */
  lemma OnlyARollbackEndsIt(
    origin: Db, events: seq<Event>, more: seq<Event>, a: TxnId, p: TxnId, j: JobId)
    requires Crossed(Runs(Start(origin), events), a, p, j) && forall e | e in more :: Spares(e, a, p)
    ensures Crossed(Runs(Runs(Start(origin), events), more), a, p, j)
  {
    InterleavingsAreSerial(origin, events);
    CrossedStaysOn(Runs(Start(origin), events), origin, more, a, p, j);
  }

  // ----- Progress -----

  /** One more than the highest rank held. */
  ghost function Height(held: set<Lock>): nat {
    if held == {} then 0
    else if forall h | h in held :: Rank(h) < 1 then 1
    else if forall h | h in held :: Rank(h) < 2 then 2
    else if forall h | h in held :: Rank(h) < 3 then 3
    else if forall h | h in held :: Rank(h) < 4 then 4
    else if forall h | h in held :: Rank(h) < 5 then 5
    else 6
  }

  /** A bound on the steps a transaction has left. */
  ghost function Effort(t: Txn): nat {
    if !t.looked then 8 else 7 - Height(t.held)
  }

  ghost function TotalEffort(live: map<TxnId, Txn>): nat
    decreases |live|
  {
    if live == map[] then 0
    else
      var id :| id in live;
      Effort(live[id]) + TotalEffort(live - {id})
  }

  lemma {:induction false} EffortWithout(live: map<TxnId, Txn>, id: TxnId)
    requires id in live
    ensures TotalEffort(live) == Effort(live[id]) + TotalEffort(live - {id})
    decreases |live|
  {
    var first :| first in live && TotalEffort(live) == Effort(live[first]) + TotalEffort(live - {first});
    if first != id {
      EffortWithout(live - {first}, id);
      EffortWithout(live - {id}, first);
      assert live - {first} - {id} == live - {id} - {first};
    }
  }

  lemma HeightIsAtLeast(held: set<Lock>, lock: Lock)
    requires lock in held
    ensures Height(held) >= Rank(lock) + 1
  {
  }

  lemma HeightIsAtMost(held: set<Lock>, rank: nat)
    requires forall h | h in held :: Rank(h) < rank
    ensures Height(held) <= rank
  {
    if held != {} {
      var h :| h in held;
      assert Rank(h) < rank;
    }
  }

  lemma TakingClimbs(db: Db, t: Txn, lock: Lock)
    requires Holds(db, t) && t.looked && NextMove(db, t) == Wait(lock)
    ensures Effort(Take(db, t, lock)) < Effort(t)
  {
    WaitsUpward(db, t, lock);
    HeightIsAtLeast(Take(db, t, lock).held, lock);
    HeightIsAtMost(t.held, Rank(lock));
  }

  lemma AdvanceLeavesOrClimbs(s: System, id: TxnId)
    requires Isolated(s) && id in s.live && !Blocked(s, id)
    ensures var after := AdvanceTxn(s, id).live;
      || after == s.live - {id}
      || exists t :: after == s.live[id := t] && Effort(t) < Effort(s.live[id])
  {
    var t := s.live[id];
    match NextMove(s.db, t)
    case Look =>
      assert Effort(t.(looked := true)) < Effort(t);
    case Wait(lock) =>
      assert t.looked;
      TakingClimbs(s.db, t, lock);
    case _ =>
  }

  /** Each step of a transaction that is not blocked uses up part of a bound fixed when it began. */
  lemma AdvanceSpends(s: System, id: TxnId)
    requires Isolated(s) && id in s.live && !Blocked(s, id)
    ensures TotalEffort(AdvanceTxn(s, id).live) < TotalEffort(s.live)
  {
    var after := AdvanceTxn(s, id).live;
    AdvanceLeavesOrClimbs(s, id);
    if after == s.live - {id} {
      EffortWithout(s.live, id);
      EffortIsPositive(s.live[id]);
    } else {
      var t :| after == s.live[id := t] && Effort(t) < Effort(s.live[id]);
      EffortMoves(s.live, id, t);
    }
  }

  lemma EffortIsPositive(t: Txn)
    ensures Effort(t) > 0
  {
  }

  lemma EffortMoves(live: map<TxnId, Txn>, id: TxnId, t: Txn)
    requires id in live
    ensures TotalEffort(live[id := t]) == TotalEffort(live) - Effort(live[id]) + Effort(t)
  {
    EffortWithout(live, id);
    EffortWithout(live[id := t], id);
    assert live[id := t] - {id} == live - {id};
  }

  lemma RunsOfPrepend(s: System, e: Event, events: seq<Event>)
    ensures Runs(s, [e] + events) == Runs(Step(s, e), events)
    decreases |events|
  {
    if events == [] {
      assert ([e] + events)[..0] == [];
    } else {
      RunsOfPrepend(s, e, events[..|events| - 1]);
      assert ([e] + events)[..|events|] == [e] + events[..|events| - 1];
    }
  }

  lemma {:induction false} EffortIsBounded(live: map<TxnId, Txn>)
    ensures TotalEffort(live) <= 8 * |live|
    decreases |live|
  {
    if live != map[] {
      var id :| id in live && TotalEffort(live) == Effort(live[id]) + TotalEffort(live - {id});
      assert (live - {id}).Keys == live.Keys - {id};
      assert |live - {id}| == |(live - {id}).Keys| == |live.Keys| - 1 == |live| - 1;
      EffortIsBounded(live - {id});
      assert 0 <= Height(live[id].held) && Effort(live[id]) <= 8;
      assert TotalEffort(live - {id}) <= 8 * (|live| - 1);
    }
  }

  // ----- Finishing -----

  ghost predicate Victim(s: System, id: TxnId) {
    exists a, j :: Crossed(s, a, id, j)
  }

  /** The events end every live transaction, rolling back only deliveries that have crossed. */
  ghost predicate Recovers(s: System, events: seq<Event>)
    decreases |events|
  {
    if events == [] then s.live == map[]
    else
      var e := events[0];
      && (e.Advance? || (e.Crash? && Victim(s, e.id)))
      && Recovers(Step(s, e), events[1..])
  }

  lemma {:induction false} RecoveryEnds(s: System, events: seq<Event>)
    requires Recovers(s, events)
    ensures Runs(s, events).live == map[]
    decreases |events|
  {
    if events != [] {
      RecoveryEnds(Step(s, events[0]), events[1..]);
      RunsOfPrepend(s, events[0], events[1..]);
      assert events == [events[0]] + events[1..];
    }
  }

  lemma CrashSpends(s: System, id: TxnId)
    requires id in s.live
    ensures TotalEffort(Step(s, Crash(id)).live) < TotalEffort(s.live)
  {
    EffortWithout(s.live, id);
    EffortIsPositive(s.live[id]);
  }

  lemma AdvanceKeepsApart(s: System, id: TxnId)
    requires NoSharedJobs(s) && id in s.live
    ensures NoSharedJobs(AdvanceTxn(s, id))
  {
  }

  lemma {:induction false} EveryoneFinishes(s: System, origin: Db) returns (events: seq<Event>)
    requires Isolated(s) && s.db == CommitAll(origin, s.history)
    ensures Recovers(s, events) && |events| <= TotalEffort(s.live)
    ensures NoSharedJobs(s) ==> forall e | e in events :: e.Advance?
    decreases TotalEffort(s.live)
  {
    if s.live == map[] {
      events := [];
    } else {
      var e: Event;
      if AnyCrossed(s) {
        var a, p, j :| Crossed(s, a, p, j);
        e := Crash(p);
        CrashSpends(s, p);
      } else {
        var some :| some in s.live;
        var id := SomeoneCanStep(s, some);
        e := Advance(id);
        AdvanceSpends(s, id);
      }
      StepIsSerial(s, e, origin);
      var rest := EveryoneFinishes(Step(s, e), origin);
      events := [e] + rest;
      if NoSharedJobs(s) {
        WithoutSharedJobs(s);
        AdvanceKeepsApart(s, e.id);
      }
    }
  }

  /** Whatever has happened, the live transactions can all be brought to an end, with at most eight
      events for each: by steps alone when no settlement or release meets a delivery of its job, and
      otherwise by rolling back deliveries that have crossed. */
  lemma AlwaysCanFinish(origin: Db, events: seq<Event>) returns (rest: seq<Event>)
    ensures var s := Runs(Start(origin), events);
      && Recovers(s, rest) && Runs(s, rest).live == map[]
      && |rest| <= 8 * |s.live|
      && (NoSharedJobs(s) ==> forall e | e in rest :: e.Advance?)
  {
    var s := Runs(Start(origin), events);
    InterleavingsAreSerial(origin, events);
    EffortIsBounded(s.live);
    rest := EveryoneFinishes(s, origin);
    RecoveryEnds(s, rest);
  }

  // ----- A call that runs alone -----

  /** What a transaction with no others beside it knows: what it looked at is still so, and if an insert of it
      met a committed row then the call raises. */
  ghost predicate Solo(db: Db, t: Txn) {
    && Holds(db, t)
    && (t.looked ==> Opening(db, t.request) == Look)
    && (t.doomed ==> Execute(db, t.request).Err?)
  }

  ghost predicate JobsOfReservations(db: Db) {
    forall j | j in db.reservations :: j in db.jobs
  }

  lemma SoloRaises(db: Db, t: Txn)
    requires Solo(db, t) && JobsOfReservations(db) && NextMove(db, t).Raise?
    ensures Execute(db, t.request).Err?
  {
  }

  lemma SoloTakes(db: Db, t: Txn, lock: Lock)
    requires Solo(db, t) && NextMove(db, t) == Wait(lock)
    ensures !Excludes(t.held, lock) && Solo(db, Take(db, t, lock)) && Take(db, t, lock).request == t.request
  {
    WaitsUpward(db, t, lock);
    TakingHolds(db, t, lock);
  }

  function Advances(id: TxnId, n: nat): seq<Event> {
    if n == 0 then [] else [Advance(id)] + Advances(id, n - 1)
  }

  /** The transaction goes on, alone, with less to do. */
  ghost predicate GoesOn(s: System, next: System, id: TxnId)
    requires id in s.live
  {
    && next == s.(live := next.live) && next.live.Keys == {id} && next.live[id].request == s.live[id].request
    && Solo(s.db, next.live[id]) && Effort(next.live[id]) < Effort(s.live[id])
  }

  lemma SoloLooks(s: System, id: TxnId)
    requires s.live.Keys == {id} && Solo(s.db, s.live[id]) && NextMove(s.db, s.live[id]).Look?
    ensures GoesOn(s, AdvanceTxn(s, id), id)
  {
    LookingHolds(s.db, s.live[id]);
  }

  lemma SoloGoesOn(s: System, id: TxnId, lock: Lock)
    requires s.live.Keys == {id} && Solo(s.db, s.live[id]) && NextMove(s.db, s.live[id]) == Wait(lock)
    ensures GoesOn(s, AdvanceTxn(s, id), id)
  {
    var t := s.live[id];
    var locked := Take(s.db, t, lock);
    SoloTakes(s.db, t, lock);
    TakingClimbs(s.db, t, lock);
    assert AdvanceTxn(s, id) == s.(live := s.live[id := locked]);
  }

  /** One step of a transaction alone: it goes on, or ends as the serial specification says. */
  lemma SoloStep(s: System, id: TxnId)
    requires s.live.Keys == {id} && Solo(s.db, s.live[id]) && JobsOfReservations(s.db)
    ensures var t, next := s.live[id], AdvanceTxn(s, id);
      if next.live == map[] then
        && next.db == Commit(s.db, t.request)
        && next.history == s.history + if Execute(s.db, t.request).Ok? then [t.request] else []
      else GoesOn(s, next, id)
  {
    var t := s.live[id];
    assert s.live == map[id := t];
    match NextMove(s.db, t)
    case Look => SoloLooks(s, id);
    case Wait(lock) => SoloGoesOn(s, id, lock);
    case Raise => SoloRaises(s.db, t);
    case Return => ReturnIsSerial(s.db, t);
    case Finish => FinishIsSerial(s.db, t);
  }

  /** The run has come to the end the serial specification gives the request. */
  ghost predicate EndsSerially(s: System, request: Request, after: System) {
    && after.live == map[] && after.db == Commit(s.db, request)
    && after.history == s.history + if Execute(s.db, request).Ok? then [request] else []
  }

  lemma {:induction false} SoloRuns(s: System, id: TxnId) returns (n: nat)
    requires s.live.Keys == {id} && Solo(s.db, s.live[id]) && JobsOfReservations(s.db)
    ensures n <= Effort(s.live[id]) && EndsSerially(s, s.live[id].request, Runs(s, Advances(id, n)))
    decreases Effort(s.live[id])
  {
    SoloStep(s, id);
    EffortIsPositive(s.live[id]);
    var next := AdvanceTxn(s, id);
    if next.live == map[] {
      n := 1;
      assert Advances(id, 1) == [Advance(id)] + [];
      RunsOfPrepend(s, Advance(id), []);
    } else {
      var more := SoloRuns(next, id);
      n := more + 1;
      RunsOfPrepend(s, Advance(id), Advances(id, more));
    }
  }

  /** A call with no other beside it commits exactly what the serial specification says, and is in the history
      if and only if it succeeds: taking the locks one by one never makes it raise. */
  lemma AloneIsSerial(db: Db, request: Request) returns (n: nat)
    requires JobsOfReservations(db)
    ensures n <= 8
    ensures var s := Runs(Start(db), [Begin(0, request)] + Advances(0, n));
      && s.live == map[] && s.db == Commit(db, request)
      && s.history == if Execute(db, request).Ok? then [request] else []
  {
    var begun := Step(Start(db), Begin(0, request));
    n := SoloRuns(begun, 0);
    RunsOfPrepend(Start(db), Begin(0, request), Advances(0, n));
  }

  /** Beside others a call raises only where it would raise alone at that moment, unless an insert of it met a
      row that another had committed first. */
  lemma RaisesAreSerial(origin: Db, events: seq<Event>, id: TxnId)
    requires Genesis(origin) && id in Runs(Start(origin), events).live
    requires var s := Runs(Start(origin), events); NextMove(s.db, s.live[id]).Raise?
    ensures var s := Runs(Start(origin), events);
      || Execute(s.db, s.live[id].request).Err?
      || (s.live[id].doomed && (s.live[id].request.Create? || s.live[id].request.Reserve?))
  {
    var s := Runs(Start(origin), events);
    InterleavingsAreSerial(origin, events);
    EveryInterleavingIsSound(origin, events);
    if !s.live[id].doomed {
      RaisesAlike(s.db, s.live[id]);
    }
  }

  lemma RaisesAlike(db: Db, t: Txn)
    requires Holds(db, t) && !t.doomed && JobsOfReservations(db) && NextMove(db, t).Raise?
    ensures Execute(db, t.request).Err?
  {
  }
}
