/** What every committed transaction keeps: conservation of each budget, the ledger as a second
    account of the same money, and the itemised history of each job. */
module Bookkeeping {
  import opened Basics
  import opened Outcomes
  import opened Usage
  import opened Accounts

  // ----- The ledger read back -----

  /** What an append-only ledger says of one workspace: money held, money spent, and by how much
      overrides moved the limit. */
  datatype Balance = Balance(reserved: int, spent: int, raised: int)

  function Post(balance: Balance, entry: LedgerEntry): Balance {
    match entry.kind
    case ReservationEntry => balance.(reserved := balance.reserved + entry.amount)
    case ChargeEntry =>
      balance.(reserved := balance.reserved - entry.amount, spent := balance.spent + entry.amount)
    case ReleaseEntry => balance.(reserved := balance.reserved - entry.amount)
    case OverrideEntry => balance.(raised := balance.raised + entry.amount)
  }

  function Replay(ledger: seq<LedgerEntry>, workspace: WorkspaceId): Balance {
    if ledger == [] then Balance(0, 0, 0)
    else
      var before := Replay(ledger[..|ledger| - 1], workspace);
      var entry := ledger[|ledger| - 1];
      if entry.workspace == workspace then Post(before, entry) else before
  }

  /** The entries of one job, oldest first. */
  function LedgerOf(ledger: seq<LedgerEntry>, job: JobId): seq<LedgerEntry> {
    if ledger == [] then []
    else
      var before := LedgerOf(ledger[..|ledger| - 1], job);
      var entry := ledger[|ledger| - 1];
      if entry.job == Some(job) then before + [entry] else before
  }

  lemma ReplayOfAppend(ledger: seq<LedgerEntry>, entry: LedgerEntry, workspace: WorkspaceId)
    ensures Replay(ledger + [entry], workspace)
         == if entry.workspace == workspace then Post(Replay(ledger, workspace), entry) else Replay(ledger, workspace)
  {
    assert (ledger + [entry])[..|ledger|] == ledger;
  }

  lemma ReplayOfHold(ledger: seq<LedgerEntry>, owner: WorkspaceId, job: JobId, amount: int, workspace: WorkspaceId)
    ensures Replay(ledger + [LedgerEntry(owner, Some(job), ReservationEntry, amount)], workspace)
         == (var before := Replay(ledger, workspace);
             if owner == workspace then before.(reserved := before.reserved + amount) else before)
  {
    ReplayOfAppend(ledger, LedgerEntry(owner, Some(job), ReservationEntry, amount), workspace);
  }

  lemma ReplayOfGiveBack(ledger: seq<LedgerEntry>, owner: WorkspaceId, job: JobId, amount: int, workspace: WorkspaceId)
    ensures Replay(ledger + [LedgerEntry(owner, Some(job), ReleaseEntry, amount)], workspace)
         == (var before := Replay(ledger, workspace);
             if owner == workspace then before.(reserved := before.reserved - amount) else before)
  {
    ReplayOfAppend(ledger, LedgerEntry(owner, Some(job), ReleaseEntry, amount), workspace);
  }

  lemma LedgerOfAppend(ledger: seq<LedgerEntry>, entry: LedgerEntry, job: JobId)
    ensures LedgerOf(ledger + [entry], job)
         == LedgerOf(ledger, job) + if entry.job == Some(job) then [entry] else []
  {
    assert (ledger + [entry])[..|ledger|] == ledger;
  }

  // ----- The invariant -----

  /** What a reservation row adds to a column of budget b: the money it holds, or has spent. */
  datatype Column = Held(b: BudgetId) | Spent(b: BudgetId)

  function Weight(column: Column, r: Reservation): int {
    match column
    case Held(b) => if r.budgetId == b && r.state.Active? then r.amount else 0
    case Spent(b) => if r.budgetId == b && r.state.Settled? then r.settledAmount else 0
  }

  /** The total of a column over every reservation row. */
  ghost function Total(rows: map<JobId, Reservation>, column: Column): int
    decreases |rows|
  {
    if rows == map[] then 0
    else
      var k :| k in rows;
      Weight(column, rows[k]) + Total(rows - {k}, column)
  }

  /** Any row can be taken out first. */
  lemma {:induction false} TotalWithout(rows: map<JobId, Reservation>, k: JobId, column: Column)
    requires k in rows
    ensures Total(rows, column) == Weight(column, rows[k]) + Total(rows - {k}, column)
    decreases |rows|
  {
    var first :| first in rows && Total(rows, column) == Weight(column, rows[first]) + Total(rows - {first}, column);
    if first != k {
      TotalWithout(rows - {first}, k, column);
      TotalWithout(rows - {k}, first, column);
      assert rows - {first} - {k} == rows - {k} - {first};
    }
  }

  /** Inserting or rewriting one row moves the total by the difference of the two rows. */
  lemma TotalMoves(rows: map<JobId, Reservation>, k: JobId, row: Reservation, column: Column)
    ensures Total(rows[k := row], column)
         == Total(rows, column) - (if k in rows then Weight(column, rows[k]) else 0) + Weight(column, row)
  {
    TotalWithout(rows[k := row], k, column);
    if k in rows {
      TotalWithout(rows, k, column);
      assert rows[k := row] - {k} == rows - {k};
    } else {
      assert rows[k := row] - {k} == rows;
    }
  }

  lemma {:induction false} TotalIsNonNegative(rows: map<JobId, Reservation>, column: Column)
    requires forall k | k in rows :: Weight(column, rows[k]) >= 0
    ensures Total(rows, column) >= 0
    decreases |rows|
  {
    if rows != map[] {
      var k :| k in rows && Total(rows, column) == Weight(column, rows[k]) + Total(rows - {k}, column);
      TotalIsNonNegative(rows - {k}, column);
    }
  }

  ghost predicate BudgetsIndexed(db: Db) {
    && (forall w | w in db.budgetOf :: db.budgetOf[w] in db.budgets && db.budgets[db.budgetOf[w]].workspace == w)
    && (forall b | b in db.budgets ::
          db.budgets[b].workspace in db.budgetOf && db.budgetOf[db.budgets[b].workspace] == b)
  }

  ghost predicate JobsIndexed(db: Db) {
    && (forall k | k in db.jobByKey ::
          db.jobByKey[k] in db.jobs && (db.jobs[db.jobByKey[k]].workspace, db.jobs[db.jobByKey[k]].key) == k)
    && (forall j | j in db.jobs ::
          && (db.jobs[j].workspace, db.jobs[j].key) in db.jobByKey
          && db.jobByKey[(db.jobs[j].workspace, db.jobs[j].key)] == j)
  }

  /** Foreign keys and column checks of the reservation rows. */
  ghost predicate Grounded(db: Db) {
    forall j | j in db.reservations ::
      var r := db.reservations[j];
      && j in db.jobs
      && r.budgetId in db.budgets
      && db.budgets[r.budgetId].workspace == r.workspace
      && 0 <= r.settledAmount <= r.amount
      && (!r.state.Settled? ==> r.settledAmount == 0)
  }

  ghost predicate ConservedBudget(db: Db, b: BudgetId)
    requires b in db.budgets
  {
    var budget := db.budgets[b];
    && budget.reserved == Total(db.reservations, Held(b))
    && budget.spent == Total(db.reservations, Spent(b))
    && budget.spent + budget.reserved <= budget.hardLimit
  }

  /** Each budget holds exactly its active reservations and has spent exactly its settled amounts. */
  ghost predicate Conserved(db: Db) {
    forall b | b in db.budgets :: ConservedBudget(db, b)
  }

  ghost predicate ReplayedBudget(db: Db, limits: map<BudgetId, int>, b: BudgetId)
    requires b in db.budgets && b in limits
  {
    var budget := db.budgets[b];
    Replay(db.ledger, budget.workspace) == Balance(budget.reserved, budget.spent, budget.hardLimit - limits[b])
  }

  /** Reading the ledger back gives the budget row, `limits` being the limits the budgets began with. */
  ghost predicate Replayed(db: Db, limits: map<BudgetId, int>) {
    && limits.Keys == db.budgets.Keys
    && forall b | b in db.budgets :: ReplayedBudget(db, limits, b)
  }

  /** The ledger entries a reservation row implies. */
  function ExpectedEntries(job: JobId, r: Reservation): seq<LedgerEntry> {
    [LedgerEntry(r.workspace, Some(job), ReservationEntry, r.amount)]
    + match r.state
      case Active => []
      case Released => [LedgerEntry(r.workspace, Some(job), ReleaseEntry, r.amount)]
      case Settled => SettlementEntries(job, r, r.settledAmount)
  }

  ghost predicate ItemizedJob(db: Db, j: JobId) {
    LedgerOf(db.ledger, j) == if j in db.reservations then ExpectedEntries(j, db.reservations[j]) else []
  }

  ghost predicate Itemized(db: Db) {
    forall j: JobId :: ItemizedJob(db, j)
  }

  ghost predicate Sound(db: Db, limits: map<BudgetId, int>) {
    && BudgetsIndexed(db) && JobsIndexed(db) && Grounded(db)
    && Conserved(db) && Replayed(db, limits) && Itemized(db)
  }

  /** A deployment before its first reservation: budgets as `create_workspace` adds them, and any
      well-indexed jobs. */
  ghost predicate Genesis(db: Db) {
    && BudgetsIndexed(db) && JobsIndexed(db)
    && db.reservations == map[] && db.ledger == []
    && forall b | b in db.budgets :: db.budgets[b].hardLimit >= 0 && db.budgets[b].spent == db.budgets[b].reserved == 0
  }

  function LimitsOf(db: Db): map<BudgetId, int> {
    map b | b in db.budgets :: db.budgets[b].hardLimit
  }

  lemma GenesisIsSound(db: Db)
    requires Genesis(db)
    ensures Sound(db, LimitsOf(db))
  {
  }

  // ----- Each write keeps it -----

  lemma TotalsMove(rows: map<JobId, Reservation>, job: JobId, row: Reservation, c: BudgetId)
    ensures Total(rows[job := row], Held(c))
         == Total(rows, Held(c)) - (if job in rows then Weight(Held(c), rows[job]) else 0) + Weight(Held(c), row)
    ensures Total(rows[job := row], Spent(c))
         == Total(rows, Spent(c)) - (if job in rows then Weight(Spent(c), rows[job]) else 0) + Weight(Spent(c), row)
  {
    TotalMoves(rows, job, row, Held(c));
    TotalMoves(rows, job, row, Spent(c));
  }

  /** A write of one budget row and one reservation row keeps keys, indexes and column checks. */
  lemma RowsKeepShape(db: Db, next: Db, b: BudgetId, budget: Budget, job: JobId, row: Reservation)
    requires BudgetsIndexed(db) && JobsIndexed(db) && Grounded(db)
    requires b in db.budgets && budget.workspace == db.budgets[b].workspace
    requires job in db.jobs && row.budgetId == b && row.workspace == budget.workspace
    requires 0 <= row.settledAmount <= row.amount && (!row.state.Settled? ==> row.settledAmount == 0)
    requires next.budgets == db.budgets[b := budget] && next.reservations == db.reservations[job := row]
    requires next.budgetOf == db.budgetOf && next.jobs == db.jobs && next.jobByKey == db.jobByKey
    ensures BudgetsIndexed(next) && JobsIndexed(next) && Grounded(next)
    ensures next.budgets.Keys == db.budgets.Keys
  {
  }

  ghost predicate Balanced(db: Db, limits: map<BudgetId, int>, c: BudgetId) {
    c in db.budgets && c in limits && ConservedBudget(db, c) && ReplayedBudget(db, limits, c)
  }

  lemma AllBalanced(db: Db, limits: map<BudgetId, int>)
    requires Conserved(db) && Replayed(db, limits)
    ensures forall c | c in db.budgets :: Balanced(db, limits, c)
  {
  }

  lemma SoundFromParts(db: Db, limits: map<BudgetId, int>)
    requires BudgetsIndexed(db) && JobsIndexed(db) && Grounded(db) && Itemized(db)
    requires limits.Keys == db.budgets.Keys
    requires forall c | c in db.budgets :: Balanced(db, limits, c)
    ensures Sound(db, limits)
  {
  }

  /** A budget stays balanced when its row, its rows' totals and its ledger all move alike. */
  lemma MovesAlike(db: Db, next: Db, limits: map<BudgetId, int>, c: BudgetId, held: int, spent: int)
    requires Balanced(db, limits, c) && c in next.budgets
    requires next.budgets[c] == db.budgets[c].(reserved := db.budgets[c].reserved + held,
                                              spent := db.budgets[c].spent + spent)
    requires next.budgets[c].spent + next.budgets[c].reserved <= next.budgets[c].hardLimit
    requires Total(next.reservations, Held(c)) == Total(db.reservations, Held(c)) + held
    requires Total(next.reservations, Spent(c)) == Total(db.reservations, Spent(c)) + spent
    requires Replay(next.ledger, db.budgets[c].workspace)
          == (var before := Replay(db.ledger, db.budgets[c].workspace);
              before.(reserved := before.reserved + held, spent := before.spent + spent))
    ensures Balanced(next, limits, c)
  {
  }

  lemma ReservationBalances(
    db: Db, limits: map<BudgetId, int>, job: JobId, b: BudgetId, cost: int, c: BudgetId)
    requires Balanced(db, limits, c) && b in db.budgets && job !in db.reservations
    requires c == b <==> db.budgets[c].workspace == db.budgets[b].workspace
    requires Fits(db.budgets[b], cost)
    ensures Balanced(WriteReservation(db, job, b, db.budgets[b], db.budgets[b].workspace, cost), limits, c)
  {
    var workspace := db.budgets[b].workspace;
    TotalsMove(db.reservations, job, Reservation(workspace, b, cost, 0, Active), c);
    ReplayOfHold(db.ledger, workspace, job, cost, db.budgets[c].workspace);
    MovesAlike(
      db, WriteReservation(db, job, b, db.budgets[b], workspace, cost), limits, c, if c == b then cost else 0, 0);
  }

  lemma ReservationItemizes(db: Db, job: JobId, b: BudgetId, workspace: WorkspaceId, cost: int)
    requires Itemized(db) && b in db.budgets && job !in db.reservations
    ensures Itemized(WriteReservation(db, job, b, db.budgets[b], workspace, cost))
  {
    var next := WriteReservation(db, job, b, db.budgets[b], workspace, cost);
    forall j: JobId ensures ItemizedJob(next, j) {
      assert ItemizedJob(db, j);
      LedgerOfAppend(db.ledger, LedgerEntry(workspace, Some(job), ReservationEntry, cost), j);
    }
  }

  lemma ReservationKeeps(db: Db, limits: map<BudgetId, int>, job: JobId, b: BudgetId, cost: int)
    requires Sound(db, limits) && b in db.budgets && CanInsertReservation(db, job)
    requires cost >= 0 && Fits(db.budgets[b], cost)
    ensures Sound(WriteReservation(db, job, b, db.budgets[b], db.budgets[b].workspace, cost), limits)
  {
    var next := WriteReservation(db, job, b, db.budgets[b], db.budgets[b].workspace, cost);
    AllBalanced(db, limits);
    RowsKeepShape(db, next, b, next.budgets[b], job, next.reservations[job]);
    ReservationItemizes(db, job, b, db.budgets[b].workspace, cost);
    forall c | c in next.budgets ensures Balanced(next, limits, c) {
      ReservationBalances(db, limits, job, b, cost, c);
    }
    SoundFromParts(next, limits);
  }

  lemma ReleaseBalances(db: Db, limits: map<BudgetId, int>, job: JobId, c: BudgetId)
    requires job in db.reservations && db.reservations[job].state.Active?
    requires db.reservations[job].budgetId in db.budgets && Balanced(db, limits, c)
    requires c == db.reservations[job].budgetId <==> db.budgets[c].workspace == db.reservations[job].workspace
    requires db.reservations[job].amount >= 0
    ensures Balanced(WriteRelease(db, job, db.reservations[job], db.budgets[db.reservations[job].budgetId]), limits, c)
  {
    var r := db.reservations[job];
    TotalsMove(db.reservations, job, r.(state := Released), c);
    ReplayOfGiveBack(db.ledger, r.workspace, job, r.amount, db.budgets[c].workspace);
    MovesAlike(
      db, WriteRelease(db, job, r, db.budgets[r.budgetId]), limits, c, if c == r.budgetId then -r.amount else 0, 0);
  }

  lemma ReleaseItemizes(db: Db, job: JobId, budget: Budget)
    requires Itemized(db) && job in db.reservations && db.reservations[job].state.Active?
    ensures Itemized(WriteRelease(db, job, db.reservations[job], budget))
  {
    var r := db.reservations[job];
    var next := WriteRelease(db, job, r, budget);
    forall j: JobId ensures ItemizedJob(next, j) {
      assert ItemizedJob(db, j);
      LedgerOfAppend(db.ledger, LedgerEntry(r.workspace, Some(job), ReleaseEntry, r.amount), j);
    }
  }

  lemma ReleaseKeeps(db: Db, limits: map<BudgetId, int>, job: JobId)
    requires Sound(db, limits) && job in db.reservations && db.reservations[job].state.Active?
    ensures db.reservations[job].budgetId in db.budgets
    ensures Sound(WriteRelease(db, job, db.reservations[job], db.budgets[db.reservations[job].budgetId]), limits)
  {
    var r := db.reservations[job];
    var next := WriteRelease(db, job, r, db.budgets[r.budgetId]);
    AllBalanced(db, limits);
    RowsKeepShape(db, next, r.budgetId, next.budgets[r.budgetId], job, next.reservations[job]);
    ReleaseItemizes(db, job, db.budgets[r.budgetId]);
    forall c | c in next.budgets ensures Balanced(next, limits, c) {
      ReleaseBalances(db, limits, job, c);
    }
    SoundFromParts(next, limits);
  }

  lemma ReplayOfSettlement(ledger: seq<LedgerEntry>, job: JobId, r: Reservation, actual: int, workspace: WorkspaceId)
    ensures Replay(ledger + SettlementEntries(job, r, actual), workspace)
         == (var before := Replay(ledger, workspace);
             if r.workspace == workspace
             then before.(reserved := before.reserved - r.amount, spent := before.spent + actual)
             else before)
  {
    var charge := LedgerEntry(r.workspace, Some(job), ChargeEntry, actual);
    ReplayOfAppend(ledger, charge, workspace);
    if r.amount != actual {
      var rest := LedgerEntry(r.workspace, Some(job), ReleaseEntry, r.amount - actual);
      ReplayOfAppend(ledger + [charge], rest, workspace);
      assert ledger + SettlementEntries(job, r, actual) == ledger + [charge] + [rest];
    } else {
      assert ledger + SettlementEntries(job, r, actual) == ledger + [charge];
    }
  }

  lemma LedgerOfSettlement(ledger: seq<LedgerEntry>, job: JobId, r: Reservation, actual: int, j: JobId)
    ensures LedgerOf(ledger + SettlementEntries(job, r, actual), j)
         == LedgerOf(ledger, j) + if j == job then SettlementEntries(job, r, actual) else []
  {
    var charge := LedgerEntry(r.workspace, Some(job), ChargeEntry, actual);
    LedgerOfAppend(ledger, charge, j);
    if r.amount != actual {
      var rest := LedgerEntry(r.workspace, Some(job), ReleaseEntry, r.amount - actual);
      LedgerOfAppend(ledger + [charge], rest, j);
      assert ledger + SettlementEntries(job, r, actual) == ledger + [charge] + [rest];
    } else {
      assert ledger + SettlementEntries(job, r, actual) == ledger + [charge];
    }
  }

  lemma SettlementBalances(db: Db, limits: map<BudgetId, int>, job: JobId, actual: int, c: BudgetId)
    requires job in db.reservations && db.reservations[job].state.Active?
    requires db.reservations[job].budgetId in db.budgets && Balanced(db, limits, c)
    requires c == db.reservations[job].budgetId <==> db.budgets[c].workspace == db.reservations[job].workspace
    requires actual <= db.reservations[job].amount
    ensures Balanced(WriteSettlement(db, job, db.reservations[job],
                                     db.budgets[db.reservations[job].budgetId], actual), limits, c)
  {
    var r := db.reservations[job];
    TotalsMove(db.reservations, job, r.(state := Settled, settledAmount := actual), c);
    ReplayOfSettlement(db.ledger, job, r, actual, db.budgets[c].workspace);
  }

  lemma SettlementItemizes(db: Db, job: JobId, budget: Budget, actual: int)
    requires Itemized(db) && job in db.reservations && db.reservations[job].state.Active?
    ensures Itemized(WriteSettlement(db, job, db.reservations[job], budget, actual))
  {
    var r := db.reservations[job];
    var next := WriteSettlement(db, job, r, budget, actual);
    forall j: JobId ensures ItemizedJob(next, j) {
      assert ItemizedJob(db, j);
      LedgerOfSettlement(db.ledger, job, r, actual, j);
      assert SettlementEntries(job, next.reservations[job], actual) == SettlementEntries(job, r, actual);
    }
  }

  lemma SettlementKeeps(db: Db, limits: map<BudgetId, int>, job: JobId, actual: int)
    requires Sound(db, limits) && job in db.reservations && db.reservations[job].state.Active?
    requires 0 <= actual <= db.reservations[job].amount
    ensures db.reservations[job].budgetId in db.budgets
    ensures Sound(WriteSettlement(db, job, db.reservations[job], db.budgets[db.reservations[job].budgetId], actual),
                  limits)
  {
    var r := db.reservations[job];
    var next := WriteSettlement(db, job, r, db.budgets[r.budgetId], actual);
    AllBalanced(db, limits);
    RowsKeepShape(db, next, r.budgetId, next.budgets[r.budgetId], job, next.reservations[job]);
    SettlementItemizes(db, job, db.budgets[r.budgetId], actual);
    forall c | c in next.budgets ensures Balanced(next, limits, c) {
      SettlementBalances(db, limits, job, actual, c);
    }
    SoundFromParts(next, limits);
  }

  lemma OverrideBalances(db: Db, limits: map<BudgetId, int>, b: BudgetId, limit: int, c: BudgetId)
    requires Balanced(db, limits, c) && b in db.budgets
    requires c == b <==> db.budgets[c].workspace == db.budgets[b].workspace
    requires db.budgets[b].spent + db.budgets[b].reserved <= limit
    ensures Balanced(WriteOverride(db, db.budgets[b].workspace, b, db.budgets[b], limit), limits, c)
  {
    var workspace := db.budgets[b].workspace;
    var entry := LedgerEntry(workspace, None, OverrideEntry, limit - db.budgets[b].hardLimit);
    ReplayOfAppend(db.ledger, entry, db.budgets[c].workspace);
  }

  lemma OverrideItemizes(db: Db, b: BudgetId, workspace: WorkspaceId, limit: int)
    requires Itemized(db) && b in db.budgets
    ensures Itemized(WriteOverride(db, workspace, b, db.budgets[b], limit))
  {
    var next := WriteOverride(db, workspace, b, db.budgets[b], limit);
    forall j: JobId ensures ItemizedJob(next, j) {
      assert ItemizedJob(db, j);
      LedgerOfAppend(db.ledger, LedgerEntry(workspace, None, OverrideEntry, limit - db.budgets[b].hardLimit), j);
    }
  }

  lemma OverrideKeeps(db: Db, limits: map<BudgetId, int>, b: BudgetId, limit: int)
    requires Sound(db, limits) && b in db.budgets
    requires db.budgets[b].spent + db.budgets[b].reserved <= limit
    ensures Sound(WriteOverride(db, db.budgets[b].workspace, b, db.budgets[b], limit), limits)
  {
    var next := WriteOverride(db, db.budgets[b].workspace, b, db.budgets[b], limit);
    AllBalanced(db, limits);
    OverrideItemizes(db, b, db.budgets[b].workspace, limit);
    forall c | c in next.budgets ensures Balanced(next, limits, c) {
      OverrideBalances(db, limits, b, limit, c);
    }
    SoundFromParts(next, limits);
  }

  /** Writes that leave the money alone leave every account of it alone. */
  lemma MoneyUntouched(db: Db, next: Db, limits: map<BudgetId, int>)
    requires Sound(db, limits)
    requires next.budgets == db.budgets && next.reservations == db.reservations && next.ledger == db.ledger
    ensures Conserved(next) && Replayed(next, limits) && Itemized(next)
  {
    AllBalanced(db, limits);
    forall c | c in next.budgets ensures Balanced(next, limits, c) {
      assert Balanced(db, limits, c);
    }
    forall j: JobId ensures ItemizedJob(next, j) {
      assert ItemizedJob(db, j);
    }
  }

  /** Inserting a job under a free key, or rewriting the state of a job. */
  lemma JobWriteKeeps(db: Db, limits: map<BudgetId, int>, id: JobId, job: Job)
    requires Sound(db, limits)
    requires if id in db.jobs then (db.jobs[id].workspace, db.jobs[id].key) == (job.workspace, job.key)
             else (job.workspace, job.key) !in db.jobByKey
    ensures Sound(WriteJob(db, id, job), limits)
  {
    MoneyUntouched(db, WriteJob(db, id, job), limits);
  }

  lemma AuditWriteKeeps(db: Db, limits: map<BudgetId, int>, audit: seq<AuditEvent>)
    requires Sound(db, limits)
    ensures Sound(db.(audit := audit), limits)
  {
    MoneyUntouched(db, db.(audit := audit), limits);
  }

  lemma StateWriteKeeps(db: Db, limits: map<BudgetId, int>, id: JobId, job: Job)
    requires Sound(db, limits) && id in db.jobs
    requires (db.jobs[id].workspace, db.jobs[id].key) == (job.workspace, job.key)
    ensures Sound(db.(jobs := db.jobs[id := job]), limits)
  {
    JobWriteKeeps(db, limits, id, job);
    assert WriteJob(db, id, job) == db.(jobs := db.jobs[id := job]);
  }

  lemma CreationKeeps(db: Db, limits: map<BudgetId, int>, id: JobId, job: Job, b: BudgetId)
    requires Sound(db, limits) && id !in db.jobs && (job.workspace, job.key) !in db.jobByKey
    requires b in db.budgets && db.budgets[b].workspace == job.workspace
    requires job.cost >= 0 && Fits(db.budgets[b], job.cost)
    ensures Sound(WriteCreation(db, id, job, b, db.budgets[b]), limits)
  {
    var added := WriteJob(db, id, job);
    JobWriteKeeps(db, limits, id, job);
    ReservationKeeps(added, limits, id, b, job.cost);
    var placed := WriteReservation(added, id, b, db.budgets[b], job.workspace, job.cost);
    AuditWriteKeeps(placed, limits, placed.audit + [JobCreated(job.workspace, id)]);
  }

  lemma FailureKeeps(db: Db, limits: map<BudgetId, int>, id: JobId)
    requires Sound(db, limits) && id in db.jobs
    requires id in db.reservations && db.reservations[id].state.Active?
    ensures db.reservations[id].budgetId in db.budgets
    ensures Sound(WriteFailure(db, id, db.jobs[id], db.reservations[id], db.budgets[db.reservations[id].budgetId]),
                  limits)
  {
    var job, r := db.jobs[id], db.reservations[id];
    var failed := db.(jobs := db.jobs[id := FailedJob(job)]);
    StateWriteKeeps(db, limits, id, FailedJob(job));
    ReleaseKeeps(failed, limits, id);
    var released := WriteRelease(failed, id, r, db.budgets[r.budgetId]);
    AuditWriteKeeps(released, limits, released.audit + [JobFailed(job.workspace, id, FailureReason(job))]);
  }

  /** Every service call, whether it commits or raises, keeps the whole invariant. */
  lemma CommitKeeps(db: Db, limits: map<BudgetId, int>, request: Request)
    requires Sound(db, limits)
    ensures Sound(Commit(db, request), limits)
  {
    if Execute(db, request).Ok? {
      match request
      case Reserve(workspace, job, amount) =>
        ReservationKeeps(db, limits, job, FindBudget(db, workspace).value, Cost(amount).value);
      case Settle(job, amount) =>
        SettlementKeeps(db, limits, job, Cost(amount).value);
      case Release(job) =>
        ReleaseKeeps(db, limits, job);
      case Override(workspace, newLimit, reason) =>
        OverrideKeeps(db, limits, FindBudget(db, workspace).value, Cost(newLimit).value);
      case Create(workspace, job, amount, key, carriesPayload) =>
        if Commit(db, request) != db {
          var row := NewJob(workspace, Cost(amount).value, key);
          CreationKeeps(db, limits, job, row, FindBudget(db, workspace).value);
        }
      case Process(job) =>
        if Commit(db, request) != db {
          FailureKeeps(db, limits, job);
        }
      case Transition(job, target, code) =>
        StateWriteKeeps(db, limits, job, db.jobs[job].(state := target, errorCode := StoredCode(code)));
    }
  }

  lemma {:induction false} SerialRunsAreSound(db: Db, requests: seq<Request>)
    requires Genesis(db)
    ensures Sound(CommitAll(db, requests), LimitsOf(db))
  {
    if requests == [] {
      GenesisIsSound(db);
    } else {
      SerialRunsAreSound(db, requests[..|requests| - 1]);
      CommitKeeps(CommitAll(db, requests[..|requests| - 1]), LimitsOf(db), requests[|requests| - 1]);
    }
  }

  /** The column checks `reserved >= 0` and `spent >= 0` can never fire. */
  lemma BalancesAreNonNegative(db: Db, limits: map<BudgetId, int>, b: BudgetId)
    requires Sound(db, limits) && b in db.budgets
    ensures 0 <= db.budgets[b].reserved && 0 <= db.budgets[b].spent <= db.budgets[b].hardLimit
  {
    assert ConservedBudget(db, b);
    TotalIsNonNegative(db.reservations, Held(b));
    TotalIsNonNegative(db.reservations, Spent(b));
  }
}
