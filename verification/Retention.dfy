/** Retention in bounded batches against deletion in one statement, and what an export contains
    (src/workers/retention.py, src/application/privacy_policy.py). */
module Retention {
  import opened Basics
  import opened Outcomes
  import opened Contacts
  import opened Queries
  import opened Privacy
  import Permanence
  import PrivacyEffects

  // ----- Batches -----

  /** Everything a chain of batches did: the store, the rows in deletion order, the count each run logged. */
  datatype Drained = Drained(db: Db, removed: seq<ContactId>, logged: seq<nat>)

  ghost function Ranking(db: Db, workspace: WorkspaceId, cutoff: int): seq<ContactId> {
    Ranked(ByExpiry, db.contacts, ExpiredIds(db, workspace, cutoff))
  }

  /** A batch removes the first expired rows and leaves the rest of them, in the same order. */
  lemma BatchTakesTheFirst(db: Db, workspace: WorkspaceId, cutoff: int, size: int)
    requires 1 <= size <= MAX_BATCH
    ensures var (after, result) := RetentionOutcome(db, workspace, cutoff, size).value;
      var rows, k := Ranking(db, workspace, cutoff), result.deleted;
      && k == Min(size, |rows|) && |rows| == |ExpiredIds(db, workspace, cutoff)|
      && Ranking(after, workspace, cutoff) == rows[k..]
      && ExpiredIds(after, workspace, cutoff) == ExpiredIds(db, workspace, cutoff) - RowSet(rows[..k])
  {
    var after := RetentionOutcome(db, workspace, cutoff, size).value.0;
    var ids, left := ExpiredIds(db, workspace, cutoff), ExpiredIds(after, workspace, cutoff);
    var rows := Ranking(db, workspace, cutoff);
    var k := Min(size, |rows|);
    RankedIsTheQuery(ByExpiry, db.contacts, ids);
    assert left == ids - RowSet(rows[..k]);
    RankedDrop(ByExpiry, db.contacts, ids, k);
    RankedFrame(ByExpiry, db.contacts, after.contacts, left);
  }

  lemma FullBatchShrinks(db: Db, workspace: WorkspaceId, cutoff: int, size: int)
    requires 1 <= size <= MAX_BATCH
    requires RetentionOutcome(db, workspace, cutoff, size).value.1.hasMore
    ensures |RetentionOutcome(db, workspace, cutoff, size).value.0.contacts| < |db.contacts|
  {
    var batch := Batch(db, workspace, cutoff, size);
    RankedIsTheQuery(ByExpiry, db.contacts, ExpiredIds(db, workspace, cutoff));
    assert batch[0] in RowSet(batch) && batch[0] in db.contacts;
    RemovalCount(db.contacts, RowSet(batch));
    assert RowSet(batch) != {};
  }

  /** `enforce_workspace_retention`: one batch, and another message as long as the batch was full. The k-th
      run of a chain reads the time `clock(k)`. */
  ghost function Drain(db: Db, workspace: WorkspaceId, clock: nat -> int, k: nat, size: int): Drained
    requires 1 <= size <= MAX_BATCH
    decreases |db.contacts|
  {
    var (after, result) := RetentionOutcome(db, workspace, clock(k), size).value;
    var batch := Batch(db, workspace, clock(k), size);
    if !result.hasMore then Drained(after, batch, [result.deleted])
    else
      FullBatchShrinks(db, workspace, clock(k), size);
      var rest := Drain(after, workspace, clock, k + 1, size);
      Drained(rest.db, batch + rest.removed, [result.deleted] + rest.logged)
  }

  predicate InOrder(clock: nat -> int, i: nat, j: nat) {
    i <= j ==> clock(i) <= clock(j)
  }

  /** The clock never goes back. */
  ghost predicate Forward(clock: nat -> int) {
    forall i, j :: InOrder(clock, i, j)
  }

  /** What the last run of the chain read. */
  ghost function LastReading(db: Db, workspace: WorkspaceId, clock: nat -> int, k: nat, size: int): int
    requires 1 <= size <= MAX_BATCH
  {
    var runs := |Drain(db, workspace, clock, k, size).logged|;
    if runs == 0 then clock(k) else clock(k + runs - 1)
  }

  function Total(counts: seq<nat>): nat {
    if counts == [] then 0 else counts[0] + Total(counts[1..])
  }

  function Events(workspace: WorkspaceId, clock: nat -> int, k: nat, counts: seq<nat>): seq<RetentionEvent>
    decreases |counts|
  {
    if counts == [] then []
    else [RetentionEvent(workspace, false, counts[0], clock(k))] + Events(workspace, clock, k + 1, counts[1..])
  }

  /** The counts a chain logs for n expired rows: full batches, then the remainder, which may be none. */
  function Logged(n: nat, size: nat): seq<nat>
    requires size >= 1
  {
    if n < size then [n] else [size] + Logged(n - size, size)
  }

  /** Full batches and the remainder, n in all. */
  predicate FullThenRest(counts: seq<nat>, n: nat, size: nat)
    requires size >= 1
  {
    && |counts| == n / size + 1 && Total(counts) == n
    && (forall i | 0 <= i < n / size :: counts[i] == size)
    && counts[n / size] == n % size
  }

  lemma {:induction false} LoggedInFull(n: nat, size: nat)
    requires size >= 1
    ensures FullThenRest(Logged(n, size), n, size)
  {
    if n >= size {
      LoggedInFull(n - size, size);
      DivideStep(n, size);
    } else {
      DivideSmall(n, size);
    }
  }

  lemma DivideSmall(n: nat, size: nat)
    requires n < size
    ensures n / size == 0 && n % size == n
  {
  }

  lemma DivideStep(n: nat, size: nat)
    requires 1 <= size <= n
    ensures n / size == (n - size) / size + 1 && n % size == (n - size) % size
  {
    var q, r := (n - size) / size, (n - size) % size;
    assert n == (q + 1) * size + r;
    Quotient(n, size, q + 1, r);
  }

  lemma Quotient(n: nat, size: nat, q: nat, r: nat)
    requires n == q * size + r && r < size
    ensures n / size == q && n % size == r
  {
    var p, s := n / size, n % size;
    assert n == p * size + s && s < size;
    assert p < q ==> (p + 1) * size <= q * size;
    assert q < p ==> (q + 1) * size <= p * size;
  }

  /** A full batch is the same at any later cutoff: the rows that expire later come after it. */
  lemma FullBatchAtLaterCutoff(db: Db, workspace: WorkspaceId, cutoff: int, later: int, size: nat)
    requires cutoff <= later && size <= |Ranking(db, workspace, cutoff)|
    ensures Ranking(db, workspace, cutoff) <= Ranking(db, workspace, later)
    ensures Ranking(db, workspace, later)[..size] == Ranking(db, workspace, cutoff)[..size]
  {
    RankedPrefix(ByExpiry, db.contacts, ExpiredIds(db, workspace, cutoff), ExpiredIds(db, workspace, later));
  }

  lemma LastIsLater(db: Db, workspace: WorkspaceId, clock: nat -> int, k: nat, size: int)
    requires 1 <= size <= MAX_BATCH && Forward(clock)
    ensures clock(k) <= LastReading(db, workspace, clock, k, size)
  {
    var runs := |Drain(db, workspace, clock, k, size).logged|;
    if runs > 0 {
      assert InOrder(clock, k, k + runs - 1);
    }
  }

  /** Every chain logs at least its one last run. */
  lemma DrainRuns(db: Db, workspace: WorkspaceId, clock: nat -> int, k: nat, size: int)
    requires 1 <= size <= MAX_BATCH
    ensures Drain(db, workspace, clock, k, size).logged != []
  {
  }

  /** What the chain does after a full batch is the rest of it. */
  lemma DrainMore(db: Db, workspace: WorkspaceId, clock: nat -> int, k: nat, size: int, after: Db)
    requires 1 <= size <= MAX_BATCH
    requires RetentionOutcome(db, workspace, clock(k), size).value == (after, BatchResult(size, true))
    ensures var rest := Drain(after, workspace, clock, k + 1, size);
      && Drain(db, workspace, clock, k, size)
         == Drained(rest.db, Batch(db, workspace, clock(k), size) + rest.removed, [size] + rest.logged)
      && LastReading(db, workspace, clock, k, size) == LastReading(after, workspace, clock, k + 1, size)
  {
    DrainRuns(after, workspace, clock, k + 1, size);
  }

  /** The last run of a chain takes what is left. */
  lemma DrainLast(db: Db, workspace: WorkspaceId, clock: nat -> int, k: nat, size: int, after: Db, count: nat)
    requires 1 <= size <= MAX_BATCH
    requires RetentionOutcome(db, workspace, clock(k), size).value == (after, BatchResult(count, false))
    ensures var rows := Ranking(db, workspace, clock(k));
      && LastReading(db, workspace, clock, k, size) == clock(k)
      && Drain(db, workspace, clock, k, size) == Drained(after, rows, [count])
      && count == |rows| < size && RowSet(rows) == ExpiredIds(db, workspace, clock(k))
  {
    var rows := Ranking(db, workspace, clock(k));
    RankedIsTheQuery(ByExpiry, db.contacts, ExpiredIds(db, workspace, clock(k)));
    assert rows[..|rows|] == rows;
  }

  /** A full batch is the one a single cutoff later in the chain would take as well. */
  lemma FullBatch(db: Db, workspace: WorkspaceId, cutoff: int, last: int, size: int, after: Db)
    requires 1 <= size <= MAX_BATCH && cutoff <= last
    requires RetentionOutcome(db, workspace, cutoff, size).value == (after, BatchResult(size, true))
    ensures var rows := Ranking(db, workspace, last);
      && |rows| >= size && RowSet(rows[..size]) <= ExpiredIds(db, workspace, last)
      && Batch(db, workspace, cutoff, size) == rows[..size]
      && Ranking(after, workspace, last) == rows[size..]
      && after == db.(
           contacts := db.contacts - RowSet(rows[..size]),
           retention := db.retention + [RetentionEvent(workspace, false, size, cutoff)])
  {
    BatchTakesTheFirst(db, workspace, last, size);
    RankedIsTheQuery(ByExpiry, db.contacts, ExpiredIds(db, workspace, last));
    FullBatchAtLaterCutoff(db, workspace, cutoff, last, size);
  }

  lemma {:induction false} DrainRemovesInOrder(
    db: Db, workspace: WorkspaceId, clock: nat -> int, k: nat, size: int, last: int)
    requires 1 <= size <= MAX_BATCH && Forward(clock) && last == LastReading(db, workspace, clock, k, size)
    ensures var drained := Drain(db, workspace, clock, k, size);
      && drained.removed == Ranking(db, workspace, last)
      && drained.logged == Logged(|Ranking(db, workspace, last)|, size)
    decreases |db.contacts|
  {
    var (after, result) := RetentionOutcome(db, workspace, clock(k), size).value;
    if result.hasMore {
      FullBatchShrinks(db, workspace, clock(k), size);
      LastIsLater(db, workspace, clock, k, size);
      DrainMore(db, workspace, clock, k, size, after);
      FullBatch(db, workspace, clock(k), last, size, after);
      DrainRemovesInOrder(after, workspace, clock, k + 1, size, last);
      LoggedStep(Ranking(db, workspace, last), size);
    } else {
      DrainLast(db, workspace, clock, k, size, after, result.deleted);
    }
  }

  lemma LoggedStep(rows: seq<ContactId>, size: nat)
    requires 1 <= size <= |rows|
    ensures rows == rows[..size] + rows[size..]
    ensures Logged(|rows|, size) == [size] + Logged(|rows[size..]|, size)
  {
  }

  lemma {:induction false} DrainLeavesTheRest(
    db: Db, workspace: WorkspaceId, clock: nat -> int, k: nat, size: int, last: int)
    requires 1 <= size <= MAX_BATCH && Forward(clock) && last == LastReading(db, workspace, clock, k, size)
    ensures var drained := Drain(db, workspace, clock, k, size);
      && drained.db.contacts == Purged(db, workspace, last).contacts
      && drained.db.retention == db.retention + Events(workspace, clock, k, drained.logged)
      && drained.db == db.(contacts := drained.db.contacts, retention := drained.db.retention)
    decreases |db.contacts|
  {
    var (after, result) := RetentionOutcome(db, workspace, clock(k), size).value;
    if result.hasMore {
      FullBatchShrinks(db, workspace, clock(k), size);
      LastIsLater(db, workspace, clock, k, size);
      DrainMore(db, workspace, clock, k, size, after);
      FullBatch(db, workspace, clock(k), last, size, after);
      DrainLeavesTheRest(after, workspace, clock, k + 1, size, last);
      PurgedAfterBatch(db, after, workspace, last, Ranking(db, workspace, last)[..size]);
      EventsOfMore(db.retention, workspace, clock, k, size, Drain(after, workspace, clock, k + 1, size).logged);
    } else {
      DrainLast(db, workspace, clock, k, size, after, result.deleted);
      EventsOfMore(db.retention, workspace, clock, k, result.deleted, []);
    }
  }

  /** By expiry, and by id where that is the same. */
  ghost predicate EarliestFirst(contacts: map<ContactId, Contact>, rows: seq<ContactId>)
    requires forall x | x in rows :: x in contacts
  {
    forall i, j | 0 <= i < j < |rows| ::
      var a, b := contacts[rows[i]].expiresAt, contacts[rows[j]].expiresAt;
      a < b || (a == b && rows[i] < rows[j])
  }

  /** Batches refine deletion in one statement. With a clock that never goes back the chain removes exactly
      the workspace's contacts expired at its last reading, each once, earliest expiry first and ties by id;
      it takes n / size + 1 runs for n of them, logging full batches and then the remainder; and it touches
      nothing else. */
  lemma BatchesRefineBulkDeletion(db: Db, workspace: WorkspaceId, clock: nat -> int, size: int)
    requires 1 <= size <= MAX_BATCH && Forward(clock)
    ensures var drained, last := Drain(db, workspace, clock, 0, size), LastReading(db, workspace, clock, 0, size);
      var n := |ExpiredIds(db, workspace, last)|;
      && drained.db == db.(
           contacts := db.contacts - ExpiredIds(db, workspace, last),
           retention := db.retention + Events(workspace, clock, 0, drained.logged))
      && drained.logged != [] && last == clock(|drained.logged| - 1)
      && FullThenRest(drained.logged, n, size)
      && (forall x :: x in drained.removed <==> x in ExpiredIds(db, workspace, last))
      && EarliestFirst(db.contacts, drained.removed)
  {
    var last := LastReading(db, workspace, clock, 0, size);
    DrainRemovesInOrder(db, workspace, clock, 0, size, last);
    DrainLeavesTheRest(db, workspace, clock, 0, size, last);
    RankedIsTheQuery(ByExpiry, db.contacts, ExpiredIds(db, workspace, last));
    DrainRuns(db, workspace, clock, 0, size);
    LoggedInFull(|ExpiredIds(db, workspace, last)|, size);
  }

  lemma PurgedAfterBatch(db: Db, after: Db, workspace: WorkspaceId, cutoff: int, batch: seq<ContactId>)
    requires RowSet(batch) <= ExpiredIds(db, workspace, cutoff)
    requires after.contacts == db.contacts - RowSet(batch)
    ensures Purged(after, workspace, cutoff).contacts == Purged(db, workspace, cutoff).contacts
  {
    assert ExpiredIds(after, workspace, cutoff) == ExpiredIds(db, workspace, cutoff) - RowSet(batch);
    RemoveInTwo(db.contacts, RowSet(batch), ExpiredIds(db, workspace, cutoff));
  }

  lemma RemoveInTwo(contacts: map<ContactId, Contact>, first: set<ContactId>, all: set<ContactId>)
    requires first <= all
    ensures (contacts - first) - (all - first) == contacts - all
  {
  }

  lemma EventsOfMore(
    before: seq<RetentionEvent>, workspace: WorkspaceId, clock: nat -> int, k: nat, count: nat, more: seq<nat>)
    ensures before + Events(workspace, clock, k, [count] + more)
         == (before + [RetentionEvent(workspace, false, count, clock(k))]) + Events(workspace, clock, k + 1, more)
  {
    assert ([count] + more)[1..] == more;
  }

  // ----- Exports -----

  /** The contact stops the export: live, unsuppressed, and named without the policy for it. */
  predicate Blocks(db: Db, workspace: WorkspaceId, c: ContactId)
    requires c in db.contacts
  {
    var row := db.contacts[c];
    && !Suppressed(db, workspace, row.kind, row.fingerprint) && row.classification == Named
    && !PrivacyEffects.Permits(db, workspace, row.collectedAt, row.expiresAt)
  }

  predicate Exported(db: Db, workspace: WorkspaceId, c: ContactId)
    requires c in db.contacts
  {
    !Suppressed(db, workspace, db.contacts[c].kind, db.contacts[c].fingerprint)
  }

  ghost predicate AnyBlocks(db: Db, workspace: WorkspaceId, rows: seq<ContactId>)
    requires forall x | x in rows :: x in db.contacts
  {
    exists x :: x in rows && Blocks(db, workspace, x)
  }

  lemma AnyBlocksAppend(db: Db, workspace: WorkspaceId, front: seq<ContactId>, last: ContactId)
    requires (forall x | x in front :: x in db.contacts) && last in db.contacts
    ensures AnyBlocks(db, workspace, front + [last]) <==>
      AnyBlocks(db, workspace, front) || Blocks(db, workspace, last)
  {
    if Blocks(db, workspace, last) {
      assert last in front + [last];
    }
    if AnyBlocks(db, workspace, front) {
      var x :| x in front && Blocks(db, workspace, x);
      assert x in front + [last];
    }
  }

  lemma CollatedAppend(
    collate: string -> string, contacts: map<ContactId, Contact>, front: seq<ContactId>, last: ContactId,
    chosen: seq<ContactId>)
    requires (forall x | x in front :: x in contacts) && last in contacts
    requires EachOnce(front + [last]) && Collated(collate, contacts, front + [last])
    requires forall x | x in chosen :: x in front
    requires EachOnce(chosen) && Collated(collate, contacts, chosen)
    ensures EachOnce(chosen + [last]) && Collated(collate, contacts, chosen + [last])
  {
    var rows, more := front + [last], chosen + [last];
    forall i | 0 <= i < |chosen|
      ensures chosen[i] != last
      ensures !StringBefore(collate(contacts[last].value), collate(contacts[chosen[i]].value))
    {
      assert chosen[i] in chosen;
      var k :| 0 <= k < |front| && front[k] == chosen[i];
      assert rows[k] == chosen[i] && rows[|front|] == last;
    }
  }

  lemma CollatedFront(
    collate: string -> string, contacts: map<ContactId, Contact>, front: seq<ContactId>, last: ContactId)
    requires forall x | x in front + [last] :: x in contacts
    requires EachOnce(front + [last]) && Collated(collate, contacts, front + [last])
    ensures last in contacts && forall x | x in front :: x in contacts
    ensures EachOnce(front) && Collated(collate, contacts, front)
  {
    var rows := front + [last];
    assert last in rows && forall x | x in front :: x in rows;
    assert forall i | 0 <= i < |front| :: rows[i] == front[i];
  }

  lemma {:induction false} ExportRowsFilters(
    identity: Identity, db: Db, workspace: WorkspaceId, rows: seq<ContactId>)
    requires forall x | x in rows :: x in db.contacts && Permanence.Tagged(identity, db.contacts[x])
    requires EachOnce(rows) && Collated(identity.collate, db.contacts, rows)
    ensures var r := ExportRows(identity, db, workspace, rows);
      && (r.Err? <==> AnyBlocks(db, workspace, rows))
      && (r.Err? ==> r.error == ExportBlocked)
      && (r.Ok? ==> forall x :: x in r.value <==> x in rows && Exported(db, workspace, x))
      && (r.Ok? ==> EachOnce(r.value) && Collated(identity.collate, db.contacts, r.value))
  {
    if rows != [] {
      var front, last := rows[..|rows| - 1], rows[|rows| - 1];
      assert rows == front + [last];
      assert forall x :: x in rows <==> x in front || x == last;
      CollatedFront(identity.collate, db.contacts, front, last);
      ExportRowsFilters(identity, db, workspace, front);
      AnyBlocksAppend(db, workspace, front, last);
      var allowed := ExportRows(identity, db, workspace, front);
      if allowed.Ok? {
        CollatedAppend(identity.collate, db.contacts, front, last, allowed.value);
      }
    }
  }

  predicate LiveRow(db: Db, workspace: WorkspaceId, now: int, c: ContactId) {
    c in db.contacts && db.contacts[c].workspace == workspace && db.contacts[c].expiresAt > now
  }

  lemma CollatedInPurged(
    collate: string -> string, db: Db, workspace: WorkspaceId, now: int, rows: seq<ContactId>)
    requires forall x | x in rows :: x in Purged(db, workspace, now).contacts
    requires Collated(collate, Purged(db, workspace, now).contacts, rows)
    ensures Collated(collate, db.contacts, rows)
  {
  }

  /** However the query breaks ties, an export raises if and only if some live unsuppressed named contact
      of the workspace lacks a complete policy or outlives it; otherwise it answers exactly the workspace's
      live unsuppressed contacts, sorted, each once. */
  lemma ExportIsExact(
    identity: Identity, db: Db, workspace: WorkspaceId, now: int, r: Result<seq<ContactId>, Error>)
    requires Permanence.ContactsSound(identity, db) && Exports(identity, db, workspace, now, r)
    ensures r.Err? <==> exists x :: LiveRow(db, workspace, now, x) && Blocks(db, workspace, x)
    ensures r.Err? ==> r.error == ExportBlocked
    ensures r.Ok? ==> forall x :: x in r.value <==> LiveRow(db, workspace, now, x) && Exported(db, workspace, x)
    ensures r.Ok? ==> EachOnce(r.value) && Collated(identity.collate, db.contacts, r.value)
  {
    var purged := Purged(db, workspace, now);
    var rows :|
      && IsAnswer(identity.collate, purged.contacts, RowsOf(purged, workspace), rows)
      && r == ExportRows(identity, purged, workspace, rows);
    assert forall x :: x in rows <==> LiveRow(db, workspace, now, x);
    ExportRowsFilters(identity, purged, workspace, rows);
    if r.Ok? {
      CollatedInPurged(identity.collate, db, workspace, now, r.value);
    }
    if x :| LiveRow(db, workspace, now, x) && Blocks(db, workspace, x) {
      assert x in rows && Blocks(purged, workspace, x);
    }
  }

  predicate Passes(identity: Identity, db: Db, workspace: WorkspaceId, c: ContactId)
    requires c in db.contacts
  {
    var row := db.contacts[c];
    var fingerprint := FingerprintOf(identity, row.kind, row.value);
    && fingerprint.Ok?
    && (Suppressed(db, workspace, row.kind, fingerprint.value) || !Overdue(row, PolicyOf(db, workspace)))
  }

  ghost predicate AllPass(identity: Identity, db: Db, workspace: WorkspaceId, rows: seq<ContactId>)
    requires forall x | x in rows :: x in db.contacts
  {
    forall x | x in rows :: Passes(identity, db, workspace, x)
  }

  lemma {:induction false} ExportRowsPass(identity: Identity, db: Db, workspace: WorkspaceId, rows: seq<ContactId>)
    requires forall x | x in rows :: x in db.contacts
    ensures ExportRows(identity, db, workspace, rows).Ok? <==> AllPass(identity, db, workspace, rows)
  {
    if rows != [] {
      var front, last := rows[..|rows| - 1], rows[|rows| - 1];
      assert rows == front + [last];
      assert forall x :: x in rows <==> x in front || x == last;
      ExportRowsPass(identity, db, workspace, front);
      assert last in rows && forall x | x in front :: x in rows;
      assert AllPass(identity, db, workspace, rows)
        <==> AllPass(identity, db, workspace, front) && Passes(identity, db, workspace, last);
    }
  }

  lemma SameRowsPass(
    identity: Identity, db: Db, workspace: WorkspaceId, a: seq<ContactId>, b: seq<ContactId>)
    requires (forall x | x in a :: x in db.contacts) && forall x :: x in a <==> x in b
    ensures ExportRows(identity, db, workspace, a).Ok? <==> ExportRows(identity, db, workspace, b).Ok?
  {
    ExportRowsPass(identity, db, workspace, a);
    ExportRowsPass(identity, db, workspace, b);
  }

  /** The export whose ties go by id commits the purge, or nothing when it raises. */
  lemma RankedExportCommits(identity: Identity, db: Db, workspace: WorkspaceId, now: int, rows: seq<ContactId>)
    requires rows == Ranked(
      ByValue(identity.collate), Purged(db, workspace, now).contacts, RowsOf(Purged(db, workspace, now), workspace))
    requires forall x | x in rows :: x in Purged(db, workspace, now).contacts
    ensures Commit(identity, db, Export(workspace, now))
         == if ExportRows(identity, Purged(db, workspace, now), workspace, rows).Ok? then Purged(db, workspace, now)
            else db
  {
  }

  /** Whether an export commits, and what, does not depend on how its query breaks ties. */
  lemma ExportCommitsAlike(
    identity: Identity, db: Db, workspace: WorkspaceId, now: int, r: Result<seq<ContactId>, Error>)
    requires Exports(identity, db, workspace, now, r)
    ensures Commit(identity, db, Export(workspace, now)) == if r.Ok? then Purged(db, workspace, now) else db
  {
    var purged := Purged(db, workspace, now);
    var ids := RowsOf(purged, workspace);
    var ranked := Ranked(ByValue(identity.collate), purged.contacts, ids);
    RankedIsTheQuery(ByValue(identity.collate), purged.contacts, ids);
    RankedExportCommits(identity, db, workspace, now, ranked);
    var rows :|
      && IsAnswer(identity.collate, purged.contacts, ids, rows)
      && r == ExportRows(identity, purged, workspace, rows);
    SameRowsPass(identity, purged, workspace, rows, ranked);
  }

  lemma RemovalCount(contacts: map<ContactId, Contact>, gone: set<ContactId>)
    requires gone <= contacts.Keys
    ensures |contacts - gone| == |contacts| - |gone|
  {
    assert (contacts - gone).Keys == contacts.Keys - gone;
    assert |(contacts - gone).Keys| == |contacts - gone|;
  }

  /** The purge of an export: no expired contact of the workspace is left, no other contact is touched,
      and what is logged is how many went. */
  lemma PurgeIsExact(db: Db, workspace: WorkspaceId, now: int)
    ensures var after := Purged(db, workspace, now);
      && (forall c :: c in after.contacts <==>
        c in db.contacts && !(db.contacts[c].workspace == workspace && db.contacts[c].expiresAt <= now))
      && (forall c | c in after.contacts :: after.contacts[c] == db.contacts[c])
      && var gone := |db.contacts| - |after.contacts|;
        gone >= 0
        && after.retention == db.retention + if gone == 0 then [] else [RetentionEvent(workspace, true, gone, now)]
  {
    var gone := ExpiredIds(db, workspace, now);
    RemovalCount(db.contacts, gone);
    PurgeLogs(db, workspace, now, gone);
  }

  lemma PurgeLogs(db: Db, workspace: WorkspaceId, now: int, gone: set<ContactId>)
    requires gone == ExpiredIds(db, workspace, now)
    ensures Purged(db, workspace, now).contacts == db.contacts - gone
    ensures Purged(db, workspace, now).retention
         == db.retention + if |gone| == 0 then [] else [RetentionEvent(workspace, true, |gone|, now)]
  {
  }

  /** Whatever follows a completed erasure, no export of the workspace, or of any workspace when it was
      global, contains the subject. */
  lemma ErasedSubjectsAreNotExported(
    identity: Identity, origin: Db, call: Call, calls: seq<Call>, workspace: WorkspaceId, now: int,
    r: Result<seq<ContactId>, Error>, c: ContactId)
    requires Permanence.Sound(identity, origin) && call.Erase? && Execute(identity, origin, call).Ok?
    requires call.id !in origin.requests
    requires workspace == call.workspace || call.scope == Everywhere
    requires Exports(identity, CommitAll(identity, Commit(identity, origin, call), calls), workspace, now, r)
    requires r.Ok? && c in r.value
    ensures var later := CommitAll(identity, Commit(identity, origin, call), calls);
      && c in later.contacts
      && !(later.contacts[c].kind == call.kind
           && later.contacts[c].fingerprint == FingerprintOf(identity, call.kind, call.value).value)
  {
    var first := Commit(identity, origin, call);
    Permanence.CommitKeeps(identity, origin, call);
    Permanence.ErasureIsPermanent(identity, first, calls);
    Permanence.RequestsStayBound(identity, first, calls);
    ExportIsExact(identity, CommitAll(identity, first, calls), workspace, now, r);
  }
}
