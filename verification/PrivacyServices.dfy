/** The privacy services and the retention worker as the code runs them, loop by loop on the session's
    tables (src/application/contacts.py, src/application/suppression.py,
    src/application/data_subject_requests.py, src/application/privacy_policy.py, src/workers/retention.py). */
module PrivacyServices {
  import opened Basics
  import opened Outcomes
  import opened Contacts
  import opened Queries
  import opened Privacy
  import opened Retention

  class PrivacySession {
    var contacts: map<ContactId, Contact>
    var suppressions: set<Suppression>
    var requests: map<RequestId, SubjectRequest>
    var policies: map<WorkspaceId, Policy>
    var retention: seq<RetentionEvent>
    var audit: seq<AuditEvent>

    constructor (db: Db)
      ensures View() == db
    {
      contacts, suppressions, requests := db.contacts, db.suppressions, db.requests;
      policies, retention, audit := db.policies, db.retention, db.audit;
    }

    function View(): Db
      reads this
    {
      Db(contacts, suppressions, requests, policies, retention, audit)
    }

    /** SELECT without an order: the rows come in any order, each once. */
    method Select(ids: set<ContactId>) returns (rows: seq<ContactId>)
      ensures |rows| == |ids| && forall x :: x in rows <==> x in ids
      ensures forall i, j | 0 <= i < j < |rows| :: rows[i] != rows[j]
    {
      var left := ids;
      rows := [];
      while left != {}
        invariant left <= ids && |rows| + |left| == |ids|
        invariant forall x :: x in rows <==> x in ids && x !in left
        invariant forall i, j | 0 <= i < j < |rows| :: rows[i] != rows[j]
        decreases |left|
      {
        var c :| c in left;
        rows, left := rows + [c], left - {c};
      }
    }

    /** SELECT with ORDER BY. */
    method SelectOrdered(order: Order, ids: set<ContactId>) returns (rows: seq<ContactId>)
      requires ids <= contacts.Keys
      ensures rows == Ranked(order, contacts, ids)
    {
      var left := ids;
      rows := [];
      while left != {}
        invariant left <= ids
        invariant rows + Ranked(order, contacts, left) == Ranked(order, contacts, ids)
        decreases |left|
      {
        var c := First(order, left);
        NextRow(order, contacts, left, c, rows);
        rows, left := rows + [c], left - {c};
      }
    }

    method First(order: Order, ids: set<ContactId>) returns (m: ContactId)
      requires ids <= contacts.Keys && ids != {}
      ensures IsFirst(order, contacts, ids, m)
    {
      m :| m in ids;
      var seen := {m};
      while seen != ids
        invariant seen <= ids && IsFirst(order, contacts, seen, m)
        decreases ids - seen
      {
        assert seen + (ids - seen) == ids;
        var c :| c in ids - seen;
        FirstOfMore(order, contacts, seen, m, c);
        if Before(order, contacts, c, m) {
          m := c;
        }
        seen := seen + {c};
      }
    }
  }

  lemma NextRow(
    order: Order, contacts: map<ContactId, Contact>, left: set<ContactId>, c: ContactId, rows: seq<ContactId>)
    requires left <= contacts.Keys && IsFirst(order, contacts, left, c)
    ensures left - {c} <= contacts.Keys
    ensures (rows + [c]) + Ranked(order, contacts, left - {c}) == rows + Ranked(order, contacts, left)
  {
    RankedStarts(order, contacts, left, c);
    assert rows + ([c] + Ranked(order, contacts, left - {c})) == (rows + [c]) + Ranked(order, contacts, left - {c});
  }

  lemma FirstOfMore(
    order: Order, contacts: map<ContactId, Contact>, seen: set<ContactId>, m: ContactId, c: ContactId)
    requires seen <= contacts.Keys && c in contacts && c !in seen && IsFirst(order, contacts, seen, m)
    ensures IsFirst(order, contacts, seen + {c}, if Before(order, contacts, c, m) then c else m)
  {
    OrderIsTotal(order, contacts, c, m);
    if Before(order, contacts, c, m) {
      forall x | x in seen && x != m ensures Before(order, contacts, c, x) {
        OrderIsTransitive(order, contacts, c, m, x);
      }
    }
  }

  /** A call answers as its specification does; what it wrote before raising is rolled back. */
  ghost predicate Answers<T>(session: PrivacySession, outcome: Result<(Db, T), Error>, r: Result<T, Error>)
    reads session
  {
    match outcome
    case Ok((db, value)) => r == Ok(value) && session.View() == db
    case Err(error) => r == Err(error)
  }

  class SuppressionService {
    const identity: Identity

    constructor (identity: Identity)
      ensures this.identity == identity
    {
      this.identity := identity;
    }

    predicate IsSuppressed(session: PrivacySession, workspace: WorkspaceId, kind: Kind, fingerprint: Fingerprint)
      reads session
    {
      Suppressed(session.View(), workspace, kind, fingerprint)
    }

    method Suppress(session: PrivacySession, workspace: WorkspaceId, kind: Kind, value: string, scope: Scope)
      returns (r: Result<Suppression, Error>)
      modifies session`suppressions
      ensures var outcome := SuppressOutcome(identity, old(session.View()), workspace, kind, value, scope);
        && (r.Ok? <==> outcome.Ok?)
        && (if r.Ok? then session.View() == outcome.value && r.value in session.suppressions
            else r == Err(outcome.error) && session.View() == old(session.View()))
    {
      var fingerprint :- FingerprintOf(identity, kind, value);
      var record := Suppression(ScopeKeyOf(workspace, scope), kind, fingerprint);
      if record in session.suppressions {
        assert session.suppressions == session.suppressions + {record};
        return Ok(record);
      }
      session.suppressions := session.suppressions + {record};
      r := Ok(record);
    }
  }

  class ContactService {
    const suppression: SuppressionService

    constructor (suppression: SuppressionService)
      ensures this.suppression == suppression
    {
      this.suppression := suppression;
    }

    method Persist(session: PrivacySession, workspace: WorkspaceId, cutoff: int, candidates: seq<Candidate>)
      returns (r: Result<Counts, Error>)
      modifies session`contacts
      ensures Answers(
        session, PersistOutcome(suppression.identity, old(session.View()), workspace, cutoff, candidates), r)
    {
      ghost var db := session.View();
      var policy := PolicyOf(session.View(), workspace);
      var counts := NO_COUNTS;
      var i := 0;
      assert candidates[..0] == [];
      while i < |candidates|
        invariant 0 <= i <= |candidates|
        invariant PersistOutcome(suppression.identity, db, workspace, cutoff, candidates[..i])
               == Ok((session.View(), counts))
        invariant session.View() == db.(contacts := session.contacts)
      {
        assert candidates[..i + 1][..i] == candidates[..i];
        var c := candidates[i];
        var step := PersistOne(session, workspace, cutoff, policy, c, counts, db, candidates[..i]);
        if step.Err? {
          FailurePropagates(suppression.identity, db, workspace, cutoff, candidates, i + 1);
          return Err(step.error);
        }
        counts := step.value;
        i := i + 1;
      }
      assert candidates[..i] == candidates;
      r := Ok(counts);
    }

    /** The body of the loop: one contact is counted as expired, rejected, suppressed or persisted. */
    method PersistOne(
      session: PrivacySession, workspace: WorkspaceId, cutoff: int, policy: Option<Policy>, c: Candidate,
      counts: Counts, ghost db: Db, ghost front: seq<Candidate>)
      returns (r: Result<Counts, Error>)
      requires PersistOutcome(suppression.identity, db, workspace, cutoff, front) == Ok((session.View(), counts))
      requires session.View() == db.(contacts := session.contacts) && policy == PolicyOf(db, workspace)
      modifies session`contacts
      ensures Answers(session, PersistOutcome(suppression.identity, db, workspace, cutoff, front + [c]), r)
      ensures session.View() == db.(contacts := session.contacts)
    {
      assert (front + [c])[..|front|] == front;
      if c.point.expiresAt <= cutoff {
        return Ok(counts.(expired := counts.expired + 1));
      }
      if !Allowed(c.point, policy, c.clock) {
        return Ok(counts.(policyRejected := counts.policyRejected + 1));
      }
      var fingerprint :- FingerprintOf(suppression.identity, c.point.kind, c.point.value);
      if suppression.IsSuppressed(session, workspace, c.point.kind, fingerprint) {
        return Ok(counts.(suppressed := counts.suppressed + 1));
      }
      if c.id in session.contacts {
        return Err(IntegrityViolation);
      }
      session.contacts := session.contacts[c.id := ContactOf(workspace, c.point, fingerprint)];
      r := Ok(counts.(persisted := counts.persisted + 1));
    }
  }

  lemma {:induction false} FailurePropagates(
    identity: Identity, db: Db, workspace: WorkspaceId, cutoff: int, candidates: seq<Candidate>, k: nat)
    requires k <= |candidates| && PersistOutcome(identity, db, workspace, cutoff, candidates[..k]).Err?
    ensures PersistOutcome(identity, db, workspace, cutoff, candidates)
         == PersistOutcome(identity, db, workspace, cutoff, candidates[..k])
  {
    if k == |candidates| {
      assert candidates[..k] == candidates;
    } else {
      var front := candidates[..|candidates| - 1];
      assert front[..k] == candidates[..k];
      FailurePropagates(identity, db, workspace, cutoff, front, k);
    }
  }

  class DataSubjectRequestService {
    const suppression: SuppressionService

    constructor (suppression: SuppressionService)
      ensures this.suppression == suppression
    {
      this.suppression := suppression;
    }

    method EraseAndSuppress(
      session: PrivacySession, id: RequestId, workspace: WorkspaceId, kind: Kind, value: string, scope: Scope,
      requestKind: RequestKind)
      returns (r: Result<SubjectRequest, Error>)
      modifies session
      ensures Answers(
        session,
        EraseOutcome(suppression.identity, old(session.View()), id, workspace, kind, value, scope, requestKind), r)
    {
      if requestKind != Erasure && requestKind != Opposition {
        return Err(RequestKindRejected);
      }
      var fingerprint :- FingerprintOf(suppression.identity, kind, value);
      var existing :- ExistingRequest(session.View(), id, workspace, requestKind, kind, fingerprint);
      if existing.Some? {
        return Ok(existing.value);
      }
      var matched := Matching(session.View(), workspace, kind, fingerprint);
      var deleted := 0;
      if matched != {} {
        session.contacts := session.contacts - matched;
        deleted := |matched|;
      }
      var _ := suppression.Suppress(session, workspace, kind, value, scope);
      var request := SubjectRequest(workspace, requestKind, kind, fingerprint, deleted);
      session.requests := session.requests[id := request];
      session.audit := session.audit + [RequestCompleted(workspace, id, deleted)];
      assert old(session.contacts) - {} == old(session.contacts);
      r := Ok(request);
    }

    method RecordAccess(session: PrivacySession, id: RequestId, workspace: WorkspaceId, kind: Kind, value: string)
      returns (r: Result<SubjectRequest, Error>)
      modifies session`requests, session`audit
      ensures Answers(session, AccessOutcome(suppression.identity, old(session.View()), id, workspace, kind, value), r)
    {
      var fingerprint :- FingerprintOf(suppression.identity, kind, value);
      var existing :- ExistingRequest(session.View(), id, workspace, Access, kind, fingerprint);
      if existing.Some? {
        return Ok(existing.value);
      }
      var request := SubjectRequest(workspace, Access, kind, fingerprint, 0);
      session.requests := session.requests[id := request];
      session.audit := session.audit + [RequestCompleted(workspace, id, 0)];
      r := Ok(request);
    }

    method Rectify(
      session: PrivacySession, id: RequestId, workspace: WorkspaceId, kind: Kind, value: string,
      replacement: string, now: int, clock: int)
      returns (r: Result<SubjectRequest, Error>)
      modifies session
      ensures var db := old(session.View());
        var outcome := RectifyOutcome(suppression.identity, db, id, workspace, kind, value, replacement, now, clock);
        if outcome == Err(ReplacementRejected)
        then
          var fingerprint := FingerprintOf(suppression.identity, kind, value).value;
          r.Err? && RejectsSome(
            suppression.identity, db, workspace, Matching(db, workspace, kind, fingerprint), replacement, now, clock,
            r.error)
        else Answers(session, outcome, r)
    {
      if kind != Email {
        return Err(RectificationUnsupported);
      }
      var fingerprint :- FingerprintOf(suppression.identity, kind, value);
      var existing :- ExistingRequest(session.View(), id, workspace, Rectification, kind, fingerprint);
      if existing.Some? {
        return Ok(existing.value);
      }
      var matched := Matching(session.View(), workspace, kind, fingerprint);
      var rows := session.Select(matched);
      assert RowSet(rows) == matched;
      var request := SubjectRequest(workspace, Rectification, kind, fingerprint, 0);
      session.requests := session.requests[id := request];
      var _ :- RewriteRows(session, id, workspace, rows, replacement, now, clock, old(session.View()));
      var _ := suppression.Suppress(session, workspace, kind, value, InWorkspace);
      session.audit := session.audit + [RequestCompleted(workspace, id, |rows|)];
      r := Ok(request);
    }

    /** The loop of `rectify`, on the rows in the order in which they were read; the first one that is
        rejected raises. */
    method RewriteRows(
      session: PrivacySession, id: RequestId, workspace: WorkspaceId, rows: seq<ContactId>, replacement: string,
      now: int, clock: int, ghost db: Db)
      returns (r: Result<(), Error>)
      requires (forall c :: c in rows ==> c in session.contacts)
      requires forall i, j | 0 <= i < j < |rows| :: rows[i] != rows[j]
      requires session.View() == db.(requests := session.requests)
      modifies session`contacts
      ensures RowSet(rows) <= db.contacts.Keys
      ensures r.Ok? <==> Rectifiable(suppression.identity, db, workspace, RowSet(rows), replacement, now, clock)
      ensures r.Err? ==>
        RejectsSome(suppression.identity, db, workspace, RowSet(rows), replacement, now, clock, r.error)
      ensures r.Ok? ==>
        session.contacts == Rewritten(suppression.identity, db, RowSet(rows), id, replacement, now).contacts
    {
      var i := 0;
      assert Rewritten(suppression.identity, db, {}, id, replacement, now).contacts == session.contacts;
      while i < |rows|
        invariant 0 <= i <= |rows|
        invariant session.contacts
               == Rewritten(suppression.identity, db, RowSet(rows[..i]), id, replacement, now).contacts
        invariant Rectifiable(suppression.identity, db, workspace, RowSet(rows[..i]), replacement, now, clock)
      {
        var c := rows[i];
        assert c !in RowSet(rows[..i]) && session.contacts[c] == db.contacts[c];
        var rewritten := RewriteRow(session, id, workspace, session.contacts[c], replacement, now, clock, db);
        if rewritten.Err? {
          assert c in RowSet(rows);
          return Err(rewritten.error);
        }
        session.contacts := session.contacts[c := rewritten.value];
        OneMoreRow(rows, i);
        RewrittenStep(suppression.identity, db, RowSet(rows[..i]), c, id, replacement, now);
        i := i + 1;
      }
      assert rows[..i] == rows;
      r := Ok(());
    }

    /** The body of the loop: the row with its fields reassigned. */
    method RewriteRow(
      session: PrivacySession, id: RequestId, workspace: WorkspaceId, row: Contact, replacement: string,
      now: int, clock: int, ghost db: Db)
      returns (r: Result<Contact, Error>)
      requires session.suppressions == db.suppressions && session.policies == db.policies
      ensures var rejection := RowRejection(suppression.identity, db, workspace, row, replacement, now, clock);
        if rejection.Some? then r == Err(rejection.value)
        else
          && Replacement(suppression.identity, replacement, now).Some?
          && var (point, fingerprint) := Replacement(suppression.identity, replacement, now).value;
          r == Ok(RowRectified(row, id, point, fingerprint))
    {
      var point := FromEmail(suppression.identity, replacement, now);
      if point.None? {
        return Err(IdentifierInvalid);
      }
      if !row.source.Website? {
        return Err(SourceMissing);
      }
      if !Allowed(point.value, PolicyOf(session.View(), workspace), clock) {
        return Err(PolicyBlocked);
      }
      var fingerprint :- FingerprintOf(suppression.identity, Email, point.value.value);
      if suppression.IsSuppressed(session, workspace, Email, fingerprint) {
        return Err(ReplacementSuppressed);
      }
      var item := row;
      item := item.(value := point.value.value);
      item := item.(fingerprint := fingerprint);
      item := item.(source := Subject(id));
      item := item.(collectedAt := point.value.collectedAt);
      item := item.(classification := point.value.classification);
      item := item.(expiresAt := point.value.expiresAt);
      r := Ok(item);
    }
  }

  lemma OneMoreRow(rows: seq<ContactId>, i: nat)
    requires i < |rows|
    ensures RowSet(rows[..i + 1]) == RowSet(rows[..i]) + {rows[i]}
  {
    assert rows[..i + 1] == rows[..i] + [rows[i]];
  }

  lemma RewrittenStep(
    identity: Identity, db: Db, done: set<ContactId>, c: ContactId, id: RequestId, replacement: string, now: int)
    requires c in db.contacts && c !in done && Replacement(identity, replacement, now).Some?
    ensures var (point, fingerprint) := Replacement(identity, replacement, now).value;
      Rewritten(identity, db, done + {c}, id, replacement, now).contacts
      == Rewritten(identity, db, done, id, replacement, now)
         .contacts[c := RowRectified(db.contacts[c], id, point, fingerprint)]
  {
  }

  /** The error is what some row of the selection raises. */
  ghost predicate RejectsSome(
    identity: Identity, db: Db, workspace: WorkspaceId, rows: set<ContactId>, replacement: string, now: int, clock: int,
    error: Error)
    requires rows <= db.contacts.Keys
  {
    exists c :: c in rows
      && RowRejection(identity, db, workspace, db.contacts[c], replacement, now, clock) == Some(error)
  }

  class PrivacyExportService {
    const suppression: SuppressionService

    constructor (suppression: SuppressionService)
      ensures this.suppression == suppression
    {
      this.suppression := suppression;
    }

    method ExportableContacts(session: PrivacySession, workspace: WorkspaceId, now: int)
      returns (r: Result<seq<ContactId>, Error>)
      modifies session`contacts, session`retention
      ensures Exports(suppression.identity, old(session.View()), workspace, now, r)
      ensures r.Ok? ==> session.View() == Purged(old(session.View()), workspace, now)
    {
      var gone := ExpiredIds(session.View(), workspace, now);
      session.contacts := session.contacts - gone;
      if gone != {} {
        session.retention := session.retention + [RetentionEvent(workspace, true, |gone|, now)];
      }
      assert session.View() == Purged(old(session.View()), workspace, now);
      var mine := RowsOf(session.View(), workspace);
      var rows := session.SelectOrdered(ByValue(suppression.identity.collate), mine);
      RankedIsAnAnswer(suppression.identity.collate, session.contacts, mine);
      r := AllowedRows(session, workspace, rows);
    }

    /** The loop of `exportable_contacts`. */
    method AllowedRows(session: PrivacySession, workspace: WorkspaceId, rows: seq<ContactId>)
      returns (r: Result<seq<ContactId>, Error>)
      requires forall x | x in rows :: x in session.contacts
      ensures r == ExportRows(suppression.identity, session.View(), workspace, rows)
    {
      var policy := PolicyOf(session.View(), workspace);
      var allowed: seq<ContactId> := [];
      var i := 0;
      while i < |rows|
        invariant 0 <= i <= |rows|
        invariant ExportRows(suppression.identity, session.View(), workspace, rows[..i]) == Ok(allowed)
      {
        assert rows[..i + 1][..i] == rows[..i];
        var contact := session.contacts[rows[i]];
        var fingerprint := FingerprintOf(suppression.identity, contact.kind, contact.value);
        if fingerprint.Err? {
          BlockPropagates(suppression.identity, session.View(), workspace, rows, i + 1);
          return Err(fingerprint.error);
        }
        if !suppression.IsSuppressed(session, workspace, contact.kind, fingerprint.value) {
          if contact.classification == Named {
            if !Complete(policy) || contact.expiresAt > contact.collectedAt + policy.value.namedDays * DAY {
              BlockPropagates(suppression.identity, session.View(), workspace, rows, i + 1);
              return Err(ExportBlocked);
            }
          }
          allowed := allowed + [rows[i]];
        }
        i := i + 1;
      }
      assert rows[..i] == rows;
      r := Ok(allowed);
    }
  }

  lemma {:induction false} BlockPropagates(
    identity: Identity, db: Db, workspace: WorkspaceId, rows: seq<ContactId>, k: nat)
    requires k <= |rows| && forall x | x in rows :: x in db.contacts
    requires ExportRows(identity, db, workspace, rows[..k]).Err?
    ensures ExportRows(identity, db, workspace, rows) == ExportRows(identity, db, workspace, rows[..k])
  {
    if k == |rows| {
      assert rows[..k] == rows;
    } else {
      var front := rows[..|rows| - 1];
      assert front[..k] == rows[..k];
      BlockPropagates(identity, db, workspace, front, k);
    }
  }

  class RetentionWorker {
    var committed: Db

    constructor (origin: Db)
      ensures committed == origin
    {
      committed := origin;
    }

    method RunRetentionBatch(session: PrivacySession, workspace: WorkspaceId, cutoff: int, size: int)
      returns (r: Result<BatchResult, Error>)
      modifies session`contacts, session`retention
      ensures Answers(session, RetentionOutcome(old(session.View()), workspace, cutoff, size), r)
    {
      if !(1 <= size <= MAX_BATCH) {
        return Err(BatchSizeRejected);
      }
      var expired := session.SelectOrdered(ByExpiry, ExpiredIds(session.View(), workspace, cutoff));
      RankedIsTheQuery(ByExpiry, session.contacts, ExpiredIds(session.View(), workspace, cutoff));
      var batch := expired[..Min(size, |expired|)];
      var deleted := 0;
      if batch != [] {
        session.contacts := session.contacts - RowSet(batch);
        deleted := |batch|;
      } else {
        assert session.contacts - RowSet(batch) == session.contacts;
      }
      session.retention := session.retention + [RetentionEvent(workspace, false, deleted, cutoff)];
      r := Ok(BatchResult(deleted, |batch| == size));
    }

    /** `enforce_workspace_retention` and the messages it sends itself; run k reads the time `clock(k)`. */
    method EnforceWorkspaceRetention(workspace: WorkspaceId, clock: nat -> int, size: int) returns (runs: nat)
      requires 1 <= size <= MAX_BATCH
      modifies this
      ensures committed == Drain(old(committed), workspace, clock, 0, size).db
      ensures runs == |Drain(old(committed), workspace, clock, 0, size).logged|
    {
      var queued := true;
      runs := 0;
      while queued
        invariant var drained := Drain(old(committed), workspace, clock, 0, size);
          if queued
          then drained.db == Drain(committed, workspace, clock, runs, size).db
            && |drained.logged| == runs + |Drain(committed, workspace, clock, runs, size).logged|
          else committed == drained.db && runs == |drained.logged|
        decreases queued, |committed.contacts|
      {
        var session := new PrivacySession(committed);
        var result := RunRetentionBatch(session, workspace, clock(runs), size);
        if result.value.hasMore {
          FullBatchShrinks(committed, workspace, clock(runs), size);
        }
        committed := session.View();
        runs := runs + 1;
        queued := result.value.hasMore;
      }
    }
  }
}
