/** What each privacy operation does to the store, one service call being one transaction
    (src/application/contacts.py, src/application/data_subject_requests.py, src/application/suppression.py,
    src/application/privacy_policy.py, src/workers/retention.py). */
module Privacy {
  import opened Basics
  import opened Outcomes
  import opened Contacts
  import opened Queries

  // ----- Persisting contacts -----

  /** A contact to persist: the id drawn for its row, and the gate's own reading of the clock. */
  datatype Candidate = Candidate(id: ContactId, point: ContactPoint, clock: int)

  datatype Verdict = Expired | PolicyRejected | SuppressedContact | Persisted(fingerprint: Fingerprint)

  datatype Counts = Counts(persisted: nat, suppressed: nat, policyRejected: nat, expired: nat)

  const NO_COUNTS := Counts(0, 0, 0, 0)

  function Judge(identity: Identity, db: Db, workspace: WorkspaceId, cutoff: int, c: Candidate)
    : Result<Verdict, Error>
  {
    if c.point.expiresAt <= cutoff then Ok(Expired)
    else if !Allowed(c.point, PolicyOf(db, workspace), c.clock) then Ok(PolicyRejected)
    else
      var fingerprint :- FingerprintOf(identity, c.point.kind, c.point.value);
      Ok(if Suppressed(db, workspace, c.point.kind, fingerprint) then SuppressedContact else Persisted(fingerprint))
  }

  function ContactOf(workspace: WorkspaceId, p: ContactPoint, fingerprint: Fingerprint): Contact {
    Contact(workspace, p.kind, p.value, fingerprint, Website, p.classification, p.collectedAt, p.expiresAt)
  }

  function Counted(counts: Counts, verdict: Verdict): Counts {
    match verdict
    case Expired => counts.(expired := counts.expired + 1)
    case PolicyRejected => counts.(policyRejected := counts.policyRejected + 1)
    case SuppressedContact => counts.(suppressed := counts.suppressed + 1)
    case Persisted(_) => counts.(persisted := counts.persisted + 1)
  }

  function PersistOutcome(identity: Identity, db: Db, workspace: WorkspaceId, cutoff: int, candidates: seq<Candidate>)
    : Result<(Db, Counts), Error>
  {
    if candidates == [] then Ok((db, NO_COUNTS))
    else
      var c := candidates[|candidates| - 1];
      var (so, counts) :- PersistOutcome(identity, db, workspace, cutoff, candidates[..|candidates| - 1]);
      var verdict :- Judge(identity, db, workspace, cutoff, c);
      if !verdict.Persisted? then Ok((so, Counted(counts, verdict)))
      else if c.id in so.contacts then Err(IntegrityViolation)
      else
        var row := ContactOf(workspace, c.point, verdict.fingerprint);
        Ok((so.(contacts := so.contacts[c.id := row]), Counted(counts, verdict)))
  }

  // ----- Suppressing -----

  function WithSuppression(db: Db, workspace: WorkspaceId, kind: Kind, fingerprint: Fingerprint, scope: Scope): Db {
    db.(suppressions := db.suppressions + {Suppression(ScopeKeyOf(workspace, scope), kind, fingerprint)})
  }

  function SuppressOutcome(identity: Identity, db: Db, workspace: WorkspaceId, kind: Kind, value: string, scope: Scope)
    : Result<Db, Error>
  {
    var fingerprint :- FingerprintOf(identity, kind, value);
    Ok(WithSuppression(db, workspace, kind, fingerprint, scope))
  }

  // ----- Data-subject requests -----

  predicate Matches(contact: Contact, workspace: WorkspaceId, kind: Kind, fingerprint: Fingerprint) {
    contact.workspace == workspace && contact.kind == kind && contact.fingerprint == fingerprint
  }

  function Matching(db: Db, workspace: WorkspaceId, kind: Kind, fingerprint: Fingerprint): set<ContactId> {
    set c | c in db.contacts && Matches(db.contacts[c], workspace, kind, fingerprint)
  }

  predicate SameSubject(
    row: SubjectRequest, workspace: WorkspaceId, requestKind: RequestKind, kind: Kind, fingerprint: Fingerprint)
  {
    row.workspace == workspace && row.requestKind == requestKind && row.kind == kind && row.fingerprint == fingerprint
  }

  /** None for an id not used yet; an id bound to another subject raises. */
  function ExistingRequest(
    db: Db, id: RequestId, workspace: WorkspaceId, requestKind: RequestKind, kind: Kind, fingerprint: Fingerprint)
    : Result<Option<SubjectRequest>, Error>
  {
    if id !in db.requests then Ok(None)
    else if SameSubject(db.requests[id], workspace, requestKind, kind, fingerprint) then Ok(Some(db.requests[id]))
    else Err(RequestIdReused)
  }

  function Recorded(db: Db, id: RequestId, row: SubjectRequest, count: nat): Db {
    db.(requests := db.requests[id := row], audit := db.audit + [RequestCompleted(row.workspace, id, count)])
  }

  function Erased(db: Db, workspace: WorkspaceId, kind: Kind, fingerprint: Fingerprint, scope: Scope): Db {
    WithSuppression(
      db.(contacts := db.contacts - Matching(db, workspace, kind, fingerprint)), workspace, kind, fingerprint, scope)
  }

  function EraseOutcome(
    identity: Identity, db: Db, id: RequestId, workspace: WorkspaceId, kind: Kind, value: string, scope: Scope,
    requestKind: RequestKind): Result<(Db, SubjectRequest), Error>
  {
    if requestKind != Erasure && requestKind != Opposition then Err(RequestKindRejected)
    else
      var fingerprint :- FingerprintOf(identity, kind, value);
      var existing :- ExistingRequest(db, id, workspace, requestKind, kind, fingerprint);
      if existing.Some? then Ok((db, existing.value))
      else
        var count := |Matching(db, workspace, kind, fingerprint)|;
        var row := SubjectRequest(workspace, requestKind, kind, fingerprint, count);
        Ok((Recorded(Erased(db, workspace, kind, fingerprint, scope), id, row, count), row))
  }

  function AccessOutcome(identity: Identity, db: Db, id: RequestId, workspace: WorkspaceId, kind: Kind, value: string)
    : Result<(Db, SubjectRequest), Error>
  {
    var fingerprint :- FingerprintOf(identity, kind, value);
    var existing :- ExistingRequest(db, id, workspace, Access, kind, fingerprint);
    if existing.Some? then Ok((db, existing.value))
    else
      var row := SubjectRequest(workspace, Access, kind, fingerprint, 0);
      Ok((Recorded(db, id, row, 0), row))
  }

  /** The contact and fingerprint a rectified row takes over; None where building them raises. */
  function Replacement(identity: Identity, value: string, now: int): Option<(ContactPoint, Fingerprint)> {
    match FromEmail(identity, value, now)
    case None => None
    case Some(point) =>
      match FingerprintOf(identity, Email, point.value)
      case Ok(fingerprint) => Some((point, fingerprint))
      case Err(_) => None
  }

  /** Why the loop of `rectify` raises on a row, if it does. The row must still have its source URL, since
      the replacement is built as a contact of that URL. */
  function RowRejection(
    identity: Identity, db: Db, workspace: WorkspaceId, contact: Contact, replacement: string, now: int, clock: int)
    : Option<Error>
  {
    var point := FromEmail(identity, replacement, now);
    if point.None? then Some(IdentifierInvalid)
    else if !contact.source.Website? then Some(SourceMissing)
    else if !Allowed(point.value, PolicyOf(db, workspace), clock) then Some(PolicyBlocked)
    else
      match FingerprintOf(identity, Email, point.value.value)
      case Err(error) => Some(error)
      case Ok(fingerprint) =>
        if Suppressed(db, workspace, Email, fingerprint) then Some(ReplacementSuppressed) else None
  }

  predicate RowRectifiable(
    identity: Identity, db: Db, workspace: WorkspaceId, contact: Contact, replacement: string, now: int, clock: int)
  {
    RowRejection(identity, db, workspace, contact, replacement, now, clock).None?
  }

  function RowRectified(contact: Contact, id: RequestId, point: ContactPoint, fingerprint: Fingerprint): Contact {
    Contact(
      contact.workspace, contact.kind, point.value, fingerprint, Subject(id), point.classification,
      point.collectedAt, point.expiresAt)
  }

  predicate Rectifiable(
    identity: Identity, db: Db, workspace: WorkspaceId, rows: set<ContactId>, replacement: string, now: int, clock: int)
    requires rows <= db.contacts.Keys
  {
    forall c | c in rows :: RowRectifiable(identity, db, workspace, db.contacts[c], replacement, now, clock)
  }

  function Rewritten(identity: Identity, db: Db, rows: set<ContactId>, id: RequestId, replacement: string, now: int)
    : Db
  {
    match Replacement(identity, replacement, now)
    case None => db
    case Some((point, fingerprint)) =>
      db.(contacts := map c | c in db.contacts ::
        if c in rows then RowRectified(db.contacts[c], id, point, fingerprint) else db.contacts[c])
  }

  /** `ReplacementRejected` stands for what a rejected row raises, whichever of them is read first. */
  function RectifyOutcome(
    identity: Identity, db: Db, id: RequestId, workspace: WorkspaceId, kind: Kind, value: string,
    replacement: string, now: int, clock: int): Result<(Db, SubjectRequest), Error>
  {
    if kind != Email then Err(RectificationUnsupported)
    else
      var fingerprint :- FingerprintOf(identity, kind, value);
      var existing :- ExistingRequest(db, id, workspace, Rectification, kind, fingerprint);
      if existing.Some? then Ok((db, existing.value))
      else
        var rows := Matching(db, workspace, kind, fingerprint);
        if !Rectifiable(identity, db, workspace, rows, replacement, now, clock) then Err(ReplacementRejected)
        else
          var row := SubjectRequest(workspace, Rectification, kind, fingerprint, 0);
          var rewritten := Rewritten(identity, db, rows, id, replacement, now);
          var suppressed := WithSuppression(rewritten, workspace, kind, fingerprint, InWorkspace);
          Ok((Recorded(suppressed, id, row, |rows|), row))
  }

  // ----- Policies, exports and retention -----

  function PutPolicyOutcome(db: Db, workspace: WorkspaceId, policy: Policy): Result<Db, Error> {
    if !PolicyValid(policy) then Err(PolicyInvalid) else Ok(db.(policies := db.policies[workspace := policy]))
  }

  function ExpiredIds(db: Db, workspace: WorkspaceId, cutoff: int): set<ContactId> {
    set c | c in db.contacts && db.contacts[c].workspace == workspace && db.contacts[c].expiresAt <= cutoff
  }

  function RowsOf(db: Db, workspace: WorkspaceId): set<ContactId> {
    set c | c in db.contacts && db.contacts[c].workspace == workspace
  }

  /** Deleting a workspace's expired contacts in one statement; an event says how many, if any. */
  function Purged(db: Db, workspace: WorkspaceId, cutoff: int): Db {
    var gone := ExpiredIds(db, workspace, cutoff);
    db.(
      contacts := db.contacts - gone,
      retention := db.retention + if gone == {} then [] else [RetentionEvent(workspace, true, |gone|, cutoff)])
  }

  /** A named contact the export may not contain: the policy is incomplete or allows less time. */
  predicate Overdue(contact: Contact, policy: Option<Policy>) {
    && contact.classification == Named
    && (!Complete(policy) || contact.expiresAt > contact.collectedAt + policy.value.namedDays * DAY)
  }

  function ExportRows(identity: Identity, db: Db, workspace: WorkspaceId, rows: seq<ContactId>)
    : Result<seq<ContactId>, Error>
    requires forall x | x in rows :: x in db.contacts
  {
    if rows == [] then Ok([])
    else
      var last := rows[|rows| - 1];
      var contact := db.contacts[last];
      var allowed :- ExportRows(identity, db, workspace, rows[..|rows| - 1]);
      var fingerprint :- FingerprintOf(identity, contact.kind, contact.value);
      if Suppressed(db, workspace, contact.kind, fingerprint) then Ok(allowed)
      else if Overdue(contact, PolicyOf(db, workspace)) then Err(ExportBlocked)
      else Ok(allowed + [last])
  }

  /** What an export may answer, the query returning its rows in any order the collation allows. */
  ghost predicate Exports(
    identity: Identity, db: Db, workspace: WorkspaceId, now: int, r: Result<seq<ContactId>, Error>)
  {
    var purged := Purged(db, workspace, now);
    exists rows ::
      && IsAnswer(identity.collate, purged.contacts, RowsOf(purged, workspace), rows)
      && r == ExportRows(identity, purged, workspace, rows)
  }

  /** The answer in which rows with equal sort keys come by id. */
  ghost function ExportOutcome(identity: Identity, db: Db, workspace: WorkspaceId, now: int)
    : Result<(Db, seq<ContactId>), Error>
  {
    var purged, order := Purged(db, workspace, now), ByValue(identity.collate);
    RankedIsTheQuery(order, purged.contacts, RowsOf(purged, workspace));
    var exported :- ExportRows(identity, purged, workspace, Ranked(order, purged.contacts, RowsOf(purged, workspace)));
    Ok((purged, exported))
  }

  const MAX_BATCH: int := 5000

  /** The batch a retention run takes: the first rows by expiry. */
  ghost function Batch(db: Db, workspace: WorkspaceId, cutoff: int, size: nat): seq<ContactId> {
    var expired := Ranked(ByExpiry, db.contacts, ExpiredIds(db, workspace, cutoff));
    expired[..Min(size, |expired|)]
  }

  datatype BatchResult = BatchResult(deleted: nat, hasMore: bool)

  ghost function RetentionOutcome(db: Db, workspace: WorkspaceId, cutoff: int, size: int)
    : Result<(Db, BatchResult), Error>
  {
    if !(1 <= size <= MAX_BATCH) then Err(BatchSizeRejected)
    else
      var batch := Batch(db, workspace, cutoff, size);
      var after := db.(
        contacts := db.contacts - RowSet(batch),
        retention := db.retention + [RetentionEvent(workspace, false, |batch|, cutoff)]);
      Ok((after, BatchResult(|batch|, |batch| == size)))
  }

  // ----- Calls and runs -----

  datatype Call =
    | Persist(workspace: WorkspaceId, cutoff: int, candidates: seq<Candidate>)
    | Erase(id: RequestId, workspace: WorkspaceId, kind: Kind, value: string, scope: Scope, requestKind: RequestKind)
    | RecordAccess(id: RequestId, workspace: WorkspaceId, kind: Kind, value: string)
    | Rectify(
        id: RequestId, workspace: WorkspaceId, kind: Kind, value: string, replacement: string, now: int, clock: int)
    | Suppress(workspace: WorkspaceId, kind: Kind, value: string, scope: Scope)
    | PutPolicy(workspace: WorkspaceId, policy: Policy)
    | Export(workspace: WorkspaceId, now: int)
    | Retain(workspace: WorkspaceId, cutoff: int, size: int)

  function Kept<T>(outcome: Result<(Db, T), Error>): Result<Db, Error> {
    match outcome
    case Ok((db, _)) => Ok(db)
    case Err(error) => Err(error)
  }

  ghost function Execute(identity: Identity, db: Db, call: Call): Result<Db, Error> {
    match call
    case Persist(workspace, cutoff, candidates) => Kept(PersistOutcome(identity, db, workspace, cutoff, candidates))
    case Erase(id, workspace, kind, value, scope, requestKind) =>
      Kept(EraseOutcome(identity, db, id, workspace, kind, value, scope, requestKind))
    case RecordAccess(id, workspace, kind, value) => Kept(AccessOutcome(identity, db, id, workspace, kind, value))
    case Rectify(id, workspace, kind, value, replacement, now, clock) =>
      Kept(RectifyOutcome(identity, db, id, workspace, kind, value, replacement, now, clock))
    case Suppress(workspace, kind, value, scope) => SuppressOutcome(identity, db, workspace, kind, value, scope)
    case PutPolicy(workspace, policy) => PutPolicyOutcome(db, workspace, policy)
    case Export(workspace, now) => Kept(ExportOutcome(identity, db, workspace, now))
    case Retain(workspace, cutoff, size) => Kept(RetentionOutcome(db, workspace, cutoff, size))
  }

  /** A call that raises is rolled back. */
  ghost function Commit(identity: Identity, db: Db, call: Call): Db {
    match Execute(identity, db, call)
    case Ok(after) => after
    case Err(_) => db
  }

  ghost function CommitAll(identity: Identity, db: Db, calls: seq<Call>): Db {
    if calls == [] then db
    else Commit(identity, CommitAll(identity, db, calls[..|calls| - 1]), calls[|calls| - 1])
  }
}
