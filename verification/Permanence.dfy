/** What every run of privacy calls keeps: erasure is permanent, request ids stay bound to their subject,
    stored contacts carry their own fingerprint and never outlive ninety days when they name a person. */
module Permanence {
  import opened Basics
  import opened Outcomes
  import opened Contacts
  import opened Queries
  import opened Privacy

  predicate Honours(row: SubjectRequest) {
    row.requestKind == Erasure || row.requestKind == Opposition
  }

  ghost predicate Absent(db: Db, workspace: WorkspaceId, kind: Kind, fingerprint: Fingerprint) {
    forall c | c in db.contacts :: !Matches(db.contacts[c], workspace, kind, fingerprint)
  }

  /** Suppressed in the workspace, and no contact stored there. */
  ghost predicate Silenced(db: Db, workspace: WorkspaceId, kind: Kind, fingerprint: Fingerprint) {
    Suppressed(db, workspace, kind, fingerprint) && Absent(db, workspace, kind, fingerprint)
  }

  ghost predicate Honoured(db: Db) {
    forall id | id in db.requests && Honours(db.requests[id]) ::
      Silenced(db, db.requests[id].workspace, db.requests[id].kind, db.requests[id].fingerprint)
  }

  predicate Tagged(identity: Identity, contact: Contact) {
    FingerprintOf(identity, contact.kind, contact.value) == Ok(contact.fingerprint)
  }

  predicate Bounded(contact: Contact) {
    contact.classification == Named ==> contact.expiresAt <= contact.collectedAt + NAMED_DAYS * DAY
  }

  ghost predicate ContactsSound(identity: Identity, db: Db) {
    forall c | c in db.contacts :: Tagged(identity, db.contacts[c]) && Bounded(db.contacts[c])
  }

  ghost predicate PoliciesSound(db: Db) {
    forall w | w in db.policies :: PolicyValid(db.policies[w])
  }

  ghost predicate Sound(identity: Identity, db: Db) {
    Honoured(db) && ContactsSound(identity, db) && PoliciesSound(db)
  }

  // ----- Which contacts a call may leave behind -----

  /** Every stored row was there before, or is unsuppressed in its workspace. */
  ghost predicate OnlyUnsuppressedAppear(before: Db, after: Db) {
    forall c | c in after.contacts ::
      var row := after.contacts[c];
      || (c in before.contacts && row == before.contacts[c])
      || !Suppressed(before, row.workspace, row.kind, row.fingerprint)
  }

  lemma SilencedStays(
    before: Db, after: Db, workspace: WorkspaceId, kind: Kind, fingerprint: Fingerprint)
    requires before.suppressions <= after.suppressions && OnlyUnsuppressedAppear(before, after)
    requires Silenced(before, workspace, kind, fingerprint)
    ensures Silenced(after, workspace, kind, fingerprint)
  {
  }

  lemma HonouredStays(before: Db, after: Db)
    requires before.suppressions <= after.suppressions && OnlyUnsuppressedAppear(before, after)
    requires Honoured(before)
    requires forall id | id in after.requests && Honours(after.requests[id]) ::
      || (id in before.requests && before.requests[id] == after.requests[id])
      || Silenced(after, after.requests[id].workspace, after.requests[id].kind, after.requests[id].fingerprint)
    ensures Honoured(after)
  {
    forall id | id in after.requests && Honours(after.requests[id])
      ensures Silenced(after, after.requests[id].workspace, after.requests[id].kind, after.requests[id].fingerprint)
    {
      var row := after.requests[id];
      if id in before.requests && before.requests[id] == row {
        SilencedStays(before, after, row.workspace, row.kind, row.fingerprint);
      }
    }
  }

  // ----- Persisting -----

  /** The state of a loop that has judged some candidates: only rows were added, each of them sound and
      unsuppressed. */
  ghost predicate PersistedFrom(identity: Identity, db: Db, so: Db) {
    && so == db.(contacts := so.contacts)
    && OnlyUnsuppressedAppear(db, so) && ContactsSound(identity, so)
  }

  lemma JudgedIsSound(identity: Identity, db: Db, workspace: WorkspaceId, cutoff: int, c: Candidate)
    requires PoliciesSound(db)
    requires var v := Judge(identity, db, workspace, cutoff, c); v.Ok? && v.value.Persisted?
    ensures var row := ContactOf(workspace, c.point, Judge(identity, db, workspace, cutoff, c).value.fingerprint);
      && Tagged(identity, row) && Bounded(row)
      && !Suppressed(db, row.workspace, row.kind, row.fingerprint)
  {
    if c.point.classification == Named {
      var policy := PolicyOf(db, workspace);
      assert policy.value.namedDays * DAY <= NAMED_DAYS * DAY;
    }
  }

  lemma {:induction false} PersistAddsSoundRows(
    identity: Identity, db: Db, workspace: WorkspaceId, cutoff: int, candidates: seq<Candidate>)
    requires ContactsSound(identity, db) && PoliciesSound(db)
    requires PersistOutcome(identity, db, workspace, cutoff, candidates).Ok?
    ensures PersistedFrom(identity, db, PersistOutcome(identity, db, workspace, cutoff, candidates).value.0)
  {
    if candidates != [] {
      var front, c := candidates[..|candidates| - 1], candidates[|candidates| - 1];
      PersistAddsSoundRows(identity, db, workspace, cutoff, front);
      if Judge(identity, db, workspace, cutoff, c).value.Persisted? {
        JudgedIsSound(identity, db, workspace, cutoff, c);
      }
    }
  }

  predicate Persists(identity: Identity, db: Db, workspace: WorkspaceId, cutoff: int, c: Candidate) {
    var verdict := Judge(identity, db, workspace, cutoff, c);
    verdict.Ok? && verdict.value.Persisted?
  }

  predicate RowStored(identity: Identity, db: Db, so: Db, workspace: WorkspaceId, cutoff: int, c: Candidate) {
    Persists(identity, db, workspace, cutoff, c) ==>
      && c.id !in db.contacts && c.id in so.contacts
      && so.contacts[c.id] == ContactOf(workspace, c.point, Judge(identity, db, workspace, cutoff, c).value.fingerprint)
  }

  ghost predicate RowExplained(
    identity: Identity, db: Db, so: Db, workspace: WorkspaceId, cutoff: int, candidates: seq<Candidate>, id: ContactId)
    requires id in so.contacts
  {
    || (id in db.contacts && so.contacts[id] == db.contacts[id])
    || exists c :: c in candidates && c.id == id && Persists(identity, db, workspace, cutoff, c)
  }

  /** `persist` stores exactly the candidates that are neither expired, nor refused by the policy, nor
      suppressed; no other row changes, and each candidate is counted once. */
  lemma PersistIsExact(
    identity: Identity, db: Db, workspace: WorkspaceId, cutoff: int, candidates: seq<Candidate>)
    requires PersistOutcome(identity, db, workspace, cutoff, candidates).Ok?
    ensures var (so, counts) := PersistOutcome(identity, db, workspace, cutoff, candidates).value;
      && counts.persisted + counts.suppressed + counts.policyRejected + counts.expired == |candidates|
      && |so.contacts| == |db.contacts| + counts.persisted
      && (forall c | c in candidates :: RowStored(identity, db, so, workspace, cutoff, c))
      && (forall id | id in db.contacts :: id in so.contacts && so.contacts[id] == db.contacts[id])
      && (forall id | id in so.contacts :: RowExplained(identity, db, so, workspace, cutoff, candidates, id))
  {
    PersistCounts(identity, db, workspace, cutoff, candidates);
    PersistRows(identity, db, workspace, cutoff, candidates);
  }

  lemma {:induction false} PersistCounts(
    identity: Identity, db: Db, workspace: WorkspaceId, cutoff: int, candidates: seq<Candidate>)
    requires PersistOutcome(identity, db, workspace, cutoff, candidates).Ok?
    ensures var (so, counts) := PersistOutcome(identity, db, workspace, cutoff, candidates).value;
      && counts.persisted + counts.suppressed + counts.policyRejected + counts.expired == |candidates|
      && |so.contacts| == |db.contacts| + counts.persisted
  {
    if candidates != [] {
      PersistCounts(identity, db, workspace, cutoff, candidates[..|candidates| - 1]);
    }
  }

  lemma {:induction false} PersistRows(
    identity: Identity, db: Db, workspace: WorkspaceId, cutoff: int, candidates: seq<Candidate>)
    requires PersistOutcome(identity, db, workspace, cutoff, candidates).Ok?
    ensures var so := PersistOutcome(identity, db, workspace, cutoff, candidates).value.0;
      && (forall c | c in candidates :: RowStored(identity, db, so, workspace, cutoff, c))
      && (forall id | id in db.contacts :: id in so.contacts && so.contacts[id] == db.contacts[id])
      && (forall id | id in so.contacts :: RowExplained(identity, db, so, workspace, cutoff, candidates, id))
  {
    if candidates != [] {
      var front, last := candidates[..|candidates| - 1], candidates[|candidates| - 1];
      assert candidates == front + [last];
      PersistRows(identity, db, workspace, cutoff, front);
      PersistGrows(identity, db, workspace, cutoff, front, last);
    }
  }

  /** One more candidate, given what the ones before it stored. */
  lemma PersistGrows(
    identity: Identity, db: Db, workspace: WorkspaceId, cutoff: int, front: seq<Candidate>, last: Candidate)
    requires PersistOutcome(identity, db, workspace, cutoff, front + [last]).Ok?
    requires PersistOutcome(identity, db, workspace, cutoff, front).Ok?
    requires var so := PersistOutcome(identity, db, workspace, cutoff, front).value.0;
      && (forall c | c in front :: RowStored(identity, db, so, workspace, cutoff, c))
      && (forall id | id in db.contacts :: id in so.contacts && so.contacts[id] == db.contacts[id])
      && (forall id | id in so.contacts :: RowExplained(identity, db, so, workspace, cutoff, front, id))
    ensures var so := PersistOutcome(identity, db, workspace, cutoff, front + [last]).value.0;
      && (forall c | c in front + [last] :: RowStored(identity, db, so, workspace, cutoff, c))
      && (forall id | id in db.contacts :: id in so.contacts && so.contacts[id] == db.contacts[id])
      && (forall id | id in so.contacts :: RowExplained(identity, db, so, workspace, cutoff, front + [last], id))
  {
    assert (front + [last])[..|front|] == front;
    var before := PersistOutcome(identity, db, workspace, cutoff, front).value.0;
    var so := PersistOutcome(identity, db, workspace, cutoff, front + [last]).value.0;
    assert last in front + [last];
    forall id | id in so.contacts ensures RowExplained(identity, db, so, workspace, cutoff, front + [last], id) {
      if id in before.contacts && id !in db.contacts {
        var c :| c in front && c.id == id && Persists(identity, db, workspace, cutoff, c);
        assert c in front + [last];
      }
    }
  }

  // ----- Each call keeps the invariant -----

  lemma PersistKeeps(identity: Identity, db: Db, workspace: WorkspaceId, cutoff: int, candidates: seq<Candidate>)
    requires Sound(identity, db) && PersistOutcome(identity, db, workspace, cutoff, candidates).Ok?
    ensures Sound(identity, PersistOutcome(identity, db, workspace, cutoff, candidates).value.0)
  {
    PersistAddsSoundRows(identity, db, workspace, cutoff, candidates);
    HonouredStays(db, PersistOutcome(identity, db, workspace, cutoff, candidates).value.0);
  }

  lemma EraseKeeps(
    identity: Identity, db: Db, id: RequestId, workspace: WorkspaceId, kind: Kind, value: string, scope: Scope,
    requestKind: RequestKind)
    requires Sound(identity, db) && EraseOutcome(identity, db, id, workspace, kind, value, scope, requestKind).Ok?
    ensures Sound(identity, EraseOutcome(identity, db, id, workspace, kind, value, scope, requestKind).value.0)
  {
    var after := EraseOutcome(identity, db, id, workspace, kind, value, scope, requestKind).value.0;
    var fingerprint := FingerprintOf(identity, kind, value).value;
    if id !in db.requests {
      assert Silenced(after, workspace, kind, fingerprint);
      HonouredStays(db, after);
    }
  }

  /** Rewriting rows to an unsuppressed replacement. */
  lemma RectifyKeeps(
    identity: Identity, db: Db, id: RequestId, workspace: WorkspaceId, kind: Kind, value: string,
    replacement: string, now: int, clock: int)
    requires Sound(identity, db)
    requires RectifyOutcome(identity, db, id, workspace, kind, value, replacement, now, clock).Ok?
    ensures Sound(identity, RectifyOutcome(identity, db, id, workspace, kind, value, replacement, now, clock).value.0)
  {
    var after := RectifyOutcome(identity, db, id, workspace, kind, value, replacement, now, clock).value.0;
    if id !in db.requests {
      var rows := Matching(db, workspace, kind, FingerprintOf(identity, kind, value).value);
      forall c | c in after.contacts
        ensures Tagged(identity, after.contacts[c]) && Bounded(after.contacts[c])
        ensures
          || (c in db.contacts && after.contacts[c] == db.contacts[c])
          || !Suppressed(db, after.contacts[c].workspace, after.contacts[c].kind, after.contacts[c].fingerprint)
      {
        if c in rows {
          assert RowRectifiable(identity, db, workspace, db.contacts[c], replacement, now, clock);
        }
      }
      HonouredStays(db, after);
    }
  }

  lemma DeletionKeeps(identity: Identity, db: Db, after: Db)
    requires Sound(identity, db)
    requires after == db.(contacts := after.contacts, retention := after.retention)
    requires after.contacts.Keys <= db.contacts.Keys
    requires forall c | c in after.contacts :: after.contacts[c] == db.contacts[c]
    ensures Sound(identity, after)
  {
    HonouredStays(db, after);
  }

  lemma CommitKeeps(identity: Identity, db: Db, call: Call)
    requires Sound(identity, db)
    ensures Sound(identity, Commit(identity, db, call))
  {
    var after := Commit(identity, db, call);
    if after != db {
      match call {
        case Persist(workspace, cutoff, candidates) => PersistKeeps(identity, db, workspace, cutoff, candidates);
        case Erase(id, workspace, kind, value, scope, requestKind) =>
          EraseKeeps(identity, db, id, workspace, kind, value, scope, requestKind);
        case Rectify(id, workspace, kind, value, replacement, now, clock) =>
          RectifyKeeps(identity, db, id, workspace, kind, value, replacement, now, clock);
        case Export(workspace, now) => DeletionKeeps(identity, db, after);
        case Retain(workspace, cutoff, size) => DeletionKeeps(identity, db, after);
        case _ => HonouredStays(db, after);
      }
    }
  }

  /** Every run of calls from a sound store ends in one: in particular every completed erasure and
      opposition of the run is still honoured. */
  lemma {:induction false} ErasureIsPermanent(identity: Identity, origin: Db, calls: seq<Call>)
    requires Sound(identity, origin)
    ensures Sound(identity, CommitAll(identity, origin, calls))
  {
    if calls != [] {
      ErasureIsPermanent(identity, origin, calls[..|calls| - 1]);
      CommitKeeps(identity, CommitAll(identity, origin, calls[..|calls| - 1]), calls[|calls| - 1]);
    }
  }

  const EMPTY_STORE := Db(map[], {}, map[], map[], [], [])

  lemma EmptyStoreIsSound(identity: Identity)
    ensures Sound(identity, EMPTY_STORE)
  {
  }

  /** A deployment that starts with nothing stored is sound after every run. */
  lemma EveryRunIsSound(identity: Identity, calls: seq<Call>)
    ensures Sound(identity, CommitAll(identity, EMPTY_STORE, calls))
  {
    EmptyStoreIsSound(identity);
    ErasureIsPermanent(identity, EMPTY_STORE, calls);
  }

  // ----- Suppressions and requests are never taken back -----

  ghost predicate Extends(before: Db, after: Db) {
    && before.suppressions <= after.suppressions
    && (forall id | id in before.requests :: id in after.requests && after.requests[id] == before.requests[id])
  }

  lemma PersistTouchesContactsOnly(
    identity: Identity, db: Db, workspace: WorkspaceId, cutoff: int, candidates: seq<Candidate>)
    requires PersistOutcome(identity, db, workspace, cutoff, candidates).Ok?
    ensures var so := PersistOutcome(identity, db, workspace, cutoff, candidates).value.0;
      so == db.(contacts := so.contacts)
  {
  }

  lemma CommitExtends(identity: Identity, db: Db, call: Call)
    ensures Extends(db, Commit(identity, db, call))
  {
    match call {
      case Persist(workspace, cutoff, candidates) =>
        if PersistOutcome(identity, db, workspace, cutoff, candidates).Ok? {
          PersistTouchesContactsOnly(identity, db, workspace, cutoff, candidates);
        }
      case _ =>
    }
  }

  /** A request id keeps its row, and so its subject, through any run; suppressions are never lifted. */
  lemma {:induction false} RequestsStayBound(identity: Identity, origin: Db, calls: seq<Call>)
    ensures Extends(origin, CommitAll(identity, origin, calls))
  {
    if calls != [] {
      RequestsStayBound(identity, origin, calls[..|calls| - 1]);
      CommitExtends(identity, CommitAll(identity, origin, calls[..|calls| - 1]), calls[|calls| - 1]);
    }
  }

  predicate IsRequest(call: Call) {
    call.Erase? || call.RecordAccess? || call.Rectify?
  }

  function RequestKindOf(call: Call): RequestKind
    requires IsRequest(call)
  {
    match call
    case Erase(_, _, _, _, _, requestKind) => requestKind
    case RecordAccess(_, _, _, _) => Access
    case _ => Rectification
  }

  /** A call with a used request id changes nothing: it answers when it names the subject the id is bound
      to, and raises otherwise. */
  lemma ReplaysChangeNothing(identity: Identity, db: Db, call: Call)
    requires IsRequest(call) && call.id in db.requests
    ensures Commit(identity, db, call) == db
    ensures Execute(identity, db, call).Ok? <==>
      && FingerprintOf(identity, call.kind, call.value).Ok?
      && SameSubject(
           db.requests[call.id], call.workspace, RequestKindOf(call), call.kind,
           FingerprintOf(identity, call.kind, call.value).value)
      && (call.Erase? ==> call.requestKind == Erasure || call.requestKind == Opposition)
      && (call.Rectify? ==> call.kind == Email)
  {
  }

  /** The first call of a request id, whenever it was, decides every later one: repeated as it was it
      answers the same row and changes nothing. */
  lemma RepeatedRequestsAnswerTheSame(identity: Identity, origin: Db, call: Call, calls: seq<Call>)
    requires IsRequest(call) && call.id !in origin.requests && Execute(identity, origin, call).Ok?
    ensures var first := Commit(identity, origin, call);
      var later := CommitAll(identity, first, calls);
      && Execute(identity, later, call) == Ok(later)
      && call.id in first.requests && call.id in later.requests
      && later.requests[call.id] == first.requests[call.id]
  {
    var first := Commit(identity, origin, call);
    RequestsStayBound(identity, first, calls);
    var later := CommitAll(identity, first, calls);
    assert later.requests[call.id] == first.requests[call.id];
    ReplaysChangeNothing(identity, later, call);
  }

  // ----- What one erasure achieves -----

  /** An erasure deletes the subject's contacts of its own workspace, and no other contact; the request and its
      audit event say how many, and one suppression is added, of that workspace or of all. */
  lemma ErasureIsExact(
    identity: Identity, db: Db, id: RequestId, workspace: WorkspaceId, kind: Kind, value: string, scope: Scope,
    requestKind: RequestKind)
    requires EraseOutcome(identity, db, id, workspace, kind, value, scope, requestKind).Ok? && id !in db.requests
    ensures var (after, row) := EraseOutcome(identity, db, id, workspace, kind, value, scope, requestKind).value;
      var fingerprint := FingerprintOf(identity, kind, value).value;
      var gone := |db.contacts| - |after.contacts|;
      && (forall c :: c in after.contacts <==>
            && c in db.contacts
            && !(db.contacts[c].workspace == workspace && db.contacts[c].kind == kind
                 && db.contacts[c].fingerprint == fingerprint))
      && (forall c | c in after.contacts :: after.contacts[c] == db.contacts[c])
      && gone >= 0 && row == SubjectRequest(workspace, requestKind, kind, fingerprint, gone)
      && after.requests == db.requests[id := row]
      && after.audit == db.audit + [RequestCompleted(workspace, id, gone)]
      && after.suppressions
         == db.suppressions
            + {Suppression(if scope == Everywhere then Global else Local(workspace), kind, fingerprint)}
      && after.policies == db.policies && after.retention == db.retention
  {
    DeletedRows(db.contacts, Matching(db, workspace, kind, FingerprintOf(identity, kind, value).value));
  }

  lemma DeletedRows(contacts: map<ContactId, Contact>, rows: set<ContactId>)
    requires rows <= contacts.Keys
    ensures |contacts - rows| == |contacts| - |rows|
  {
    assert (contacts - rows).Keys == contacts.Keys - rows;
    assert |(contacts - rows).Keys| == |contacts - rows|;
  }

  /** After a completed erasure or opposition, however the store got there and whatever follows, the subject
      is suppressed and no contact of theirs is stored in that workspace. */
  lemma ErasedStaysErased(identity: Identity, origin: Db, call: Call, calls: seq<Call>)
    requires Sound(identity, origin) && call.Erase? && Execute(identity, origin, call).Ok?
    ensures var fingerprint := FingerprintOf(identity, call.kind, call.value).value;
      Silenced(CommitAll(identity, Commit(identity, origin, call), calls), call.workspace, call.kind, fingerprint)
  {
    var first := Commit(identity, origin, call);
    CommitKeeps(identity, origin, call);
    ErasureIsPermanent(identity, first, calls);
    RequestsStayBound(identity, first, calls);
    var later := CommitAll(identity, first, calls);
    assert call.id in later.requests && later.requests[call.id] == first.requests[call.id];
    assert Honours(later.requests[call.id]);
  }

  // ----- An erasure between the reads and the inserts of a persist -----

  /** `persist` reads the suppression list without a lock: its rows `so`, judged on the store `read`, are
      inserted into the store `write` that another transaction has committed meanwhile. */
  function PersistedLate(read: Db, so: Db, write: Db): Db {
    write.(contacts := write.contacts + (so.contacts - read.contacts.Keys))
  }

  /** The candidate is a contact of the subject, unexpired and allowed by the policy. */
  predicate IsSubject(
    identity: Identity, db: Db, workspace: WorkspaceId, cutoff: int, c: Candidate, kind: Kind, fingerprint: Fingerprint)
  {
    && c.point.kind == kind && FingerprintOf(identity, kind, c.point.value) == Ok(fingerprint)
    && cutoff < c.point.expiresAt && Allowed(c.point, PolicyOf(db, workspace), c.clock)
  }

  /** The subject was not suppressed and the persist brings a contact of theirs that may be stored. */
  ghost predicate BringsSubject(
    identity: Identity, db: Db, workspace: WorkspaceId, cutoff: int, candidates: seq<Candidate>, kind: Kind,
    fingerprint: Fingerprint)
  {
    && !Suppressed(db, workspace, kind, fingerprint)
    && exists c :: c in candidates && IsSubject(identity, db, workspace, cutoff, c, kind, fingerprint)
  }

  lemma SubjectsPersist(
    identity: Identity, db: Db, workspace: WorkspaceId, cutoff: int, c: Candidate, kind: Kind, fingerprint: Fingerprint)
    ensures
      (!Suppressed(db, workspace, kind, fingerprint)
       && IsSubject(identity, db, workspace, cutoff, c, kind, fingerprint))
      <==>
      (Persists(identity, db, workspace, cutoff, c) && c.point.kind == kind
       && Judge(identity, db, workspace, cutoff, c).value.fingerprint == fingerprint)
  {
  }

  /** An erasure that commits between the two is undone if and only if the persist runs in its workspace,
      the subject was not suppressed before, and a candidate is an unexpired and allowed contact of theirs. */
  lemma RaceUndoesErasure(
    identity: Identity, read: Db, workspace: WorkspaceId, cutoff: int, candidates: seq<Candidate>, call: Call)
    requires Sound(identity, read) && PersistOutcome(identity, read, workspace, cutoff, candidates).Ok?
    requires call.Erase? && call.id !in read.requests && Execute(identity, read, call).Ok?
    ensures var so := PersistOutcome(identity, read, workspace, cutoff, candidates).value.0;
      var write := Commit(identity, read, call);
      var fingerprint := FingerprintOf(identity, call.kind, call.value).value;
      Silenced(PersistedLate(read, so, write), call.workspace, call.kind, fingerprint) <==>
        !(call.workspace == workspace
          && BringsSubject(identity, read, workspace, cutoff, candidates, call.kind, fingerprint))
  {
    var so := PersistOutcome(identity, read, workspace, cutoff, candidates).value.0;
    var write := Commit(identity, read, call);
    var fingerprint, after := FingerprintOf(identity, call.kind, call.value).value, PersistedLate(read, so, write);
    ErasedStaysErased(identity, read, call, []);
    assert Silenced(write, call.workspace, call.kind, fingerprint);
    if && call.workspace == workspace
       && BringsSubject(identity, read, workspace, cutoff, candidates, call.kind, fingerprint)
    {
      var c :| c in candidates && IsSubject(identity, read, workspace, cutoff, c, call.kind, fingerprint);
      LateRowOfSubject(identity, read, workspace, cutoff, candidates, c, call.kind, fingerprint);
      assert c.id in after.contacts && Matches(after.contacts[c.id], call.workspace, call.kind, fingerprint);
    }
    if id :| id in after.contacts && Matches(after.contacts[id], call.workspace, call.kind, fingerprint) {
      LateRowIsOfSubject(identity, read, workspace, cutoff, candidates, id);
    }
  }

  lemma LateRowOfSubject(
    identity: Identity, read: Db, workspace: WorkspaceId, cutoff: int, candidates: seq<Candidate>, c: Candidate,
    kind: Kind, fingerprint: Fingerprint)
    requires PersistOutcome(identity, read, workspace, cutoff, candidates).Ok? && c in candidates
    requires IsSubject(identity, read, workspace, cutoff, c, kind, fingerprint)
    requires !Suppressed(read, workspace, kind, fingerprint)
    ensures var so := PersistOutcome(identity, read, workspace, cutoff, candidates).value.0;
      c.id in so.contacts && c.id !in read.contacts && Matches(so.contacts[c.id], workspace, kind, fingerprint)
  {
    PersistRows(identity, read, workspace, cutoff, candidates);
    SubjectsPersist(identity, read, workspace, cutoff, c, kind, fingerprint);
    assert RowStored(
      identity, read, PersistOutcome(identity, read, workspace, cutoff, candidates).value.0, workspace, cutoff, c);
  }

  lemma LateRowIsOfSubject(
    identity: Identity, read: Db, workspace: WorkspaceId, cutoff: int, candidates: seq<Candidate>, id: ContactId)
    requires PersistOutcome(identity, read, workspace, cutoff, candidates).Ok?
    requires id in PersistOutcome(identity, read, workspace, cutoff, candidates).value.0.contacts
    requires id !in read.contacts
    ensures var row := PersistOutcome(identity, read, workspace, cutoff, candidates).value.0.contacts[id];
      && row.workspace == workspace
      && BringsSubject(identity, read, workspace, cutoff, candidates, row.kind, row.fingerprint)
  {
    PersistRows(identity, read, workspace, cutoff, candidates);
    var so := PersistOutcome(identity, read, workspace, cutoff, candidates).value.0;
    assert RowExplained(identity, read, so, workspace, cutoff, candidates, id);
    var c :| c in candidates && c.id == id && Persists(identity, read, workspace, cutoff, c);
    assert RowStored(identity, read, so, workspace, cutoff, c);
    SubjectsPersist(identity, read, workspace, cutoff, c, so.contacts[id].kind, so.contacts[id].fingerprint);
  }

  // ----- An erasure between the reads and the writes of a rectification -----

  /** `rectify` reads the suppression list without a lock as well: rows and replacement, judged on the store
      `read`, are written into `write`. A row that is gone by then makes the update fail. */
  function RectifiedLate(
    identity: Identity, read: Db, write: Db, id: RequestId, workspace: WorkspaceId, fingerprint: Fingerprint,
    replacement: string, now: int): Db
  {
    var rows := Matching(read, workspace, Email, fingerprint);
    if !(rows <= write.contacts.Keys) then write
    else
      var rewritten := Rewritten(identity, write, rows, id, replacement, now);
      Recorded(
        WithSuppression(rewritten, workspace, Email, fingerprint, InWorkspace), id,
        SubjectRequest(workspace, Rectification, Email, fingerprint, 0), |rows|)
  }

  /** Some stored contact of the workspace is rewritten to the subject, who is not its subject already. */
  predicate BecomesSubject(
    identity: Identity, read: Db, workspace: WorkspaceId, was: Fingerprint, replacement: string, now: int, kind: Kind,
    fingerprint: Fingerprint)
  {
    && kind == Email && fingerprint != was && Matching(read, workspace, Email, was) != {}
    && Replacement(identity, replacement, now).Some? && Replacement(identity, replacement, now).value.1 == fingerprint
  }

  /** An erasure that commits between the reads of a rectification and its writes is undone if and only if
      the rectification runs in its workspace and rewrites a stored contact to the erased value, which is
      not the value the contact had. */
  lemma RaceWithRectification(
    identity: Identity, read: Db, id: RequestId, workspace: WorkspaceId, value: string, replacement: string, now: int,
    clock: int, call: Call)
    requires Sound(identity, read)
    requires RectifyOutcome(identity, read, id, workspace, Email, value, replacement, now, clock).Ok?
    requires call.Erase? && Execute(identity, read, call).Ok?
    requires id !in read.requests && call.id !in read.requests && call.id != id
    ensures var was := FingerprintOf(identity, Email, value).value;
      var after := RectifiedLate(identity, read, Commit(identity, read, call), id, workspace, was, replacement, now);
      var fingerprint := FingerprintOf(identity, call.kind, call.value).value;
      Silenced(after, call.workspace, call.kind, fingerprint) <==>
        !(call.workspace == workspace
          && BecomesSubject(identity, read, workspace, was, replacement, now, call.kind, fingerprint))
  {
    var was, write := FingerprintOf(identity, Email, value).value, Commit(identity, read, call);
    var fingerprint := FingerprintOf(identity, call.kind, call.value).value;
    var rows := Matching(read, workspace, Email, was);
    ErasedStaysErased(identity, read, call, []);
    assert Silenced(write, call.workspace, call.kind, fingerprint);
    if rows != {} {
      var c :| c in rows;
      assert RowRectifiable(identity, read, workspace, read.contacts[c], replacement, now, clock);
    }
    LateRectification(
      identity, read, write, id, workspace, was, replacement, now, call.workspace, call.kind, fingerprint);
    if rows != {} && fingerprint != was {
      assert rows <= write.contacts.Keys;
    }
  }

  /** What the late writes leave of a silence: the rows rewritten are the only ones that can end it. */
  lemma LateRectification(
    identity: Identity, read: Db, write: Db, id: RequestId, workspace: WorkspaceId, was: Fingerprint,
    replacement: string, now: int, where: WorkspaceId, kind: Kind, fingerprint: Fingerprint)
    requires Silenced(write, where, kind, fingerprint)
    requires forall c | c in write.contacts :: c in read.contacts && write.contacts[c] == read.contacts[c]
    requires Matching(read, workspace, Email, was) != {} ==> Replacement(identity, replacement, now).Some?
    ensures var rows := Matching(read, workspace, Email, was);
      var after := RectifiedLate(identity, read, write, id, workspace, was, replacement, now);
      Silenced(after, where, kind, fingerprint) <==>
        !(rows != {} && rows <= write.contacts.Keys && where == workspace && kind == Email
          && Replacement(identity, replacement, now).value.1 == fingerprint)
  {
    var rows := Matching(read, workspace, Email, was);
    var after := RectifiedLate(identity, read, write, id, workspace, was, replacement, now);
    if rows != {} && rows <= write.contacts.Keys {
      var c :| c in rows;
      assert c in after.contacts && after.contacts[c].workspace == workspace && after.contacts[c].kind == Email;
      assert after.contacts[c].fingerprint == Replacement(identity, replacement, now).value.1;
    }
  }

  // ----- What the operations do not promise -----

  /** A bare suppression leaves the contacts it names where they are. */
  lemma BareSuppressionKeepsContacts(
    identity: Identity, db: Db, workspace: WorkspaceId, kind: Kind, value: string, scope: Scope)
    requires FingerprintOf(identity, kind, value).Ok?
    ensures var after := Commit(identity, db, Suppress(workspace, kind, value, scope));
      var fingerprint := FingerprintOf(identity, kind, value).value;
      Silenced(after, workspace, kind, fingerprint) <==> Absent(db, workspace, kind, fingerprint)
  {
    var after := Commit(identity, db, Suppress(workspace, kind, value, scope));
    assert after.contacts == db.contacts;
  }

  /** A global erasure silences the subject in another workspace exactly when that one stores none of
      their contacts already. */
  lemma GlobalErasureElsewhere(
    identity: Identity, db: Db, id: RequestId, workspace: WorkspaceId, kind: Kind, value: string,
    requestKind: RequestKind, elsewhere: WorkspaceId)
    requires EraseOutcome(identity, db, id, workspace, kind, value, Everywhere, requestKind).Ok?
    requires id !in db.requests && elsewhere != workspace
    ensures var after := EraseOutcome(identity, db, id, workspace, kind, value, Everywhere, requestKind).value.0;
      var fingerprint := FingerprintOf(identity, kind, value).value;
      Silenced(after, elsewhere, kind, fingerprint) <==> Absent(db, elsewhere, kind, fingerprint)
  {
    var after := EraseOutcome(identity, db, id, workspace, kind, value, Everywhere, requestKind).value.0;
    var fingerprint := FingerprintOf(identity, kind, value).value;
    ErasureIsExact(identity, db, id, workspace, kind, value, Everywhere, requestKind);
    if Absent(after, elsewhere, kind, fingerprint) {
      forall c | c in db.contacts ensures !Matches(db.contacts[c], elsewhere, kind, fingerprint) {
        assert Matches(db.contacts[c], elsewhere, kind, fingerprint) ==> c in after.contacts;
      }
    }
  }

  /** A rectification suppresses the old value in the workspace, and the value is gone from the stored
      contacts unless a row was rewritten to that same value. */
  lemma RectifiedValueIsGone(
    identity: Identity, db: Db, id: RequestId, workspace: WorkspaceId, value: string, replacement: string,
    now: int, clock: int)
    requires RectifyOutcome(identity, db, id, workspace, Email, value, replacement, now, clock).Ok?
    requires id !in db.requests
    ensures var after := RectifyOutcome(identity, db, id, workspace, Email, value, replacement, now, clock).value.0;
      var fingerprint := FingerprintOf(identity, Email, value).value;
      && Suppressed(after, workspace, Email, fingerprint)
      && (Absent(after, workspace, Email, fingerprint) <==>
            || Matching(db, workspace, Email, fingerprint) == {}
            || Replacement(identity, replacement, now).value.1 != fingerprint)
  {
    var after := RectifyOutcome(identity, db, id, workspace, Email, value, replacement, now, clock).value.0;
    var fingerprint := FingerprintOf(identity, Email, value).value;
    var rows := Matching(db, workspace, Email, fingerprint);
    if rows != {} {
      var c :| c in rows;
      assert RowRectifiable(identity, db, workspace, db.contacts[c], replacement, now, clock);
      assert c in after.contacts && after.contacts[c].fingerprint == Replacement(identity, replacement, now).value.1;
      assert Matches(after.contacts[c], workspace, Email, Replacement(identity, replacement, now).value.1);
    }
  }

  /** A rectified row has no source URL left, so a second rectification of it is always refused. */
  lemma RectifiedRowsAreFinal(
    identity: Identity, db: Db, id: RequestId, workspace: WorkspaceId, value: string, replacement: string,
    now: int, clock: int, nextId: RequestId, next: string, moment: int, momentClock: int)
    requires RectifyOutcome(identity, db, id, workspace, Email, value, replacement, now, clock).Ok?
    requires id !in db.requests && nextId !in db.requests && nextId != id
    requires Matching(db, workspace, Email, FingerprintOf(identity, Email, value).value) != {}
    ensures var after := RectifyOutcome(identity, db, id, workspace, Email, value, replacement, now, clock).value.0;
      && Replacement(identity, replacement, now).Some?
      && var stored := Replacement(identity, replacement, now).value.0.value;
      RectifyOutcome(identity, after, nextId, workspace, Email, stored, next, moment, momentClock)
      == Err(ReplacementRejected)
  {
    var after := RectifyOutcome(identity, db, id, workspace, Email, value, replacement, now, clock).value.0;
    var c :| c in Matching(db, workspace, Email, FingerprintOf(identity, Email, value).value);
    assert RowRectifiable(identity, db, workspace, db.contacts[c], replacement, now, clock);
    var rows := Matching(after, workspace, Email, Replacement(identity, replacement, now).value.1);
    assert c in rows && after.contacts[c].source.Subject?;
    assert !RowRectifiable(identity, after, workspace, after.contacts[c], next, moment, momentClock);
  }
}
