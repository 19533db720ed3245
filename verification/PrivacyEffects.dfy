/** What each privacy call asks for and what it gets, in terms of its arguments, the rows it meets and the rows
    it leaves; and who is suppressed where after any run of calls. */
module PrivacyEffects {
  import opened Basics
  import opened Outcomes
  import opened Contacts
  import opened Queries
  import opened Privacy
  import opened Permanence
  import Text

  // ----- The policy gate and the factory -----

  /** The workspace has an enabled policy of ninety days at most, and the contact is kept no longer than it
      says. */
  predicate Permits(db: Db, workspace: WorkspaceId, collectedAt: int, expiresAt: int) {
    && workspace in db.policies && db.policies[workspace].enabled && db.policies[workspace].namedDays <= 90
    && expiresAt - collectedAt <= db.policies[workspace].namedDays * 24 * 60 * 60 * 1_000_000
  }

  /** Before it expires a generic contact always passes the gate, a named one if and only if an enabled policy
      of at most ninety days permits the time it is kept. */
  lemma GateIsExact(db: Db, workspace: WorkspaceId, point: ContactPoint, clock: int)
    ensures Allowed(point, PolicyOf(db, workspace), clock) <==>
      clock < point.expiresAt
      && (point.classification == Named ==> Permits(db, workspace, point.collectedAt, point.expiresAt))
  {
  }

  predicate EndsLocalPart(email: string, n: nat) {
    n <= |email| && '@' !in email[..n] && (n == |email| || email[n] == '@')
  }

  lemma {:induction false} LocalPartEnds(email: string)
    ensures EndsLocalPart(email, |LocalPart(email)|) && LocalPart(email) == email[..|LocalPart(email)|]
    ensures forall n: nat | EndsLocalPart(email, n) :: n == |LocalPart(email)|
  {
    if email != [] && email[0] != '@' {
      var rest := LocalPart(email[1..]);
      LocalPartEnds(email[1..]);
      assert email[..1 + |rest|] == [email[0]] + email[1..][..|rest|];
      forall n: nat | EndsLocalPart(email, n) ensures n == 1 + |rest| {
        assert n > 0 && email[..n] == [email[0]] + email[1..][..n - 1];
        assert EndsLocalPart(email[1..], n - 1);
      }
    } else if email != [] {
      forall n: nat | 0 < n <= |email| ensures email[0] in email[..n] {
        assert email[..n][0] == email[0];
      }
    }
  }

  /** What comes before the at sign is one of the shared mailboxes. */
  ghost predicate IsShared(email: string) {
    exists n: nat :: EndsLocalPart(email, n) && email[..n] in GENERIC_LOCAL_PARTS
  }

  lemma SharedExactly(email: string)
    ensures Classify(email) == Generic <==> IsShared(email)
  {
    LocalPartEnds(email);
  }

  /** An email contact is the normalised address, kept 365 days when it is a shared mailbox and ninety when it
      names a person. */
  lemma EmailContactsExactly(identity: Identity, value: string, collectedAt: int)
    ensures var point := FromEmail(identity, value, collectedAt);
      && (point.Some? <==>
            identity.normalizeEmail(value).Some?
            && identity.normalizeEmail(identity.normalizeEmail(value).value).Some?)
      && (point.Some? ==>
            && point.value.kind == Email && identity.normalizeEmail(value) == Some(point.value.value)
            && point.value.collectedAt == collectedAt
            && (point.value.classification == Generic
                <==> IsShared(identity.normalizeEmail(point.value.value).value))
            && point.value.expiresAt - collectedAt
               == (if point.value.classification == Generic then 365 else 90) * 24 * 60 * 60 * 1_000_000)
  {
    if identity.normalizeEmail(value).Some? && identity.normalizeEmail(identity.normalizeEmail(value).value).Some? {
      SharedExactly(identity.normalizeEmail(identity.normalizeEmail(value).value).value);
    }
  }

  // ----- Phone numbers -----

  lemma {:induction false} PhoneCharsJoin(a: string, b: string)
    ensures PhoneChars(a + b) == PhoneChars(a) + PhoneChars(b)
  {
    if a == [] {
      assert a + b == b;
    } else {
      assert (a + b)[0] == a[0] && (a + b)[1..] == a[1..] + b;
      PhoneCharsJoin(a[1..], b);
    }
  }

  lemma {:induction false} SpacesHaveNoPhoneChars(s: string)
    requires forall c | c in s :: Text.IsSpace(c)
    ensures PhoneChars(s) == []
  {
    if s != [] {
      assert s[0] in s;
      SpacesHaveNoPhoneChars(s[1..]);
    }
  }

  lemma {:induction false} StripLeavesSpaces(s: string) returns (before: string, after: string)
    ensures s == before + Text.Strip(s) + after
    ensures forall c | c in before + after :: Text.IsSpace(c)
  {
    before := LeftSpaces(s);
    after := RightSpaces(Text.StripLeft(s));
    assert before + (Text.Strip(s) + after) == before + Text.Strip(s) + after;
  }

  lemma {:induction false} LeftSpaces(s: string) returns (before: string)
    ensures s == before + Text.StripLeft(s) && forall c | c in before :: Text.IsSpace(c)
  {
    before := [];
    if s != [] && Text.IsSpace(s[0]) {
      var rest := LeftSpaces(s[1..]);
      before := [s[0]] + rest;
      assert [s[0]] + (rest + Text.StripLeft(s)) == before + Text.StripLeft(s);
    }
  }

  lemma {:induction false} RightSpaces(s: string) returns (after: string)
    ensures s == Text.StripRight(s) + after && forall c | c in after :: Text.IsSpace(c)
  {
    after := [];
    if s != [] && Text.IsSpace(s[|s| - 1]) {
      var rest := RightSpaces(s[..|s| - 1]);
      after := rest + [s[|s| - 1]];
      assert Text.StripRight(s) + (rest + [s[|s| - 1]]) == Text.StripRight(s) + after;
    }
  }

  lemma StrippedPhoneChars(value: string)
    ensures PhoneChars(Text.Strip(value)) == PhoneChars(value)
  {
    var before, after := StripLeavesSpaces(value);
    PhoneCharsJoin(before + Text.Strip(value), after);
    PhoneCharsJoin(before, Text.Strip(value));
    forall c | c in before ensures Text.IsSpace(c) {
      assert c in before + after;
    }
    forall c | c in after ensures Text.IsSpace(c) {
      assert c in before + after;
    }
    SpacesHaveNoPhoneChars(before);
    SpacesHaveNoPhoneChars(after);
  }

  lemma PhoneCharsSkip(a: string, c: char, b: string)
    requires !IsPhoneChar(c)
    ensures PhoneChars(a + [c] + b) == PhoneChars(a + b)
  {
    PhoneCharsJoin(a + [c], b);
    PhoneCharsJoin(a, [c]);
    PhoneCharsJoin(a, b);
    assert PhoneChars([c]) == [];
    assert PhoneChars(a) + [] == PhoneChars(a);
  }

  /** A phone number is its digits and plus signs, 7 to 20 of them; a character of any other kind, wherever it
      stands, makes no difference. */
  lemma PhoneNumbersExactly(identity: Identity, a: string, c: char, b: string)
    requires !('0' <= c <= '9') && c != '+'
    ensures FingerprintOf(identity, Phone, a + [c] + b) == FingerprintOf(identity, Phone, a + b)
    ensures (forall d | d in a :: '0' <= d <= '9' || d == '+') ==>
      FingerprintOf(identity, Phone, a)
      == if 7 <= |a| <= 20 then Ok(identity.hmac(Phone, a)) else Err(IdentifierInvalid)
  {
    StrippedPhoneChars(a + [c] + b);
    StrippedPhoneChars(a + b);
    PhoneCharsSkip(a, c, b);
    StrippedPhoneChars(a);
    if forall d | d in a :: '0' <= d <= '9' || d == '+' {
      PhoneCharsFix(a);
    }
  }

  // ----- When a call succeeds -----

  ghost predicate Usable(identity: Identity, kind: Kind, value: string) {
    FingerprintOf(identity, kind, value).Ok?
  }

  predicate IsSubjects(contact: Contact, workspace: WorkspaceId, kind: Kind, fingerprint: Fingerprint) {
    contact.workspace == workspace && contact.kind == kind && contact.fingerprint == fingerprint
  }

  /** A stored row may be rewritten to the replacement: it still has its source, and the replacement is an
      address that passes the gate and is not suppressed. */
  ghost predicate MayBecome(
    identity: Identity, db: Db, workspace: WorkspaceId, row: Contact, replacement: string, now: int, clock: int)
  {
    && row.source == Website
    && var point := FromEmail(identity, replacement, now);
    && point.Some? && Usable(identity, Email, point.value.value)
    && clock < point.value.expiresAt
    && (point.value.classification == Named ==>
          Permits(db, workspace, point.value.collectedAt, point.value.expiresAt))
    && !Suppressed(db, workspace, Email, FingerprintOf(identity, Email, point.value.value).value)
  }

  /** What a call needs to succeed when its request id is new; a used one is the subject of
      `Permanence.ReplaysChangeNothing`. Persisting and exporting are treated apart. */
  ghost predicate Admits(identity: Identity, db: Db, call: Call)
    requires !call.Persist? && !call.Export?
  {
    match call
    case Erase(_, _, kind, value, _, requestKind) =>
      (requestKind == Erasure || requestKind == Opposition) && Usable(identity, kind, value)
    case RecordAccess(_, _, kind, value) => Usable(identity, kind, value)
    case Rectify(_, workspace, kind, value, replacement, now, clock) =>
      && kind == Email && Usable(identity, kind, value)
      && forall c | c in db.contacts
           && IsSubjects(db.contacts[c], workspace, Email, FingerprintOf(identity, Email, value).value) ::
           MayBecome(identity, db, workspace, db.contacts[c], replacement, now, clock)
    case Suppress(_, kind, value, _) => Usable(identity, kind, value)
    case PutPolicy(_, policy) => 1 <= policy.namedDays <= 90
    case Retain(_, _, size) => 1 <= size <= 5000
  }

  lemma RowsMayBecome(
    identity: Identity, db: Db, workspace: WorkspaceId, row: Contact, replacement: string, now: int, clock: int)
    ensures RowRectifiable(identity, db, workspace, row, replacement, now, clock)
       <==> MayBecome(identity, db, workspace, row, replacement, now, clock)
  {
    var point := FromEmail(identity, replacement, now);
    if point.Some? {
      GateIsExact(db, workspace, point.value, clock);
    }
  }

  /** A call with a new request id succeeds if and only if it gets what it needs. */
  lemma CallsSucceedExactly(identity: Identity, db: Db, call: Call)
    requires !call.Persist? && !call.Export? && (IsRequest(call) ==> call.id !in db.requests)
    ensures Execute(identity, db, call).Ok? <==> Admits(identity, db, call)
  {
    match call
    case Rectify(_, workspace, kind, value, replacement, now, clock) =>
      if kind == Email && Usable(identity, kind, value) {
        RectifiesExactly(identity, db, workspace, value, replacement, now, clock);
      }
    case _ =>
  }

  lemma RectifiesExactly(
    identity: Identity, db: Db, workspace: WorkspaceId, value: string, replacement: string, now: int, clock: int)
    requires Usable(identity, Email, value)
    ensures var fingerprint := FingerprintOf(identity, Email, value).value;
      Rectifiable(identity, db, workspace, Matching(db, workspace, Email, fingerprint), replacement, now, clock)
      <==> forall c | c in db.contacts && IsSubjects(db.contacts[c], workspace, Email, fingerprint) ::
             MayBecome(identity, db, workspace, db.contacts[c], replacement, now, clock)
  {
    var rows := Matching(db, workspace, Email, FingerprintOf(identity, Email, value).value);
    forall c | c in db.contacts
      ensures RowRectifiable(identity, db, workspace, db.contacts[c], replacement, now, clock)
         <==> MayBecome(identity, db, workspace, db.contacts[c], replacement, now, clock)
    {
      RowsMayBecome(identity, db, workspace, db.contacts[c], replacement, now, clock);
    }
    assert forall c :: c in rows <==>
      c in db.contacts
      && IsSubjects(db.contacts[c], workspace, Email, FingerprintOf(identity, Email, value).value);
  }

  /** Whether a new request is refused for its identifier. */
  ghost predicate RefusesIdentifier(identity: Identity, kind: Kind, value: string, error: Error) {
    !Usable(identity, kind, value) && error == IdentifierInvalid
  }

  /** Why a stored row may not be rewritten. */
  ghost predicate RefusesRow(
    identity: Identity, db: Db, workspace: WorkspaceId, row: Contact, replacement: string, now: int, clock: int,
    error: Error)
  {
    var point := FromEmail(identity, replacement, now);
    if point.None? then error == IdentifierInvalid
    else if row.source != Website then error == SourceMissing
    else if clock >= point.value.expiresAt
            || (point.value.classification == Named
                && !Permits(db, workspace, point.value.collectedAt, point.value.expiresAt))
    then error == PolicyBlocked
    else if !Usable(identity, Email, point.value.value) then error == IdentifierInvalid
    else
      && Suppressed(db, workspace, Email, FingerprintOf(identity, Email, point.value.value).value)
      && error == ReplacementSuppressed
  }

  lemma RowRefusalsAreNamed(
    identity: Identity, db: Db, workspace: WorkspaceId, row: Contact, replacement: string, now: int, clock: int,
    error: Error)
    ensures RowRejection(identity, db, workspace, row, replacement, now, clock) == Some(error)
       <==> RefusesRow(identity, db, workspace, row, replacement, now, clock, error)
  {
    var point := FromEmail(identity, replacement, now);
    if point.Some? {
      GateIsExact(db, workspace, point.value, clock);
    }
  }

  /** What a call that is refused raises; a rectification that meets a row it may not rewrite raises what
      `RefusesRow` says of one of them. */
  ghost predicate Refuses(identity: Identity, db: Db, call: Call, error: Error)
    requires !call.Persist? && !call.Export?
  {
    match call
    case Erase(id, _, kind, value, _, requestKind) =>
      if requestKind == Access || requestKind == Rectification then error == RequestKindRejected
      else RefusesIdentifier(identity, kind, value, error) || (id in db.requests && error == RequestIdReused)
    case RecordAccess(id, _, kind, value) =>
      RefusesIdentifier(identity, kind, value, error) || (id in db.requests && error == RequestIdReused)
    case Rectify(id, _, kind, value, _, _, _) =>
      if kind != Email then error == RectificationUnsupported
      else
        || RefusesIdentifier(identity, kind, value, error)
        || (Usable(identity, kind, value)
            && error == if id in db.requests then RequestIdReused else ReplacementRejected)
    case Suppress(_, kind, value, _) => RefusesIdentifier(identity, kind, value, error)
    case PutPolicy(_, _) => error == PolicyInvalid
    case Retain(_, _, _) => error == BatchSizeRejected
  }

  lemma RefusalsAreNamed(identity: Identity, db: Db, call: Call)
    requires !call.Persist? && !call.Export? && Execute(identity, db, call).Err?
    ensures Refuses(identity, db, call, Execute(identity, db, call).error)
  {
  }

  /** A request repeated is answered with the row its id is bound to, as it stands. */
  lemma ReplaysAnswerTheirRow(identity: Identity, db: Db, call: Call)
    requires IsRequest(call) && call.id in db.requests
    ensures match call
      case Erase(id, workspace, kind, value, scope, requestKind) =>
        var r := EraseOutcome(identity, db, id, workspace, kind, value, scope, requestKind);
        r.Ok? ==> r.value == (db, db.requests[id])
      case RecordAccess(id, workspace, kind, value) =>
        var r := AccessOutcome(identity, db, id, workspace, kind, value);
        r.Ok? ==> r.value == (db, db.requests[id])
      case Rectify(id, workspace, kind, value, replacement, now, clock) =>
        var r := RectifyOutcome(identity, db, id, workspace, kind, value, replacement, now, clock);
        r.Ok? ==> r.value == (db, db.requests[id])
  {
  }

  // ----- Who is suppressed where -----

  /** The call adds the subject to the list of the workspace: it succeeds, is not a replay, and names the
      subject either for this workspace or for all of them. */
  ghost predicate Silences(
    identity: Identity, db: Db, call: Call, workspace: WorkspaceId, kind: Kind, fingerprint: Fingerprint)
  {
    && (call.Erase? || call.Suppress? || call.Rectify?)
    && (call.Suppress? || call.id !in db.requests)
    && Execute(identity, db, call).Ok?
    && call.kind == kind && FingerprintOf(identity, kind, call.value) == Ok(fingerprint)
    && (call.workspace == workspace || (!call.Rectify? && call.scope == Everywhere))
  }

  /** One entry more, for a workspace or for all. */
  lemma OneMoreEntry(
    db: Db, where: WorkspaceId, named: Kind, subject: Fingerprint, scope: Scope, workspace: WorkspaceId, kind: Kind,
    fingerprint: Fingerprint)
    ensures Suppressed(WithSuppression(db, where, named, subject, scope), workspace, kind, fingerprint) <==>
      || Suppressed(db, workspace, kind, fingerprint)
      || (named == kind && subject == fingerprint && (where == workspace || scope == Everywhere))
  {
  }

  lemma ErasureSilences(
    identity: Identity, db: Db, call: Call, workspace: WorkspaceId, kind: Kind, fingerprint: Fingerprint)
    requires call.Erase? || call.Rectify?
    ensures Suppressed(Commit(identity, db, call), workspace, kind, fingerprint) <==>
      Suppressed(db, workspace, kind, fingerprint) || Silences(identity, db, call, workspace, kind, fingerprint)
  {
    if Execute(identity, db, call).Ok? && call.id !in db.requests {
      var subject := FingerprintOf(identity, call.kind, call.value).value;
      var scope := if call.Erase? then call.scope else InWorkspace;
      OneMoreEntry(db, call.workspace, call.kind, subject, scope, workspace, kind, fingerprint);
      assert Commit(identity, db, call).suppressions
          == WithSuppression(db, call.workspace, call.kind, subject, scope).suppressions;
    }
  }

  /** A call suppresses a subject in its own workspace, or in every one when it says so, and nowhere else; it
      suppresses nobody besides, and lifts no suppression. */
  lemma SuppressionIsExact(
    identity: Identity, db: Db, call: Call, workspace: WorkspaceId, kind: Kind, fingerprint: Fingerprint)
    ensures Suppressed(Commit(identity, db, call), workspace, kind, fingerprint) <==>
      Suppressed(db, workspace, kind, fingerprint) || Silences(identity, db, call, workspace, kind, fingerprint)
  {
    match call {
      case Persist(where, cutoff, candidates) =>
        if PersistOutcome(identity, db, where, cutoff, candidates).Ok? {
          PersistTouchesContactsOnly(identity, db, where, cutoff, candidates);
        }
      case Suppress(where, named, value, scope) =>
        if FingerprintOf(identity, named, value).Ok? {
          OneMoreEntry(
            db, where, named, FingerprintOf(identity, named, value).value, scope, workspace, kind, fingerprint);
        }
      case Export(_, _) =>
      case Retain(_, _, _) =>
      case PutPolicy(_, _) =>
      case RecordAccess(_, _, _, _) =>
      case _ => ErasureSilences(identity, db, call, workspace, kind, fingerprint);
    }
  }

  /** After any run a subject is suppressed in a workspace if and only if they were before or some call of the
      run named them for it. */
  lemma {:induction false} SuppressedExactly(
    identity: Identity, origin: Db, calls: seq<Call>, workspace: WorkspaceId, kind: Kind, fingerprint: Fingerprint)
    ensures Suppressed(CommitAll(identity, origin, calls), workspace, kind, fingerprint) <==>
      || Suppressed(origin, workspace, kind, fingerprint)
      || exists i: nat :: SilencedAt(identity, origin, calls, i, workspace, kind, fingerprint)
  {
    if calls != [] {
      var last := |calls| - 1;
      var front := calls[..last];
      SuppressedExactly(identity, origin, front, workspace, kind, fingerprint);
      SuppressionIsExact(identity, CommitAll(identity, origin, front), calls[last], workspace, kind, fingerprint);
      if i: nat :| SilencedAt(identity, origin, front, i, workspace, kind, fingerprint) {
        assert front[..i] == calls[..i];
        assert SilencedAt(identity, origin, calls, i, workspace, kind, fingerprint);
      }
      if i: nat :| SilencedAt(identity, origin, calls, i, workspace, kind, fingerprint) {
        if i < last {
          assert front[..i] == calls[..i];
          assert SilencedAt(identity, origin, front, i, workspace, kind, fingerprint);
        }
      }
      if Silences(identity, CommitAll(identity, origin, front), calls[last], workspace, kind, fingerprint) {
        assert SilencedAt(identity, origin, calls, last, workspace, kind, fingerprint);
      }
    }
  }

  ghost predicate SilencedAt(
    identity: Identity, origin: Db, calls: seq<Call>, i: nat, workspace: WorkspaceId, kind: Kind,
    fingerprint: Fingerprint)
  {
    i < |calls|
    && Silences(identity, CommitAll(identity, origin, calls[..i]), calls[i], workspace, kind, fingerprint)
  }

  // ----- What requests leave -----

  /** A policy that is accepted is the one of its workspace from then on, and nothing else changes. */
  lemma PolicyIsPut(identity: Identity, db: Db, workspace: WorkspaceId, policy: Policy)
    requires 1 <= policy.namedDays <= 90
    ensures Commit(identity, db, PutPolicy(workspace, policy)) == db.(policies := db.policies[workspace := policy])
  {
  }

  lemma AccessIsExact(identity: Identity, db: Db, id: RequestId, workspace: WorkspaceId, kind: Kind, value: string)
    requires AccessOutcome(identity, db, id, workspace, kind, value).Ok? && id !in db.requests
    ensures var (after, row) := AccessOutcome(identity, db, id, workspace, kind, value).value;
      && row == SubjectRequest(workspace, Access, kind, FingerprintOf(identity, kind, value).value, 0)
      && after == db.(
           requests := db.requests[id := row], audit := db.audit + [RequestCompleted(workspace, id, 0)])
  {
  }

  /** What a rewritten row holds: the replacement as an email contact of now, with no source but the request. */
  ghost predicate IsReplaced(
    identity: Identity, after: Contact, workspace: WorkspaceId, id: RequestId, replacement: string, now: int)
  {
    var point := FromEmail(identity, replacement, now);
    && point.Some? && FingerprintOf(identity, Email, point.value.value) == Ok(after.fingerprint)
    && after.workspace == workspace && after.kind == Email && after.value == point.value.value
    && after.source == Subject(id) && after.classification == point.value.classification
    && after.collectedAt == now && after.expiresAt == point.value.expiresAt
  }

  /** A rectification rewrites the subject's contacts of its workspace to the replacement, and no other contact;
      it suppresses the old value in that workspace, and the audit event says how many rows there were. */
  lemma RectificationIsExact(
    identity: Identity, db: Db, id: RequestId, workspace: WorkspaceId, value: string, replacement: string,
    now: int, clock: int)
    requires RectifyOutcome(identity, db, id, workspace, Email, value, replacement, now, clock).Ok?
    requires id !in db.requests
    ensures var (after, row) :=
        RectifyOutcome(identity, db, id, workspace, Email, value, replacement, now, clock).value;
      var was := FingerprintOf(identity, Email, value).value;
      var rows := set c | c in db.contacts && IsSubjects(db.contacts[c], workspace, Email, was);
      && after.contacts.Keys == db.contacts.Keys
      && (forall c | c in rows :: IsReplaced(identity, after.contacts[c], workspace, id, replacement, now))
      && (forall c | c in db.contacts && c !in rows :: after.contacts[c] == db.contacts[c])
      && row == SubjectRequest(workspace, Rectification, Email, was, 0)
      && after.requests == db.requests[id := row]
      && after.audit == db.audit + [RequestCompleted(workspace, id, |rows|)]
      && after.suppressions == db.suppressions + {Suppression(Local(workspace), Email, was)}
      && after.policies == db.policies && after.retention == db.retention
  {
    var was := FingerprintOf(identity, Email, value).value;
    var rows := set c | c in db.contacts && IsSubjects(db.contacts[c], workspace, Email, was);
    assert rows == Matching(db, workspace, Email, was);
    if rows != {} {
      var c :| c in rows;
      assert RowRectifiable(identity, db, workspace, db.contacts[c], replacement, now, clock);
    }
  }

  // ----- What persisting leaves -----

  /** Which of the four things happens to a candidate. */
  ghost predicate Falls(
    identity: Identity, db: Db, workspace: WorkspaceId, cutoff: int, c: Candidate, verdict: Verdict)
  {
    if c.point.expiresAt <= cutoff then verdict == Expired
    else if !(c.clock < c.point.expiresAt
              && (c.point.classification == Named ==>
                    Permits(db, workspace, c.point.collectedAt, c.point.expiresAt)))
    then verdict == PolicyRejected
    else
      && Usable(identity, c.point.kind, c.point.value)
      && var fingerprint := FingerprintOf(identity, c.point.kind, c.point.value).value;
      verdict == if Suppressed(db, workspace, c.point.kind, fingerprint) then SuppressedContact
                 else Persisted(fingerprint)
  }

  lemma VerdictsAreExact(
    identity: Identity, db: Db, workspace: WorkspaceId, cutoff: int, c: Candidate, verdict: Verdict)
    ensures Judge(identity, db, workspace, cutoff, c) == Ok(verdict)
       <==> Falls(identity, db, workspace, cutoff, c, verdict)
  {
    GateIsExact(db, workspace, c.point, c.clock);
  }

  /** The positions of the candidates with a verdict, any fingerprint counting as persisted. */
  ghost function Where(
    identity: Identity, db: Db, workspace: WorkspaceId, cutoff: int, candidates: seq<Candidate>, verdict: Verdict)
    : set<nat>
  {
    set i: nat | i < |candidates| && IsAt(identity, db, workspace, cutoff, candidates[i], verdict)
  }

  predicate Alike(a: Verdict, b: Verdict) {
    a == b || (a.Persisted? && b.Persisted?)
  }

  ghost predicate IsAt(
    identity: Identity, db: Db, workspace: WorkspaceId, cutoff: int, c: Candidate, verdict: Verdict)
  {
    exists v :: Alike(v, verdict) && Falls(identity, db, workspace, cutoff, c, v)
  }

  lemma IsAtExactly(
    identity: Identity, db: Db, workspace: WorkspaceId, cutoff: int, c: Candidate, verdict: Verdict, judged: Verdict)
    requires Judge(identity, db, workspace, cutoff, c) == Ok(judged)
    ensures IsAt(identity, db, workspace, cutoff, c, verdict) <==> Alike(judged, verdict)
  {
    VerdictsAreExact(identity, db, workspace, cutoff, c, judged);
    if v :| Alike(v, verdict) && Falls(identity, db, workspace, cutoff, c, v) {
      VerdictsAreExact(identity, db, workspace, cutoff, c, v);
    }
  }

  lemma WhereGrows(
    identity: Identity, db: Db, workspace: WorkspaceId, cutoff: int, candidates: seq<Candidate>, verdict: Verdict,
    last: nat, judged: Verdict)
    requires candidates != [] && last == |candidates| - 1
    requires Judge(identity, db, workspace, cutoff, candidates[last]) == Ok(judged)
    ensures |Where(identity, db, workspace, cutoff, candidates, verdict)|
         == |Where(identity, db, workspace, cutoff, candidates[..last], verdict)|
            + if Alike(judged, verdict) then 1 else 0
  {
    var before := Where(identity, db, workspace, cutoff, candidates[..last], verdict);
    var after := Where(identity, db, workspace, cutoff, candidates, verdict);
    IsAtExactly(identity, db, workspace, cutoff, candidates[last], verdict, judged);
    assert after == before + if Alike(judged, verdict) then {last} else {};
    assert last !in before;
  }

  /** Each of the four counts is the number of the candidates it is about. */
  lemma {:induction false} CountsAreExact(
    identity: Identity, db: Db, workspace: WorkspaceId, cutoff: int, candidates: seq<Candidate>)
    requires PersistOutcome(identity, db, workspace, cutoff, candidates).Ok?
    ensures var counts := PersistOutcome(identity, db, workspace, cutoff, candidates).value.1;
      && counts.expired == |Where(identity, db, workspace, cutoff, candidates, Expired)|
      && counts.policyRejected == |Where(identity, db, workspace, cutoff, candidates, PolicyRejected)|
      && counts.suppressed == |Where(identity, db, workspace, cutoff, candidates, SuppressedContact)|
      && counts.persisted == |Where(identity, db, workspace, cutoff, candidates, Persisted(0))|
  {
    if candidates != [] {
      var last := |candidates| - 1;
      CountsAreExact(identity, db, workspace, cutoff, candidates[..last]);
      var judged := Judge(identity, db, workspace, cutoff, candidates[last]).value;
      WhereGrows(identity, db, workspace, cutoff, candidates, Expired, last, judged);
      WhereGrows(identity, db, workspace, cutoff, candidates, PolicyRejected, last, judged);
      WhereGrows(identity, db, workspace, cutoff, candidates, SuppressedContact, last, judged);
      WhereGrows(identity, db, workspace, cutoff, candidates, Persisted(0), last, judged);
    }
  }

  ghost predicate IsStored(
    identity: Identity, db: Db, workspace: WorkspaceId, cutoff: int, c: Candidate)
  {
    exists f :: Falls(identity, db, workspace, cutoff, c, Persisted(f))
  }

  ghost predicate IsJudged(
    identity: Identity, db: Db, workspace: WorkspaceId, cutoff: int, c: Candidate)
  {
    exists v :: Falls(identity, db, workspace, cutoff, c, v)
  }

  lemma Judgement(identity: Identity, db: Db, workspace: WorkspaceId, cutoff: int, c: Candidate)
    ensures Judge(identity, db, workspace, cutoff, c).Ok? <==> IsJudged(identity, db, workspace, cutoff, c)
    ensures Persists(identity, db, workspace, cutoff, c) <==> IsStored(identity, db, workspace, cutoff, c)
  {
    if Judge(identity, db, workspace, cutoff, c).Ok? {
      VerdictsAreExact(identity, db, workspace, cutoff, c, Judge(identity, db, workspace, cutoff, c).value);
    }
    if v :| Falls(identity, db, workspace, cutoff, c, v) {
      VerdictsAreExact(identity, db, workspace, cutoff, c, v);
    }
    if f :| Falls(identity, db, workspace, cutoff, c, Persisted(f)) {
      VerdictsAreExact(identity, db, workspace, cutoff, c, Persisted(f));
    }
  }

  /** The id drawn for candidate i is new, also among those of the candidates before it. */
  ghost predicate IsNewId(
    identity: Identity, db: Db, workspace: WorkspaceId, cutoff: int, candidates: seq<Candidate>, i: nat)
    requires i < |candidates|
  {
    && candidates[i].id !in db.contacts
    && forall j | 0 <= j < i && IsStored(identity, db, workspace, cutoff, candidates[j]) ::
         candidates[j].id != candidates[i].id
  }

  /** Persisting succeeds if and only if no identifier that has to be looked up is unusable, and the ids drawn
      for the rows to store are new and different. */
  lemma {:induction false} PersistSucceedsExactly(
    identity: Identity, db: Db, workspace: WorkspaceId, cutoff: int, candidates: seq<Candidate>)
    ensures PersistOutcome(identity, db, workspace, cutoff, candidates).Ok? <==>
      forall i: nat | i < |candidates| ::
        && IsJudged(identity, db, workspace, cutoff, candidates[i])
        && (IsStored(identity, db, workspace, cutoff, candidates[i]) ==>
              IsNewId(identity, db, workspace, cutoff, candidates, i))
  {
    if candidates != [] {
      var last := |candidates| - 1;
      var front, c := candidates[..last], candidates[last];
      PersistSucceedsExactly(identity, db, workspace, cutoff, front);
      Judgement(identity, db, workspace, cutoff, c);
      forall i: nat | i < last
        ensures IsNewId(identity, db, workspace, cutoff, candidates, i)
           <==> IsNewId(identity, db, workspace, cutoff, front, i)
      {
      }
      if PersistOutcome(identity, db, workspace, cutoff, front).Ok? {
        IdsTaken(identity, db, workspace, cutoff, front, c.id);
        assert IsNewId(identity, db, workspace, cutoff, candidates, last)
          <==> c.id !in PersistOutcome(identity, db, workspace, cutoff, front).value.0.contacts;
      }
    }
  }

  lemma IdsTaken(
    identity: Identity, db: Db, workspace: WorkspaceId, cutoff: int, front: seq<Candidate>, id: ContactId)
    requires PersistOutcome(identity, db, workspace, cutoff, front).Ok?
    ensures id in PersistOutcome(identity, db, workspace, cutoff, front).value.0.contacts <==>
      || id in db.contacts
      || exists j :: 0 <= j < |front| && IsStored(identity, db, workspace, cutoff, front[j]) && front[j].id == id
  {
    var so := PersistOutcome(identity, db, workspace, cutoff, front).value.0;
    PersistRows(identity, db, workspace, cutoff, front);
    if id in so.contacts && id !in db.contacts {
      assert RowExplained(identity, db, so, workspace, cutoff, front, id);
      var c :| c in front && c.id == id && Persists(identity, db, workspace, cutoff, c);
      var j :| 0 <= j < |front| && front[j] == c;
      Judgement(identity, db, workspace, cutoff, c);
    }
    if j :| 0 <= j < |front| && IsStored(identity, db, workspace, cutoff, front[j]) && front[j].id == id {
      var f :| Falls(identity, db, workspace, cutoff, front[j], Persisted(f));
      VerdictsAreExact(identity, db, workspace, cutoff, front[j], Persisted(f));
      assert RowStored(identity, db, so, workspace, cutoff, front[j]);
    }
  }

  /** A candidate that is to be stored gets a row of its own with everything it came with; only such rows are
      new, and the others stay. */
  lemma StoredRowsAreExact(
    identity: Identity, db: Db, workspace: WorkspaceId, cutoff: int, candidates: seq<Candidate>)
    requires PersistOutcome(identity, db, workspace, cutoff, candidates).Ok?
    ensures var so := PersistOutcome(identity, db, workspace, cutoff, candidates).value.0;
      && so == db.(contacts := so.contacts)
      && (forall id | id in db.contacts :: id in so.contacts && so.contacts[id] == db.contacts[id])
      && (forall c, f | c in candidates && Falls(identity, db, workspace, cutoff, c, Persisted(f)) ::
            c.id in so.contacts
            && so.contacts[c.id]
               == Contact(
                    workspace, c.point.kind, c.point.value, f, Website, c.point.classification,
                    c.point.collectedAt, c.point.expiresAt))
      && (forall id | id in so.contacts && id !in db.contacts ::
            exists c :: c in candidates && c.id == id && IsStored(identity, db, workspace, cutoff, c))
  {
    var so := PersistOutcome(identity, db, workspace, cutoff, candidates).value.0;
    PersistRows(identity, db, workspace, cutoff, candidates);
    PersistTouchesContactsOnly(identity, db, workspace, cutoff, candidates);
    forall c, f | c in candidates && Falls(identity, db, workspace, cutoff, c, Persisted(f))
      ensures c.id in so.contacts && so.contacts[c.id] == ContactOf(workspace, c.point, f)
    {
      VerdictsAreExact(identity, db, workspace, cutoff, c, Persisted(f));
      assert RowStored(identity, db, so, workspace, cutoff, c);
    }
    forall id | id in so.contacts && id !in db.contacts
      ensures exists c :: c in candidates && c.id == id && IsStored(identity, db, workspace, cutoff, c)
    {
      assert RowExplained(identity, db, so, workspace, cutoff, candidates, id);
      var c :| c in candidates && c.id == id && Persists(identity, db, workspace, cutoff, c);
      VerdictsAreExact(identity, db, workspace, cutoff, c, Judge(identity, db, workspace, cutoff, c).value);
    }
  }
}
