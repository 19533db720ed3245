/** Contacts, suppression and privacy policies: the rows, the identifier fingerprint, the policy gate and
    the contact factory (src/domain/contacts.py, src/domain/privacy.py, src/application/suppression.py,
    src/application/privacy_policy.py). */
module Contacts {
  import opened Basics
  import opened Outcomes
  import Text

  type ContactId = nat

  type RequestId = nat

  type Fingerprint = nat

  datatype Kind = Email | Phone

  datatype Classification = Generic | Named

  /** `Website` rows keep an HTTP(S) source URL; a rectified row has none and names its request. */
  datatype Source = Website | Subject(request: RequestId)

  /** A contact as extraction hands it over; the constructor refuses an expiry not after the collection. */
  datatype Point = ContactPoint(
    kind: Kind, value: string, classification: Classification, collectedAt: int, expiresAt: int)

  type ContactPoint = p: Point | p.collectedAt < p.expiresAt
    witness ContactPoint(Email, "", Generic, 0, 1)

  datatype Contact = Contact(
    workspace: WorkspaceId, kind: Kind, value: string, fingerprint: Fingerprint, source: Source,
    classification: Classification, collectedAt: int, expiresAt: int)

  datatype Scope = InWorkspace | Everywhere

  datatype ScopeKey = Local(workspace: WorkspaceId) | Global

  datatype Suppression = Suppression(scope: ScopeKey, kind: Kind, fingerprint: Fingerprint)

  datatype RequestKind = Access | Rectification | Erasure | Opposition

  datatype SubjectRequest = SubjectRequest(
    workspace: WorkspaceId, requestKind: RequestKind, kind: Kind, fingerprint: Fingerprint, deletedCount: nat)

  datatype Policy = Policy(namedDays: int, enabled: bool)

  datatype RetentionEvent = RetentionEvent(workspace: WorkspaceId, byExport: bool, deletedCount: nat, ranAt: int)

  datatype AuditEvent = RequestCompleted(workspace: WorkspaceId, request: RequestId, count: nat)

  datatype Db = Db(
    contacts: map<ContactId, Contact>, suppressions: set<Suppression>,
    requests: map<RequestId, SubjectRequest>, policies: map<WorkspaceId, Policy>,
    retention: seq<RetentionEvent>, audit: seq<AuditEvent>)

  datatype Error = IdentifierInvalid | RequestKindRejected | RequestIdReused | RectificationUnsupported
    | ReplacementRejected | SourceMissing | PolicyBlocked | ReplacementSuppressed | PolicyInvalid
    | ExportBlocked | BatchSizeRejected | IntegrityViolation

  /** Timestamps count microseconds. */
  const DAY: int := 86_400_000_000
  const GENERIC_DAYS: int := 365
  const NAMED_DAYS: int := 90

  // ----- Identifiers -----

  /** `normalizeEmail` is `normalize_email`, None where it raises, `hmac` the keyed digest of a normalised
      identifier, and `collate` the sort key the database gives a value. */
  datatype Identity = Identity(
    normalizeEmail: string -> Option<string>, hmac: (Kind, string) -> Fingerprint, collate: string -> string)

  predicate IsPhoneChar(c: char) {
    '0' <= c <= '9' || c == '+'
  }

  function PhoneChars(s: string): string {
    if s == [] then [] else (if IsPhoneChar(s[0]) then [s[0]] else []) + PhoneChars(s[1..])
  }

  function Normalized(identity: Identity, kind: Kind, value: string): Option<string> {
    match kind
    case Email => identity.normalizeEmail(value)
    case Phone =>
      var kept := PhoneChars(Text.Strip(value));
      if 7 <= |kept| <= 20 then Some(kept) else None
  }

  function FingerprintOf(identity: Identity, kind: Kind, value: string): Result<Fingerprint, Error> {
    match Normalized(identity, kind, value)
    case Some(normalized) => Ok(identity.hmac(kind, normalized))
    case None => Err(IdentifierInvalid)
  }

  /** Normalising is idempotent on phones, and ignores everything that is neither digit nor plus. */
  lemma PhoneNormalFormsAreFixed(identity: Identity, value: string)
    ensures var n := Normalized(identity, Phone, value);
      n.Some? ==>
        && Normalized(identity, Phone, n.value) == n
        && FingerprintOf(identity, Phone, n.value) == FingerprintOf(identity, Phone, value)
  {
    var kept := PhoneChars(Text.Strip(value));
    PhoneCharsKeep(Text.Strip(value));
    NothingToStrip(kept);
    PhoneCharsFix(kept);
  }

  lemma {:induction false} PhoneCharsKeep(s: string)
    ensures forall c :: c in PhoneChars(s) ==> IsPhoneChar(c)
  {
    if s != [] {
      PhoneCharsKeep(s[1..]);
    }
  }

  lemma {:induction false} PhoneCharsFix(s: string)
    requires forall c :: c in s ==> IsPhoneChar(c)
    ensures PhoneChars(s) == s
  {
    if s != [] {
      assert s[0] in s;
      PhoneCharsFix(s[1..]);
    }
  }

  lemma NothingToStrip(s: string)
    requires forall c :: c in s ==> IsPhoneChar(c)
    ensures Text.Strip(s) == s
  {
    if s != [] {
      assert s[0] in s && s[|s| - 1] in s;
    }
  }

  // ----- Suppression -----

  function ScopeKeyOf(workspace: WorkspaceId, scope: Scope): ScopeKey {
    match scope
    case InWorkspace => Local(workspace)
    case Everywhere => Global
  }

  predicate Suppressed(db: Db, workspace: WorkspaceId, kind: Kind, fingerprint: Fingerprint) {
    || Suppression(Global, kind, fingerprint) in db.suppressions
    || Suppression(Local(workspace), kind, fingerprint) in db.suppressions
  }

  // ----- The policy gate -----

  function PolicyOf(db: Db, workspace: WorkspaceId): Option<Policy> {
    if workspace in db.policies then Some(db.policies[workspace]) else None
  }

  predicate PolicyValid(policy: Policy) {
    1 <= policy.namedDays <= NAMED_DAYS
  }

  predicate Complete(policy: Option<Policy>) {
    policy.Some? && policy.value.enabled && policy.value.namedDays <= NAMED_DAYS
  }

  predicate Allowed(point: ContactPoint, policy: Option<Policy>, clock: int) {
    && clock < point.expiresAt
    && (point.classification == Generic
        || (Complete(policy) && point.expiresAt <= point.collectedAt + policy.value.namedDays * DAY))
  }

  // ----- The factory of email contacts -----

  const GENERIC_LOCAL_PARTS: set<string> := {
    "amministrazione", "assistenza", "booking", "commerciale", "comunicazione", "contact", "contatti",
    "customer.care", "customerservice", "hello", "help", "info", "marketing", "office", "ordini", "pec",
    "prenotazioni", "reception", "sales", "segreteria", "service", "support"}

  function LocalPart(email: string): string {
    if email == [] || email[0] == '@' then [] else [email[0]] + LocalPart(email[1..])
  }

  function Classify(email: string): Classification {
    if LocalPart(email) in GENERIC_LOCAL_PARTS then Generic else Named
  }

  /** `ContactPoint.from_email` for a row that still has its source URL; None where it raises.
      `classify_email` normalises once more. */
  function FromEmail(identity: Identity, value: string, collectedAt: int): Option<ContactPoint> {
    match identity.normalizeEmail(value)
    case None => None
    case Some(normalized) =>
      match identity.normalizeEmail(normalized)
      case None => None
      case Some(again) =>
        var classification := Classify(again);
        var days := if classification == Generic then GENERIC_DAYS else NAMED_DAYS;
        Some(ContactPoint(Email, normalized, classification, collectedAt, collectedAt + days * DAY))
  }

  /** An email contact keeps ninety days when it names a person, so the gate lets it in only under a
      complete policy of exactly ninety days; a generic one always passes until it expires. */
  lemma NamedEmailsNeedNinetyDays(
    identity: Identity, value: string, collectedAt: int, policy: Option<Policy>, clock: int)
    requires FromEmail(identity, value, collectedAt).Some?
    requires policy.Some? ==> PolicyValid(policy.value)
    ensures var point := FromEmail(identity, value, collectedAt).value;
      Allowed(point, policy, clock) <==>
        if point.classification == Generic then clock < collectedAt + GENERIC_DAYS * DAY
        else clock < collectedAt + NAMED_DAYS * DAY && Complete(policy) && policy.value.namedDays == NAMED_DAYS
  {
    var point := FromEmail(identity, value, collectedAt).value;
    if point.classification == Named && policy.Some? {
      assert policy.value.namedDays < NAMED_DAYS ==> policy.value.namedDays * DAY < NAMED_DAYS * DAY;
    }
  }
}
