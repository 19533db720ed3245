/** Login sessions, refresh rotation and MFA elevation (src/application/authentication.py): what each
    request answers and leaves behind, and what holds over every run of requests. */
module Sessions {
  import opened Outcomes

  type UserId = nat

  /** A value drawn from the random source. Hashing is injective, so a hash stands for its value. */
  type Nonce = nat

  type SessionId = Nonce

  datatype User = User(active: bool, version: int)

  datatype Pair = Pair(refresh: Nonce, csrf: Nonce)

  datatype Record = Record(user: UserId, pair: Pair, mfa: bool, expiresAt: int, revokedAt: Option<int>)

  datatype Credential = Credential(secret: Nonce, recoveryCodes: seq<Nonce>, confirmedAt: Option<int>)

  /** The signed claims; `issuedAt` opens the window in which the token decodes. */
  datatype AccessToken = AccessToken(user: UserId, session: SessionId, version: int, mfa: bool, issuedAt: int)

  datatype Tokens = Tokens(access: AccessToken, pair: Pair)

  datatype Context = Context(user: UserId, session: SessionId, mfa: bool)

  datatype Enrollment = Enrollment(secret: Nonce, recoveryCodes: seq<Nonce>)

  datatype AuditEvent = LoggedIn(user: UserId, session: SessionId) | LoggedOut(user: UserId, session: SessionId)
    | MfaConfirmed(user: UserId) | LoginFailed

  datatype AuthError = BadCredentials | TokenRejected | SessionInvalid | UserInvalid | MfaRequired
    | MfaMissing | MfaUnconfirmed | CodeRejected

  /** The committed tables, and how many values have been drawn. */
  datatype Store = Store(
    users: map<UserId, User>, sessions: map<SessionId, Record>, credentials: map<UserId, Credential>,
    audit: seq<AuditEvent>, drawn: Nonce)

  /** `totp` decides whether a code is current for a secret at a time. */
  datatype Settings = Settings(refreshLifetime: int, accessLifetime: int, totp: (Nonce, Nonce, int) -> bool)

  const RECOVERY_CODES: nat := 8

  // ----- What each call of the service does; a raise leaves only what it committed itself -----

  type Outcome<T> = (Store, Result<T, AuthError>)

  predicate Live(record: Record, now: int) {
    record.revokedAt.None? && now < record.expiresAt
  }

  function Bundle(store: Store, user: UserId, s: SessionId, now: int): Tokens
    requires user in store.users && s in store.sessions
  {
    var r := store.sessions[s];
    Tokens(AccessToken(user, s, store.users[user].version, r.mfa, now), r.pair)
  }

  function Rotated(store: Store, s: SessionId): Store
    requires s in store.sessions
  {
    var next := store.sessions[s].(pair := Pair(store.drawn, store.drawn + 1));
    store.(sessions := store.sessions[s := next], drawn := store.drawn + 2)
  }

  function LoginOutcome(settings: Settings, store: Store, user: UserId, passwordOk: bool, now: int): Outcome<Tokens> {
    if user !in store.users || !passwordOk || !store.users[user].active then (store, Err(BadCredentials))
    else
      var pair, id := Pair(store.drawn, store.drawn + 1), store.drawn + 2;
      var record := Record(user, pair, false, now + settings.refreshLifetime, None);
      var after := store.(
        sessions := store.sessions[id := record],
        audit := store.audit + [LoggedIn(user, id)],
        drawn := store.drawn + 3);
      (after, Ok(Bundle(after, user, id, now)))
  }

  function Revoked(store: Store, s: SessionId, now: int): Store
    requires s in store.sessions
  {
    store.(sessions := store.sessions[s := store.sessions[s].(revokedAt := Some(now))])
  }

  function RefreshOutcome(store: Store, s: SessionId, pair: Pair, now: int): Outcome<Tokens> {
    if s !in store.sessions || !Live(store.sessions[s], now) then (store, Err(SessionInvalid))
    else if store.sessions[s].pair != pair then (Revoked(store, s, now), Err(SessionInvalid))
    else if store.sessions[s].user !in store.users || !store.users[store.sessions[s].user].active then
      (store, Err(SessionInvalid))
    else (Rotated(store, s), Ok(Bundle(Rotated(store, s), store.sessions[s].user, s, now)))
  }

  predicate Decodes(settings: Settings, token: AccessToken, now: int) {
    token.issuedAt <= now < token.issuedAt + settings.accessLifetime
  }

  function Authenticated(settings: Settings, store: Store, token: AccessToken, now: int): Result<Context, AuthError> {
    if !Decodes(settings, token, now) then Err(TokenRejected)
    else if
      || token.session !in store.sessions || token.user !in store.users
      || store.sessions[token.session].user != token.user
      || !Live(store.sessions[token.session], now)
      || !store.users[token.user].active
      || token.version != store.users[token.user].version
      || token.mfa != store.sessions[token.session].mfa
    then Err(SessionInvalid)
    else Ok(Context(token.user, token.session, store.sessions[token.session].mfa))
  }

  function LogoutOutcome(store: Store, context: Context, now: int): Outcome<()> {
    var s := context.session;
    var after :=
      if s in store.sessions && store.sessions[s].user == context.user then Revoked(store, s, now) else store;
    (after.(audit := after.audit + [LoggedOut(context.user, s)]), Ok(()))
  }

  function Swept(record: Record, user: UserId, now: int): Record {
    if record.user == user && record.revokedAt.None? then record.(revokedAt := Some(now)) else record
  }

  function RevokeAllOutcome(store: Store, user: UserId, now: int): Outcome<()> {
    if user !in store.users then (store, Ok(()))
    else
      var account := store.users[user];
      (store.(
        users := store.users[user := account.(version := account.version + 1)],
        sessions := map s | s in store.sessions :: Swept(store.sessions[s], user, now)),
      Ok(()))
  }

  function Drawn(first: Nonce, count: nat): seq<Nonce> {
    seq(count, i requires i >= 0 => first + i)
  }

  function EnrollOutcome(store: Store, context: Context): Outcome<Enrollment> {
    var u := context.user;
    if u !in store.users then (store, Err(UserInvalid))
    else if u in store.credentials && store.credentials[u].confirmedAt.Some? && !context.mfa then
      (store, Err(MfaRequired))
    else
      var codes := Drawn(store.drawn + 1, RECOVERY_CODES);
      (store.(
        credentials := store.credentials[u := Credential(store.drawn, codes, None)],
        drawn := store.drawn + 1 + RECOVERY_CODES),
      Ok(Enrollment(store.drawn, codes)))
  }

  function Without(codes: seq<Nonce>, code: Nonce): seq<Nonce> {
    if codes == [] then []
    else
      var front, last := codes[..|codes| - 1], codes[|codes| - 1];
      if last == code then Without(front, code) else Without(front, code) + [last]
  }

  /** The credential after its code was accepted: a recovery code is struck off, a TOTP code is not. */
  function Checked(settings: Settings, store: Store, user: UserId, code: Nonce, now: int)
    : Result<Credential, AuthError>
  {
    if user !in store.credentials then Err(MfaMissing)
    else
      var credential := store.credentials[user];
      if settings.totp(credential.secret, code, now) then Ok(credential)
      else if code in credential.recoveryCodes then
        Ok(credential.(recoveryCodes := Without(credential.recoveryCodes, code)))
      else Err(CodeRejected)
  }

  function Elevated(store: Store, context: Context, credential: Credential, now: int): Outcome<Tokens> {
    var s := context.session;
    if s !in store.sessions || context.user !in store.users || store.sessions[s].revokedAt.Some? then
      (store, Err(SessionInvalid))
    else
      var marked := store.(
        credentials := store.credentials[context.user := credential],
        sessions := store.sessions[s := store.sessions[s].(mfa := true)]);
      (Rotated(marked, s), Ok(Bundle(Rotated(marked, s), context.user, s, now)))
  }

  function ConfirmOutcome(settings: Settings, store: Store, context: Context, code: Nonce, now: int): Outcome<Tokens> {
    var checked := Checked(settings, store, context.user, code, now);
    if checked.Err? then (store, Err(checked.error))
    else
      var (after, r) := Elevated(store, context, checked.value.(confirmedAt := Some(now)), now);
      (if r.Ok? then after.(audit := after.audit + [MfaConfirmed(context.user)]) else store, r)
  }

  function VerifyOutcome(settings: Settings, store: Store, context: Context, code: Nonce, now: int): Outcome<Tokens> {
    var checked := Checked(settings, store, context.user, code, now);
    if checked.Err? then (store, Err(checked.error))
    else if checked.value.confirmedAt.None? then (store, Err(MfaUnconfirmed))
    else Elevated(store, context, checked.value, now)
  }

  // ----- Requests: the access token is authenticated in the transaction of the call it guards -----

  /** `Account` stands for whatever else writes the users table. */
  datatype Request = Login(user: UserId, passwordOk: bool) | Refresh(session: SessionId, pair: Pair)
    | Visit(token: AccessToken) | Logout(token: AccessToken) | RevokeAll(user: UserId) | Enroll(token: AccessToken)
    | Confirm(token: AccessToken, code: Nonce) | Verify(token: AccessToken, code: Nonce)
    | Account(user: UserId, active: bool)

  datatype Answer = Issued(tokens: Tokens) | Seen(context: Context) | Enrolled(enrollment: Enrollment) | Done

  type Reply = Result<Answer, AuthError>

  function Issuing(outcome: Outcome<Tokens>): (Store, Reply) {
    (outcome.0, match outcome.1 case Ok(tokens) => Ok(Issued(tokens)) case Err(error) => Err(error))
  }

  function Finishing(outcome: Outcome<()>): (Store, Reply) {
    (outcome.0, match outcome.1 case Ok(_) => Ok(Done) case Err(error) => Err(error))
  }

  function Enrolling(outcome: Outcome<Enrollment>): (Store, Reply) {
    (outcome.0, match outcome.1 case Ok(enrollment) => Ok(Enrolled(enrollment)) case Err(error) => Err(error))
  }

  function Guarded(settings: Settings, store: Store, request: Request, context: Context, now: int): (Store, Reply)
    requires request.Visit? || request.Logout? || request.Enroll? || request.Confirm? || request.Verify?
  {
    match request
    case Visit(_) => (store, Ok(Seen(context)))
    case Logout(_) => Finishing(LogoutOutcome(store, context, now))
    case Enroll(_) => Enrolling(EnrollOutcome(store, context))
    case Confirm(_, code) => Issuing(ConfirmOutcome(settings, store, context, code, now))
    case Verify(_, code) => Issuing(VerifyOutcome(settings, store, context, code, now))
  }

  function WithAccount(store: Store, user: UserId, active: bool): Store {
    var account := if user in store.users then store.users[user].(active := active) else User(active, 1);
    store.(users := store.users[user := account])
  }

  function Step(settings: Settings, store: Store, request: Request, now: int): (Store, Reply) {
    match request
    case Login(user, passwordOk) => Issuing(LoginOutcome(settings, store, user, passwordOk, now))
    case Refresh(s, pair) => Issuing(RefreshOutcome(store, s, pair, now))
    case RevokeAll(user) => Finishing(RevokeAllOutcome(store, user, now))
    case Account(user, active) => (WithAccount(store, user, active), Ok(Done))
    case _ =>
      var context := Authenticated(settings, store, request.token, now);
      if context.Err? then (store, Err(context.error)) else Guarded(settings, store, request, context.value, now)
  }

  /** A request with the time at which its transaction runs. */
  datatype Timed = Timed(request: Request, now: int)

  /** The store after the first k requests of a run. */
  function At(settings: Settings, origin: Store, run: seq<Timed>, k: nat): Store
    requires k <= |run|
  {
    if k == 0 then origin
    else Step(settings, At(settings, origin, run, k - 1), run[k - 1].request, run[k - 1].now).0
  }

  function After(settings: Settings, origin: Store, run: seq<Timed>): Store {
    At(settings, origin, run, |run|)
  }

  /** The reply to the k-th request of a run. */
  function ReplyAt(settings: Settings, origin: Store, run: seq<Timed>, k: nat): Reply
    requires k < |run|
  {
    Step(settings, At(settings, origin, run, k), run[k].request, run[k].now).1
  }

  ghost predicate Clocked(run: seq<Timed>, start: int) {
    && (forall k | 0 <= k < |run| :: start <= run[k].now)
    && (forall i, j | 0 <= i < j < |run| :: run[i].now <= run[j].now)
  }

  // ----- What a failed request leaves behind -----

  /** A refused refresh is the replay of a pair on a live session. */
  predicate Replays(store: Store, request: Request, now: int) {
    && request.Refresh? && request.session in store.sessions
    && Live(store.sessions[request.session], now) && store.sessions[request.session].pair != request.pair
  }

  /** A request that raises changes nothing, except that a replay always raises and revokes its session:
      its commit comes before the raise. */
  lemma FailuresRollBack(settings: Settings, store: Store, request: Request, now: int)
    ensures var (after, reply) := Step(settings, store, request, now);
      && (reply.Err? ==> (after != store <==> Replays(store, request, now)))
      && (Replays(store, request, now) ==>
        reply == Err(SessionInvalid) && after == Revoked(store, request.session, now))
  {
  }

  /** The revocation of a deactivated user's session is rolled back by its own raise: reactivated, the
      user refreshes with the same pair. */
  lemma InactiveRefreshIsForgotten(
    settings: Settings, store: Store, s: SessionId, now: int, later: int)
    requires s in store.sessions && store.sessions[s].user in store.users
    requires !store.users[store.sessions[s].user].active
    requires Live(store.sessions[s], later) && now <= later
    ensures var refresh, user := Refresh(s, store.sessions[s].pair), store.sessions[s].user;
      && Step(settings, store, refresh, now) == (store, Err(SessionInvalid))
      && Step(settings, WithAccount(store, user, true), refresh, later).1.Ok?
  {
  }

  /** What a request adds to the audit log: logins, logouts and confirmations that succeed, and nothing else. */
  ghost predicate Adds(before: Store, after: Store, request: Request, reply: Reply) {
    if reply.Ok? && request.Login? && reply.value.Issued? then
      after.audit == before.audit + [LoggedIn(request.user, reply.value.tokens.access.session)]
    else if reply.Ok? && request.Logout? then
      after.audit == before.audit + [LoggedOut(request.token.user, request.token.session)]
    else if reply.Ok? && request.Confirm? then after.audit == before.audit + [MfaConfirmed(request.token.user)]
    else after.audit == before.audit
  }

  lemma StepRecords(settings: Settings, store: Store, request: Request, now: int)
    ensures var (after, reply) := Step(settings, store, request, now); Adds(store, after, request, reply)
  {
  }

  /** A failed login appends its event before it raises, and the raise rolls it back: over any run no such
      event is ever committed. */
  lemma {:induction false} FailedLoginsLeaveNoEvent(settings: Settings, origin: Store, run: seq<Timed>, k: nat)
    requires k <= |run|
    ensures var store := At(settings, origin, run, k);
      origin.audit <= store.audit && LoginFailed !in store.audit[|origin.audit|..]
  {
    if k > 0 {
      FailedLoginsLeaveNoEvent(settings, origin, run, k - 1);
      var before, after := At(settings, origin, run, k - 1), At(settings, origin, run, k);
      StepRecords(settings, before, run[k - 1].request, run[k - 1].now);
      assert after.audit[|origin.audit|..] == before.audit[|origin.audit|..] + after.audit[|before.audit|..];
    }
  }

  // ----- Sessions only ever age -----

  predicate Dead(record: Record, now: int) {
    !Live(record, now)
  }

  /** What any later state may have made of a session row, `start` being no later than the requests since. */
  predicate RowAges(before: Record, after: Record, start: int) {
    && after.user == before.user && after.expiresAt == before.expiresAt
    && (before.mfa ==> after.mfa)
    && (after.pair == before.pair || before.pair.refresh < after.pair.refresh)
    && (before.revokedAt.Some? ==> after == before)
    && (Dead(before, start) ==> after.pair == before.pair && after.mfa == before.mfa)
  }

  ghost predicate SessionsAge(before: Store, after: Store, start: int) {
    forall s | s in before.sessions :: s in after.sessions && RowAges(before.sessions[s], after.sessions[s], start)
  }

  ghost predicate VersionsGrow(before: Store, after: Store) {
    forall u | u in before.users :: u in after.users && before.users[u].version <= after.users[u].version
  }

  ghost predicate Ages(before: Store, after: Store, start: int) {
    SessionsAge(before, after, start) && VersionsGrow(before, after) && before.drawn <= after.drawn
  }

  /** Every stored value has been drawn. */
  ghost predicate PairsDrawn(store: Store) {
    forall s | s in store.sessions ::
      s < store.drawn && store.sessions[s].pair.refresh < store.drawn && store.sessions[s].pair.csrf < store.drawn
  }

  ghost predicate AgesInto(store: Store, after: Store, start: int) {
    Ages(store, after, start) && PairsDrawn(after)
  }

  lemma LoginAges(settings: Settings, store: Store, user: UserId, passwordOk: bool, now: int, start: int)
    requires PairsDrawn(store)
    ensures AgesInto(store, LoginOutcome(settings, store, user, passwordOk, now).0, start)
  {
  }

  lemma RefreshAges(store: Store, s: SessionId, pair: Pair, now: int, start: int)
    requires PairsDrawn(store) && start <= now
    ensures AgesInto(store, RefreshOutcome(store, s, pair, now).0, start)
  {
  }

  lemma ElevationAges(store: Store, context: Context, credential: Credential, now: int, start: int)
    requires PairsDrawn(store)
    requires context.session in store.sessions && !Dead(store.sessions[context.session], start)
    ensures AgesInto(store, Elevated(store, context, credential, now).0, start)
  {
  }

  lemma CodeAges(settings: Settings, store: Store, context: Context, code: Nonce, now: int, start: int)
    requires PairsDrawn(store)
    requires context.session in store.sessions && !Dead(store.sessions[context.session], start)
    ensures AgesInto(store, ConfirmOutcome(settings, store, context, code, now).0, start)
    ensures AgesInto(store, VerifyOutcome(settings, store, context, code, now).0, start)
  {
    var checked := Checked(settings, store, context.user, code, now);
    if checked.Ok? {
      ElevationAges(store, context, checked.value.(confirmedAt := Some(now)), now, start);
      ElevationAges(store, context, checked.value, now, start);
    }
  }

  lemma RevokeAllAges(store: Store, user: UserId, now: int, start: int)
    requires PairsDrawn(store)
    ensures AgesInto(store, RevokeAllOutcome(store, user, now).0, start)
  {
  }

  lemma LogoutAges(store: Store, context: Context, now: int, start: int)
    requires PairsDrawn(store)
    requires context.session in store.sessions && !Dead(store.sessions[context.session], start)
    ensures AgesInto(store, LogoutOutcome(store, context, now).0, start)
  {
  }

  lemma StepAges(settings: Settings, store: Store, request: Request, now: int, start: int)
    requires PairsDrawn(store) && start <= now
    ensures AgesInto(store, Step(settings, store, request, now).0, start)
  {
    match request {
      case Login(user, passwordOk) => LoginAges(settings, store, user, passwordOk, now, start);
      case Refresh(s, pair) => RefreshAges(store, s, pair, now, start);
      case RevokeAll(user) => RevokeAllAges(store, user, now, start);
      case Logout(token) =>
        var context := Authenticated(settings, store, token, now);
        if context.Ok? {
          LogoutAges(store, context.value, now, start);
        }
      case Confirm(token, code) =>
        var context := Authenticated(settings, store, token, now);
        if context.Ok? {
          CodeAges(settings, store, context.value, code, now, start);
        }
      case Verify(token, code) =>
        var context := Authenticated(settings, store, token, now);
        if context.Ok? {
          CodeAges(settings, store, context.value, code, now, start);
        }
      case _ =>
    }
  }

  lemma AgesOn(a: Store, b: Store, c: Store, start: int)
    requires Ages(a, b, start) && Ages(b, c, start)
    ensures Ages(a, c, start)
  {
    forall s | s in a.sessions ensures s in c.sessions && RowAges(a.sessions[s], c.sessions[s], start) {
      assert RowAges(a.sessions[s], b.sessions[s], start) && RowAges(b.sessions[s], c.sessions[s], start);
    }
  }

  lemma {:induction false} RunAgesFrom(
    settings: Settings, origin: Store, run: seq<Timed>, i: nat, j: nat, start: int)
    requires i <= j <= |run| && Clocked(run, start) && PairsDrawn(At(settings, origin, run, i))
    ensures AgesInto(At(settings, origin, run, i), At(settings, origin, run, j), start)
    decreases j
  {
    if i < j {
      RunAgesFrom(settings, origin, run, i, j - 1, start);
      var before := At(settings, origin, run, j - 1);
      StepAges(settings, before, run[j - 1].request, run[j - 1].now, start);
      AgesOn(At(settings, origin, run, i), before, At(settings, origin, run, j), start);
    }
  }

  lemma RunAges(settings: Settings, origin: Store, run: seq<Timed>, start: int)
    requires PairsDrawn(origin) && Clocked(run, start)
    ensures AgesInto(origin, After(settings, origin, run), start)
  {
    RunAgesFrom(settings, origin, run, 0, |run|, start);
  }

  // ----- Death is one-way -----

  /** A session that is revoked or past its deadline stays so: nothing authenticates on it, whenever the
      token was issued, and no refresh yields tokens. */
  lemma DeadSessionsStayDead(
    settings: Settings, origin: Store, run: seq<Timed>, s: SessionId, start: int, now: int)
    requires PairsDrawn(origin) && Clocked(run, start) && start <= now
    requires s in origin.sessions && Dead(origin.sessions[s], start)
    ensures var store := After(settings, origin, run);
      && (forall token: AccessToken | token.session == s :: Authenticated(settings, store, token, now).Err?)
      && (forall pair :: RefreshOutcome(store, s, pair, now) == (store, Err(SessionInvalid)))
  {
    RunAges(settings, origin, run, start);
  }

  /** The deadline is set at login and no rotation moves it. */
  lemma DeadlineIsFixedAtLogin(
    settings: Settings, origin: Store, user: UserId, at: int, run: seq<Timed>, now: int)
    requires PairsDrawn(origin) && Clocked(run, at)
    requires LoginOutcome(settings, origin, user, true, at).1.Ok?
    ensures var (begun, tokens) := LoginOutcome(settings, origin, user, true, at);
      var s, store := tokens.value.access.session, After(settings, begun, run);
      && s in store.sessions && store.sessions[s].expiresAt == at + settings.refreshLifetime
      && (now >= at + settings.refreshLifetime ==>
        forall token: AccessToken | token.session == s :: Authenticated(settings, store, token, now).Err?)
  {
    StepAges(settings, origin, Login(user, true), at, at);
    RunAges(settings, LoginOutcome(settings, origin, user, true, at).0, run, at);
  }

  /** `revoke_all` ends every session the user has, and no token with a version up to the current one
      authenticates for that user again, on any session. */
  lemma SweepsAreFinal(
    settings: Settings, origin: Store, user: UserId, at: int, run: seq<Timed>, token: AccessToken, now: int)
    requires PairsDrawn(origin) && user in origin.users && Clocked(run, at) && at <= now
    requires token.user == user
    requires
      || token.version <= origin.users[user].version
      || (token.session in origin.sessions && origin.sessions[token.session].user == user)
    ensures Authenticated(settings, After(settings, RevokeAllOutcome(origin, user, at).0, run), token, now).Err?
  {
    var swept := RevokeAllOutcome(origin, user, at).0;
    StepAges(settings, origin, RevokeAll(user), at, at);
    RunAges(settings, swept, run, at);
    if token.session in origin.sessions && origin.sessions[token.session].user == user {
      assert token.session in swept.sessions;
      DeadSessionsStayDead(settings, swept, run, token.session, at, now);
    }
  }

  // ----- Refresh pairs are single-use -----

  predicate IssuesFor(reply: Reply, s: SessionId) {
    reply.Ok? && reply.value.Issued? && reply.value.tokens.access.session == s
  }

  /** The pair last issued for a session over the first k requests, read off the replies alone. */
  function LatestPair(settings: Settings, origin: Store, run: seq<Timed>, k: nat, s: SessionId): Option<Pair>
    requires k <= |run|
  {
    if k == 0 then None
    else
      var reply := ReplyAt(settings, origin, run, k - 1);
      if IssuesFor(reply, s) then Some(reply.value.tokens.pair) else LatestPair(settings, origin, run, k - 1, s)
  }

  predicate SamePair(before: Store, after: Store, s: SessionId) {
    && (s in after.sessions <==> s in before.sessions)
    && (s in before.sessions ==> after.sessions[s].pair == before.sessions[s].pair)
  }

  /** A row gets a pair exactly when that pair is answered, and the pair is then fresh. */
  lemma StepIssues(settings: Settings, store: Store, request: Request, now: int, s: SessionId)
    ensures var (after, reply) := Step(settings, store, request, now);
      if IssuesFor(reply, s)
      then s in after.sessions && after.sessions[s].pair == reply.value.tokens.pair
        && store.drawn <= reply.value.tokens.pair.refresh < after.drawn
        && store.drawn <= reply.value.tokens.pair.csrf < after.drawn
        && reply.value.tokens.pair.refresh != reply.value.tokens.pair.csrf
      else SamePair(store, after, s)
  {
  }

  lemma {:induction false} PairIsTheLatest(settings: Settings, origin: Store, run: seq<Timed>, k: nat, s: SessionId)
    requires s !in origin.sessions && k <= |run|
    ensures var store, latest := At(settings, origin, run, k), LatestPair(settings, origin, run, k, s);
      && (s in store.sessions <==> latest.Some?)
      && (s in store.sessions ==> latest == Some(store.sessions[s].pair))
  {
    if k > 0 {
      PairIsTheLatest(settings, origin, run, k - 1, s);
      StepIssues(settings, At(settings, origin, run, k - 1), run[k - 1].request, run[k - 1].now, s);
    }
  }

  /** A refresh yields tokens if and only if it presents the pair last issued for a live session of an
      active user. */
  lemma OnlyTheLatestPairRefreshes(
    settings: Settings, origin: Store, run: seq<Timed>, s: SessionId, pair: Pair, now: int)
    requires s !in origin.sessions
    ensures var store := After(settings, origin, run);
      RefreshOutcome(store, s, pair, now).1.Ok? <==>
        && LatestPair(settings, origin, run, |run|, s) == Some(pair)
        && s in store.sessions && Live(store.sessions[s], now)
        && store.sessions[s].user in store.users && store.users[store.sessions[s].user].active
  {
    PairIsTheLatest(settings, origin, run, |run|, s);
  }

  /** Once a later pair has been issued for its session, the i-th request's pair is behind the stored one. */
  lemma RotatedPairIsBehind(
    settings: Settings, origin: Store, run: seq<Timed>, i: nat, j: nat, s: SessionId, start: int)
    requires PairsDrawn(origin) && Clocked(run, start) && i < j < |run|
    requires IssuesFor(ReplyAt(settings, origin, run, i), s) && IssuesFor(ReplyAt(settings, origin, run, j), s)
    ensures var store := After(settings, origin, run);
      && s in store.sessions
      && ReplyAt(settings, origin, run, i).value.tokens.pair.refresh < store.sessions[s].pair.refresh
  {
    var first, second := At(settings, origin, run, i + 1), At(settings, origin, run, j);
    RunAgesFrom(settings, origin, run, 0, i + 1, start);
    RunAgesFrom(settings, origin, run, i + 1, j, start);
    RunAgesFrom(settings, origin, run, 0, j + 1, start);
    RunAgesFrom(settings, origin, run, j + 1, |run|, start);
    StepIssues(settings, At(settings, origin, run, i), run[i].request, run[i].now, s);
    StepIssues(settings, second, run[j].request, run[j].now, s);
    assert first.sessions[s].pair.refresh <= second.sessions[s].pair.refresh < second.drawn;
  }

  /** A pair that was rotated away yields no tokens, and presenting it ends the session for good: nothing
      that happens later lets any token of the session authenticate or any pair refresh it. */
  lemma RotatedPairsEndTheirSession(
    settings: Settings, origin: Store, run: seq<Timed>, i: nat, j: nat, s: SessionId, start: int, now: int,
    later: seq<Timed>, token: AccessToken, pair: Pair, moment: int)
    requires PairsDrawn(origin) && Clocked(run, start) && i < j < |run| && start <= now
    requires IssuesFor(ReplyAt(settings, origin, run, i), s) && IssuesFor(ReplyAt(settings, origin, run, j), s)
    requires Clocked(later, now) && now <= moment && token.session == s
    ensures var rotated := ReplyAt(settings, origin, run, i).value.tokens.pair;
      var (ended, reply) := RefreshOutcome(After(settings, origin, run), s, rotated, now);
      var store := After(settings, ended, later);
      && reply.Err?
      && Authenticated(settings, store, token, moment).Err?
      && RefreshOutcome(store, s, pair, moment).1.Err?
  {
    RotatedPairIsBehind(settings, origin, run, i, j, s, start);
    RunAges(settings, origin, run, start);
    var store := After(settings, origin, run);
    var rotated := ReplyAt(settings, origin, run, i).value.tokens.pair;
    var ended := RefreshOutcome(store, s, rotated, now).0;
    RefreshAges(store, s, rotated, now, start);
    DeadSessionsStayDead(settings, ended, later, s, now, moment);
  }

  // ----- Elevation -----

  /** The code is current for the user's secret, or one of the recovery codes; `verify_mfa` also wants the
      enrollment confirmed. */
  predicate CodeAccepted(settings: Settings, store: Store, request: Request, now: int) {
    && (request.Confirm? || request.Verify?)
    && request.token.user in store.credentials
    && var credential := store.credentials[request.token.user];
    && (settings.totp(credential.secret, request.code, now) || request.code in credential.recoveryCodes)
    && (request.Verify? ==> credential.confirmedAt.Some?)
  }

  predicate ElevatesAt(settings: Settings, origin: Store, run: seq<Timed>, k: nat, s: SessionId) {
    && k < |run|
    && CodeAccepted(settings, At(settings, origin, run, k), run[k].request, run[k].now)
    && run[k].request.token.session == s
    && IssuesFor(ReplyAt(settings, origin, run, k), s)
  }

  lemma StepElevates(settings: Settings, store: Store, request: Request, now: int, s: SessionId)
    requires s in store.sessions ==> !store.sessions[s].mfa
    ensures var (after, reply) := Step(settings, store, request, now);
      s in after.sessions && after.sessions[s].mfa ==>
        CodeAccepted(settings, store, request, now) && request.token.session == s && IssuesFor(reply, s)
  {
  }

  /** A session that answers as MFA-verified was elevated by an accepted code on that very session. */
  lemma {:induction false} ElevationIsEarned(
    settings: Settings, origin: Store, run: seq<Timed>, n: nat, s: SessionId) returns (k: nat)
    requires n <= |run|
    requires s in origin.sessions ==> !origin.sessions[s].mfa
    requires var store := At(settings, origin, run, n); s in store.sessions && store.sessions[s].mfa
    ensures k < n && ElevatesAt(settings, origin, run, k, s)
  {
    var before := At(settings, origin, run, n - 1);
    if s in before.sessions && before.sessions[s].mfa {
      k := ElevationIsEarned(settings, origin, run, n - 1, s);
    } else {
      StepElevates(settings, before, run[n - 1].request, run[n - 1].now, s);
      k := n - 1;
    }
  }

  /** A context with MFA means an accepted code earlier on its session. */
  lemma MfaContextsAreEarned(
    settings: Settings, origin: Store, run: seq<Timed>, token: AccessToken, now: int)
    requires token.session in origin.sessions ==> !origin.sessions[token.session].mfa
    requires var context := Authenticated(settings, After(settings, origin, run), token, now);
      context.Ok? && context.value.mfa
    ensures exists k :: ElevatesAt(settings, origin, run, k, token.session)
  {
    var k := ElevationIsEarned(settings, origin, run, |run|, token.session);
  }

  /** The tokens answered by an elevation carry MFA, and every token of the session without it, issued
      before, stops authenticating from then on. */
  lemma ElevationRetiresOlderTokens(
    settings: Settings, store: Store, request: Request, at: int, run: seq<Timed>, earlier: AccessToken, now: int)
    requires PairsDrawn(store) && Clocked(run, at) && (request.Confirm? || request.Verify?)
    requires Step(settings, store, request, at).1.Ok?
    requires earlier.session == request.token.session && !earlier.mfa
    ensures Step(settings, store, request, at).1.value.tokens.access.mfa
    ensures Authenticated(settings, After(settings, Step(settings, store, request, at).0, run), earlier, now).Err?
  {
    StepAges(settings, store, request, at, at);
    RunAges(settings, Step(settings, store, request, at).0, run, at);
  }

  lemma IssuesWithTheFlag(settings: Settings, store: Store, request: Request, now: int, s: SessionId)
    requires IssuesFor(Step(settings, store, request, now).1, s)
    ensures var (after, reply) := Step(settings, store, request, now);
      && s in after.sessions && reply.value.tokens.access.mfa == after.sessions[s].mfa
      && (request.Confirm? || request.Verify? ==> after.sessions[s].mfa)
  {
  }

  /** No token issued for a session before its first elevation authenticates after it. */
  lemma TokensBeforeElevationRetire(
    settings: Settings, origin: Store, run: seq<Timed>, i: nat, j: nat, s: SessionId, start: int, now: int)
    requires PairsDrawn(origin) && Clocked(run, start) && i < j < |run|
    requires s in origin.sessions ==> !origin.sessions[s].mfa
    requires IssuesFor(ReplyAt(settings, origin, run, i), s)
    requires ElevatesAt(settings, origin, run, j, s)
    requires forall k: nat | k < j :: !ElevatesAt(settings, origin, run, k, s)
    ensures Authenticated(
      settings, After(settings, origin, run), ReplyAt(settings, origin, run, i).value.tokens.access, now).Err?
  {
    IssuesWithTheFlag(settings, At(settings, origin, run, i), run[i].request, run[i].now, s);
    if At(settings, origin, run, i + 1).sessions[s].mfa {
      var k := ElevationIsEarned(settings, origin, run, i + 1, s);
    }
    ElevationLasts(settings, origin, run, j, |run|, s, start);
  }

  /** An elevation retires exactly the tokens of its session without MFA; a second one leaves the MFA tokens
      issued before it valid. */
  lemma ElevationRetiresExactly(
    settings: Settings, store: Store, request: Request, at: int, token: AccessToken, now: int)
    requires (request.Confirm? || request.Verify?) && Step(settings, store, request, at).1.Ok?
    requires Authenticated(settings, store, token, now).Ok?
    ensures Authenticated(settings, Step(settings, store, request, at).0, token, now).Ok?
       <==> token.session != request.token.session || token.mfa
  {
  }

  /** Tokens authenticate as soon as they are issued, which the login, refresh and MFA routes rely on. */
  lemma IssuedTokensAuthenticate(settings: Settings, store: Store, request: Request, now: int)
    requires settings.accessLifetime > 0 && settings.refreshLifetime > 0
    requires var reply := Step(settings, store, request, now).1; reply.Ok? && reply.value.Issued?
    ensures var (after, reply) := Step(settings, store, request, now);
      Authenticated(settings, after, reply.value.tokens.access, now).Ok?
  {
  }

  // ----- When requests succeed -----

  /** The code is accepted, or the enrollment allowed, or nothing more is asked. */
  predicate Grants(settings: Settings, store: Store, request: Request, now: int)
    requires request.Visit? || request.Logout? || request.Enroll? || request.Confirm? || request.Verify?
  {
    match request
    case Visit(_) => true
    case Logout(_) => true
    case Enroll(token) =>
      !(token.user in store.credentials && store.credentials[token.user].confirmedAt.Some? && !token.mfa)
    case _ => CodeAccepted(settings, store, request, now)
  }

  /** A login succeeds if and only if the password is right and the user is stored and active; a refresh if and
      only if it presents the session's pair, the session being live and its user active; sweeps and account
      changes always; and everything else if and only if its token authenticates and what it asks for is
      granted. */
  lemma RequestsSucceedExactly(settings: Settings, store: Store, request: Request, now: int)
    ensures Step(settings, store, request, now).1.Ok? <==>
      match request
      case Login(user, passwordOk) => passwordOk && user in store.users && store.users[user].active
      case Refresh(s, pair) =>
        && s in store.sessions && store.sessions[s].pair == pair
        && store.sessions[s].revokedAt.None? && now < store.sessions[s].expiresAt
        && store.sessions[s].user in store.users && store.users[store.sessions[s].user].active
      case RevokeAll(_) => true
      case Account(_, _) => true
      case _ => Authenticated(settings, store, request.token, now).Ok? && Grants(settings, store, request, now)
  {
  }

  ghost predicate RefusesToken(settings: Settings, store: Store, token: AccessToken, now: int, error: AuthError) {
    if now < token.issuedAt || now >= token.issuedAt + settings.accessLifetime then error == TokenRejected
    else Authenticated(settings, store, token, now).Err? && error == SessionInvalid
  }

  ghost predicate RefusesCode(
    settings: Settings, store: Store, user: UserId, code: Nonce, now: int, error: AuthError)
  {
    if user !in store.credentials then error == MfaMissing
    else
      && !settings.totp(store.credentials[user].secret, code, now)
      && code !in store.credentials[user].recoveryCodes && error == CodeRejected
  }

  /** What a request that is refused raises: the first of its checks that fails. */
  ghost predicate Refuses(settings: Settings, store: Store, request: Request, now: int, error: AuthError) {
    match request
    case Login(_, _) => error == BadCredentials
    case Refresh(_, _) => error == SessionInvalid
    case RevokeAll(_) => false
    case Account(_, _) => false
    case Visit(token) => RefusesToken(settings, store, token, now, error)
    case Logout(token) => RefusesToken(settings, store, token, now, error)
    case Enroll(token) =>
      if Authenticated(settings, store, token, now).Err? then RefusesToken(settings, store, token, now, error)
      else error == MfaRequired
    case Confirm(token, code) =>
      if Authenticated(settings, store, token, now).Err? then RefusesToken(settings, store, token, now, error)
      else RefusesCode(settings, store, token.user, code, now, error)
    case Verify(token, code) =>
      if Authenticated(settings, store, token, now).Err? then RefusesToken(settings, store, token, now, error)
      else
        || RefusesCode(settings, store, token.user, code, now, error)
        || (CodeFits(settings, store, token.user, code, now) && error == MfaUnconfirmed)
  }

  ghost predicate CodeFits(settings: Settings, store: Store, user: UserId, code: Nonce, now: int) {
    && user in store.credentials
    && (settings.totp(store.credentials[user].secret, code, now) || code in store.credentials[user].recoveryCodes)
  }

  lemma RefusalsAreNamed(settings: Settings, store: Store, request: Request, now: int)
    ensures var reply := Step(settings, store, request, now).1;
      reply.Err? ==> Refuses(settings, store, request, now, reply.error)
  {
  }

  /** What a request that succeeds is answered: tokens of its user and session, the context its token stands
      for, a new enrollment, or nothing. */
  lemma RepliesAreExact(settings: Settings, store: Store, request: Request, now: int)
    ensures var (after, reply) := Step(settings, store, request, now);
      reply.Ok? ==>
        match request
        case Login(user, _) => reply.value.Issued? && reply.value.tokens.access.user == user
        case Refresh(s, _) =>
          && IssuesFor(reply, s) && s in store.sessions
          && reply.value.tokens.access.user == store.sessions[s].user
        case Visit(token) => reply.value == Seen(Context(token.user, token.session, token.mfa))
        case Enroll(_) => reply.value.Enrolled?
        case Confirm(token, _) => IssuesFor(reply, token.session) && reply.value.tokens.access.user == token.user
        case Verify(token, _) => IssuesFor(reply, token.session) && reply.value.tokens.access.user == token.user
        case _ => reply.value == Done
  {
  }

  // ----- Where sessions come from, and what ends them -----

  /** Request k logs the user in with the right password and is answered with tokens of a new session. */
  predicate Opens(settings: Settings, origin: Store, run: seq<Timed>, k: nat, s: SessionId, user: UserId) {
    && k < |run| && run[k].request == Login(user, true) && IssuesFor(ReplyAt(settings, origin, run, k), s)
    && user in At(settings, origin, run, k).users && At(settings, origin, run, k).users[user].active
    && s !in At(settings, origin, run, k).sessions
  }

  lemma StepOpens(settings: Settings, store: Store, request: Request, now: int, s: SessionId)
    requires s !in store.sessions && s in Step(settings, store, request, now).0.sessions
    ensures var (after, reply) := Step(settings, store, request, now);
      && request.Login? && request.passwordOk && IssuesFor(reply, s)
      && request.user in store.users && store.users[request.user].active
      && after.sessions[s]
         == Record(request.user, reply.value.tokens.pair, false, now + settings.refreshLifetime, None)
  {
  }

  /** Every session that was not there before was opened by an earlier login with the right password, belongs to
      the user who logged in, and ends the refresh lifetime after it. */
  lemma {:induction false} SessionsAreOpenedByLogins(
    settings: Settings, origin: Store, run: seq<Timed>, n: nat, s: SessionId, start: int) returns (k: nat)
    requires n <= |run| && PairsDrawn(origin) && Clocked(run, start)
    requires s !in origin.sessions && s in At(settings, origin, run, n).sessions
    ensures k < n
    ensures var record := At(settings, origin, run, n).sessions[s];
      && Opens(settings, origin, run, k, s, record.user)
      && record.expiresAt == run[k].now + settings.refreshLifetime
  {
    var before := At(settings, origin, run, n - 1);
    if s in before.sessions {
      k := SessionsAreOpenedByLogins(settings, origin, run, n - 1, s, start);
      RunAgesFrom(settings, origin, run, 0, n - 1, start);
      StepAges(settings, before, run[n - 1].request, run[n - 1].now, start);
    } else {
      StepOpens(settings, before, run[n - 1].request, run[n - 1].now, s);
      k := n - 1;
    }
  }

  /** The request ends the session: its own logout, a refresh of it with another pair than its own, or a sweep of
      its user. */
  predicate Kills(settings: Settings, store: Store, request: Request, now: int, s: SessionId) {
    && s in store.sessions && store.sessions[s].revokedAt.None?
    && match request
       case Logout(token) => token.session == s && Authenticated(settings, store, token, now).Ok?
       case Refresh(session, pair) =>
         session == s && now < store.sessions[s].expiresAt && pair != store.sessions[s].pair
       case RevokeAll(user) => user == store.sessions[s].user && user in store.users
       case _ => false
  }

  lemma StepKills(settings: Settings, store: Store, request: Request, now: int, s: SessionId)
    requires PairsDrawn(store) && s in store.sessions
    ensures var after := Step(settings, store, request, now).0;
      && s in after.sessions
      && after.sessions[s].revokedAt
         == if Kills(settings, store, request, now, s) then Some(now) else store.sessions[s].revokedAt
  {
  }

  predicate KilledAt(settings: Settings, origin: Store, run: seq<Timed>, k: nat, s: SessionId) {
    k < |run| && Kills(settings, At(settings, origin, run, k), run[k].request, run[k].now, s)
  }

  ghost predicate Killed(settings: Settings, origin: Store, run: seq<Timed>, n: nat, s: SessionId) {
    exists k: nat :: k < n && KilledAt(settings, origin, run, k, s)
  }

  lemma KilledByThen(settings: Settings, origin: Store, run: seq<Timed>, n: nat, last: nat, s: SessionId)
    requires n == last + 1
    ensures Killed(settings, origin, run, n, s)
       <==> Killed(settings, origin, run, last, s) || KilledAt(settings, origin, run, last, s)
  {
    if k: nat :| k < n && KilledAt(settings, origin, run, k, s) && k != last {
      assert k < last;
    }
  }

  /** Whether a session that began unrevoked is revoked is what happened to it. */
  ghost predicate EndedRightly(settings: Settings, origin: Store, run: seq<Timed>, n: nat, s: SessionId)
    requires n <= |run|
  {
    if s in At(settings, origin, run, n).sessions then
      At(settings, origin, run, n).sessions[s].revokedAt.Some? <==> Killed(settings, origin, run, n, s)
    else s !in origin.sessions && !Killed(settings, origin, run, n, s)
  }

  lemma EndsRightly(settings: Settings, origin: Store, run: seq<Timed>, n: nat, last: nat, s: SessionId)
    requires n == last + 1 <= |run| && PairsDrawn(At(settings, origin, run, last))
    requires EndedRightly(settings, origin, run, last, s)
    ensures EndedRightly(settings, origin, run, n, s)
  {
    var before := At(settings, origin, run, last);
    KilledByThen(settings, origin, run, n, last, s);
    if s in before.sessions {
      StepKills(settings, before, run[last].request, run[last].now, s);
    } else if s in At(settings, origin, run, n).sessions {
      StepOpens(settings, before, run[last].request, run[last].now, s);
    }
  }

  /** A session is revoked if and only if some request of the run ended it. */
  lemma {:induction false} SessionsEndForAReason(
    settings: Settings, origin: Store, run: seq<Timed>, n: nat, s: SessionId, start: int)
    requires n <= |run| && PairsDrawn(origin) && Clocked(run, start)
    requires s in origin.sessions ==> origin.sessions[s].revokedAt.None?
    ensures s in At(settings, origin, run, n).sessions ==>
      (At(settings, origin, run, n).sessions[s].revokedAt.Some? <==> Killed(settings, origin, run, n, s))
    ensures s !in At(settings, origin, run, n).sessions ==>
      s !in origin.sessions && !Killed(settings, origin, run, n, s)
  {
    if n > 0 {
      SessionsEndForAReason(settings, origin, run, n - 1, s, start);
      RunAgesFrom(settings, origin, run, 0, n - 1, start);
      EndsRightly(settings, origin, run, n, n - 1, s);
    }
  }

  /** How often the user was swept. */
  function Sweeps(settings: Settings, origin: Store, run: seq<Timed>, n: nat, user: UserId): nat
    requires n <= |run|
  {
    if n == 0 then 0
    else
      Sweeps(settings, origin, run, n - 1, user)
      + if run[n - 1].request == RevokeAll(user) && user in At(settings, origin, run, n - 1).users then 1 else 0
  }

  lemma StepUsers(settings: Settings, store: Store, request: Request, now: int, user: UserId)
    ensures var users := Step(settings, store, request, now).0.users;
      && (user in users <==> user in store.users || (request.Account? && request.user == user))
      && (user in users ==>
            && users[user].version
               == (if user in store.users then store.users[user].version else 1)
                  + (if request == RevokeAll(user) then 1 else 0)
            && users[user].active
               == if request.Account? && request.user == user then request.active else store.users[user].active)
  {
  }

  /** A user's version counts the sweeps. */
  lemma {:induction false} VersionsCountSweeps(
    settings: Settings, origin: Store, run: seq<Timed>, n: nat, user: UserId)
    requires n <= |run|
    ensures var users := At(settings, origin, run, n).users;
      user in users ==>
        users[user].version
        == (if user in origin.users then origin.users[user].version else 1)
           + Sweeps(settings, origin, run, n, user)
    ensures user !in At(settings, origin, run, n).users ==>
      user !in origin.users && Sweeps(settings, origin, run, n, user) == 0
  {
    if n > 0 {
      VersionsCountSweeps(settings, origin, run, n - 1, user);
      StepUsers(settings, At(settings, origin, run, n - 1), run[n - 1].request, run[n - 1].now, user);
    }
  }

  ghost predicate WasElevated(settings: Settings, origin: Store, run: seq<Timed>, n: nat, s: SessionId) {
    exists k: nat :: k < n && ElevatesAt(settings, origin, run, k, s)
  }

  /** A session is MFA-verified if and only if it was elevated. */
  lemma MfaMeansElevated(
    settings: Settings, origin: Store, run: seq<Timed>, n: nat, s: SessionId, start: int)
    requires n <= |run| && PairsDrawn(origin) && Clocked(run, start)
    requires s in origin.sessions ==> !origin.sessions[s].mfa
    ensures (s in At(settings, origin, run, n).sessions && At(settings, origin, run, n).sessions[s].mfa) <==>
      WasElevated(settings, origin, run, n, s)
  {
    if s in At(settings, origin, run, n).sessions && At(settings, origin, run, n).sessions[s].mfa {
      var k := ElevationIsEarned(settings, origin, run, n, s);
    }
    if k: nat :| k < n && ElevatesAt(settings, origin, run, k, s) {
      ElevationLasts(settings, origin, run, k, n, s, start);
    }
  }

  lemma ElevationLasts(
    settings: Settings, origin: Store, run: seq<Timed>, k: nat, n: nat, s: SessionId, start: int)
    requires k < n <= |run| && PairsDrawn(origin) && Clocked(run, start)
    requires ElevatesAt(settings, origin, run, k, s)
    ensures s in At(settings, origin, run, n).sessions && At(settings, origin, run, n).sessions[s].mfa
  {
    IssuesWithTheFlag(settings, At(settings, origin, run, k), run[k].request, run[k].now, s);
    RunAgesFrom(settings, origin, run, 0, k + 1, start);
    RunAgesFrom(settings, origin, run, k + 1, n, start);
  }

  /** The token is within its window, of a session the run opened for its user by a login less than the refresh
      lifetime ago and never ended, the user is active, the version counts the user's sweeps, and the MFA flag
      says whether the session was elevated. */
  ghost predicate Deserves(settings: Settings, origin: Store, run: seq<Timed>, token: AccessToken, now: int) {
    && token.issuedAt <= now < token.issuedAt + settings.accessLifetime
    && (exists k: nat :: Opens(settings, origin, run, k, token.session, token.user)
          && now < run[k].now + settings.refreshLifetime)
    && !Killed(settings, origin, run, |run|, token.session)
    && token.user in After(settings, origin, run).users && After(settings, origin, run).users[token.user].active
    && token.version
       == (if token.user in origin.users then origin.users[token.user].version else 1)
          + Sweeps(settings, origin, run, |run|, token.user)
    && (token.mfa <==> WasElevated(settings, origin, run, |run|, token.session))
  }

  lemma OpensStays(
    settings: Settings, origin: Store, run: seq<Timed>, k: nat, s: SessionId, user: UserId, start: int)
    requires PairsDrawn(origin) && Clocked(run, start) && Opens(settings, origin, run, k, s, user)
    ensures var store := After(settings, origin, run);
      && s in store.sessions && store.sessions[s].user == user
      && store.sessions[s].expiresAt == run[k].now + settings.refreshLifetime
  {
    StepIssues(settings, At(settings, origin, run, k), run[k].request, run[k].now, s);
    StepOpens(settings, At(settings, origin, run, k), run[k].request, run[k].now, s);
    RunAgesFrom(settings, origin, run, 0, k + 1, start);
    RunAgesFrom(settings, origin, run, k + 1, |run|, start);
  }

  /** What a token of a session the run opened authenticates by, read off the requests of the run and their
      replies. */
  lemma AuthenticatesExactly(
    settings: Settings, origin: Store, run: seq<Timed>, token: AccessToken, now: int, start: int)
    requires PairsDrawn(origin) && Clocked(run, start) && token.session !in origin.sessions
    ensures var context := Authenticated(settings, After(settings, origin, run), token, now);
      && (context.Ok? <==> Deserves(settings, origin, run, token, now))
      && (context.Ok? ==> context.value == Context(token.user, token.session, token.mfa))
  {
    var s, store := token.session, After(settings, origin, run);
    MfaMeansElevated(settings, origin, run, |run|, s, start);
    VersionsCountSweeps(settings, origin, run, |run|, token.user);
    SessionsEndForAReason(settings, origin, run, |run|, s, start);
    if Authenticated(settings, store, token, now).Ok? {
      var k := SessionsAreOpenedByLogins(settings, origin, run, |run|, s, start);
    }
    if Deserves(settings, origin, run, token, now) {
      var k: nat :| Opens(settings, origin, run, k, s, token.user) && now < run[k].now + settings.refreshLifetime;
      OpensStays(settings, origin, run, k, s, token.user, start);
    }
  }

  // ----- Credentials -----

  /** An enrollment draws a new secret and eight new codes, all different, and leaves the rest as it was. */
  lemma EnrollmentIsFresh(settings: Settings, store: Store, token: AccessToken, now: int)
    requires Step(settings, store, Enroll(token), now).1.Ok?
    ensures var (after, reply) := Step(settings, store, Enroll(token), now);
      && reply.value.Enrolled?
      && var drawn := [reply.value.enrollment.secret] + reply.value.enrollment.recoveryCodes;
      && |reply.value.enrollment.recoveryCodes| == 8
      && (forall i | 0 <= i < 9 :: store.drawn <= drawn[i] < after.drawn)
      && (forall i, j | 0 <= i < j < 9 :: drawn[i] != drawn[j])
      && after.credentials == store.credentials[
           token.user := Credential(drawn[0], reply.value.enrollment.recoveryCodes, None)]
      && after.users == store.users && after.sessions == store.sessions
  {
  }

  /** A request changes a credential only by enrolling its user anew, or by having a code of it accepted: a
      confirmation is dated, and a recovery code, but not a current one, is struck off. */
  lemma StepCredentials(settings: Settings, store: Store, request: Request, now: int, user: UserId)
    ensures var (after, reply) := Step(settings, store, request, now);
      if reply.Ok? && request.Enroll? && request.token.user == user then user in after.credentials
      else if user !in store.credentials then user !in after.credentials
      else
        && user in after.credentials
        && var was, left := store.credentials[user], after.credentials[user];
        if reply.Ok? && (request.Confirm? || request.Verify?) && request.token.user == user then
          && left.secret == was.secret
          && left.confirmedAt == (if request.Confirm? then Some(now) else was.confirmedAt)
          && forall c :: c in left.recoveryCodes <==>
               c in was.recoveryCodes && (c != request.code || settings.totp(was.secret, request.code, now))
        else left == was
  {
    if user in store.credentials && (request.Confirm? || request.Verify?) {
      WithoutStrikesOff(store.credentials[user].recoveryCodes, request.code);
    }
  }

  // ----- Recovery codes -----

  ghost predicate Holds(store: Store, user: UserId, code: Nonce) {
    user in store.credentials && code in store.credentials[user].recoveryCodes
  }

  ghost predicate Spent(store: Store, code: Nonce) {
    code < store.drawn && forall u :: !Holds(store, u, code)
  }

  /** One user at most holds a code, and a code not drawn yet is held by nobody. */
  ghost predicate WellHeld(store: Store, code: Nonce) {
    && (forall u, w | Holds(store, u, code) && Holds(store, w, code) :: u == w)
    && (forall u | Holds(store, u, code) :: code < store.drawn)
  }

  /** An elevation on the strength of a recovery code. */
  predicate Recovers(settings: Settings, store: Store, request: Request, now: int, code: Nonce) {
    && (request.Confirm? || request.Verify?) && request.code == code
    && Step(settings, store, request, now).1.Ok?
    && request.token.user in store.credentials
    && !settings.totp(store.credentials[request.token.user].secret, code, now)
  }

  function Recoveries(settings: Settings, origin: Store, run: seq<Timed>, k: nat, code: Nonce): nat
    requires k <= |run|
  {
    if k == 0 then 0
    else
      Recoveries(settings, origin, run, k - 1, code)
      + if Recovers(settings, At(settings, origin, run, k - 1), run[k - 1].request, run[k - 1].now, code) then 1 else 0
  }

  lemma {:induction false} WithoutStrikesOff(codes: seq<Nonce>, code: Nonce)
    ensures forall c :: c in Without(codes, code) <==> c in codes && c != code
  {
    if codes != [] {
      var front, last := codes[..|codes| - 1], codes[|codes| - 1];
      assert codes == front + [last];
      WithoutStrikesOff(front, code);
    }
  }

  lemma CheckedStrikesOff(settings: Settings, store: Store, user: UserId, code: Nonce, now: int, c: Nonce)
    requires Checked(settings, store, user, code, now).Ok?
    ensures var after := Checked(settings, store, user, code, now).value;
      c in after.recoveryCodes <==>
        && c in store.credentials[user].recoveryCodes
        && (c != code || settings.totp(store.credentials[user].secret, code, now))
  {
    WithoutStrikesOff(store.credentials[user].recoveryCodes, code);
  }

  lemma DrawnAreNew(first: Nonce, count: nat, code: Nonce)
    requires code in Drawn(first, count)
    ensures first <= code < first + count
  {
  }

  /** The rows of the other users keep their codes, and those of `user` are the ones in `codes`. */
  lemma HoldingsMove(before: Store, after: Store, user: UserId, code: Nonce, held: bool)
    requires WellHeld(before, code) && before.drawn <= after.drawn
    requires forall u | u != user :: Holds(after, u, code) == Holds(before, u, code)
    requires Holds(after, user, code) == held
    requires held ==> Holds(before, user, code) || before.drawn <= code < after.drawn
    ensures WellHeld(after, code)
    ensures Spent(before, code) ==> Spent(after, code)
    ensures Holds(before, user, code) && !held ==> Spent(after, code)
  {
    forall u, w | Holds(after, u, code) && Holds(after, w, code) ensures u == w {
      assert u != user ==> Holds(before, u, code);
      assert w != user ==> Holds(before, w, code);
    }
  }

  lemma CodeSpends(
    settings: Settings, store: Store, context: Context, c: Nonce, now: int, code: Nonce, after: Store)
    requires WellHeld(store, code)
    requires Checked(settings, store, context.user, c, now).Ok?
    requires context.user in after.credentials && after.drawn >= store.drawn
    requires after.credentials[context.user].recoveryCodes
          == Checked(settings, store, context.user, c, now).value.recoveryCodes
    requires after.credentials == store.credentials[context.user := after.credentials[context.user]]
    ensures WellHeld(after, code) && (Spent(store, code) ==> Spent(after, code))
    ensures c == code && !settings.totp(store.credentials[context.user].secret, code, now) ==>
      Spent(after, code) && Holds(store, context.user, code)
  {
    CheckedStrikesOff(settings, store, context.user, c, now, code);
    HoldingsMove(store, after, context.user, code, Holds(after, context.user, code));
  }

  lemma EnrollSpends(store: Store, context: Context, code: Nonce)
    requires WellHeld(store, code)
    ensures var after := EnrollOutcome(store, context).0;
      WellHeld(after, code) && (Spent(store, code) ==> Spent(after, code))
  {
    var after := EnrollOutcome(store, context).0;
    if after != store {
      var held := Holds(after, context.user, code);
      if held {
        DrawnAreNew(store.drawn + 1, RECOVERY_CODES, code);
      }
      HoldingsMove(store, after, context.user, code, held);
    }
  }

  predicate SameCredentials(before: Store, after: Store) {
    after.credentials == before.credentials && after.drawn >= before.drawn
  }

  lemma SameCredentialsHold(before: Store, after: Store, code: Nonce)
    requires WellHeld(before, code) && SameCredentials(before, after)
    ensures WellHeld(after, code) && (Spent(before, code) ==> Spent(after, code))
  {
    HoldingsMove(before, after, 0, code, Holds(before, 0, code));
  }

  /** An accepted recovery code is spent, and no request brings a spent code back. */
  lemma StepSpends(settings: Settings, store: Store, request: Request, now: int, code: Nonce)
    requires WellHeld(store, code)
    ensures var after := Step(settings, store, request, now).0;
      && WellHeld(after, code) && (Spent(store, code) ==> Spent(after, code))
      && (Recovers(settings, store, request, now, code) ==> Spent(after, code) && !Spent(store, code))
  {
    var (after, reply) := Step(settings, store, request, now);
    if SameCredentials(store, after) && !request.Confirm? && !request.Verify? {
      SameCredentialsHold(store, after, code);
    } else if request.Enroll? {
      EnrollSpends(store, Authenticated(settings, store, request.token, now).value, code);
    } else if reply.Ok? {
      var context := Authenticated(settings, store, request.token, now).value;
      CodeSpends(settings, store, context, request.code, now, code, after);
    }
  }

  /** Over any run a recovery code elevates at most once, and not at all once it is spent. */
  lemma {:induction false} RecoveryCodesWorkOnce(
    settings: Settings, origin: Store, run: seq<Timed>, k: nat, code: Nonce)
    requires k <= |run| && WellHeld(origin, code)
    ensures WellHeld(At(settings, origin, run, k), code)
    ensures Recoveries(settings, origin, run, k, code) <= if Spent(origin, code) then 0 else 1
    ensures Spent(origin, code) || Recoveries(settings, origin, run, k, code) == 1 ==>
      Spent(At(settings, origin, run, k), code)
  {
    if k > 0 {
      RecoveryCodesWorkOnce(settings, origin, run, k - 1, code);
      StepSpends(settings, At(settings, origin, run, k - 1), run[k - 1].request, run[k - 1].now, code);
    }
  }
}
