/** The authentication service as the code runs it: statement by statement on the session's tables, with
    the one commit it makes itself (src/application/authentication.py, src/web/dependencies.py). */
module Authentication {
  import opened Outcomes
  import opened Sessions

  /** The tables as one transaction sees and changes them, the random source, and the committed store. */
  class DbSession {
    var users: map<UserId, User>
    var sessions: map<SessionId, Record>
    var credentials: map<UserId, Credential>
    var audit: seq<AuditEvent>
    var drawn: Nonce
    var durable: Store

    constructor (store: Store)
      ensures View() == durable == store
    {
      users, sessions, credentials := store.users, store.sessions, store.credentials;
      audit, drawn, durable := store.audit, store.drawn, store;
    }

    function View(): Store
      reads this
    {
      Store(users, sessions, credentials, audit, drawn)
    }

    method Draw() returns (value: Nonce)
      modifies this`drawn
      ensures value == old(drawn) && drawn == old(drawn) + 1
    {
      value := drawn;
      drawn := drawn + 1;
    }

    method Commit()
      modifies this`durable
      ensures durable == View()
    {
      durable := View();
    }
  }

  /** A call that returns leaves its changes for the commit to come; one that raises leaves what it
      committed itself, and the rest is rolled back. */
  ghost predicate Ends<T>(session: DbSession, before: Store, outcome: Outcome<T>, r: Result<T, AuthError>)
    reads session
  {
    && r == outcome.1
    && if r.Ok? then session.View() == outcome.0 && session.durable == before else session.durable == outcome.0
  }

  class AuthenticationService {
    const settings: Settings

    constructor (settings: Settings)
      ensures this.settings == settings
    {
      this.settings := settings;
    }

    method Login(session: DbSession, user: UserId, passwordOk: bool, now: int)
      returns (r: Result<Tokens, AuthError>)
      requires session.durable == session.View()
      modifies session
      ensures Ends(session, old(session.View()), LoginOutcome(settings, old(session.View()), user, passwordOk, now), r)
      ensures r.Err? ==> session.audit == old(session.audit) + [LoginFailed]
    {
      if user !in session.users || !passwordOk || !session.users[user].active {
        session.audit := session.audit + [LoginFailed];
        return Err(BadCredentials);
      }
      var s := CreateSession(session, user, false, now);
      session.audit := session.audit + [LoggedIn(user, s)];
      r := Ok(Bundle(session.View(), user, s, now));
    }

    method Refresh(session: DbSession, s: SessionId, pair: Pair, now: int)
      returns (r: Result<Tokens, AuthError>)
      requires session.durable == session.View()
      modifies session
      ensures Ends(session, old(session.View()), RefreshOutcome(old(session.View()), s, pair, now), r)
    {
      if s !in session.sessions {
        return Err(SessionInvalid);
      }
      var record := session.sessions[s];
      if record.revokedAt.Some? || record.expiresAt <= now {
        return Err(SessionInvalid);
      }
      if record.pair.refresh != pair.refresh || record.pair.csrf != pair.csrf {
        session.sessions := session.sessions[s := record.(revokedAt := Some(now))];
        session.Commit();
        return Err(SessionInvalid);
      }
      if record.user !in session.users || !session.users[record.user].active {
        session.sessions := session.sessions[s := record.(revokedAt := Some(now))];
        return Err(SessionInvalid);
      }
      var tokens := Rotate(session, record.user, s, now);
      r := Ok(tokens);
    }

    method AuthenticateAccessToken(session: DbSession, token: AccessToken, now: int)
      returns (r: Result<Context, AuthError>)
      ensures r == Authenticated(settings, session.View(), token, now)
    {
      if !Decodes(settings, token, now) {
        return Err(TokenRejected);
      }
      if token.session !in session.sessions || token.user !in session.users {
        return Err(SessionInvalid);
      }
      var record, user := session.sessions[token.session], session.users[token.user];
      if record.user != token.user || record.revokedAt.Some? || record.expiresAt <= now || !user.active
        || token.version != user.version || token.mfa != record.mfa {
        return Err(SessionInvalid);
      }
      r := Ok(Context(token.user, token.session, record.mfa));
    }

    method Logout(session: DbSession, context: Context, now: int)
      modifies session
      ensures (session.View(), Ok(())) == LogoutOutcome(old(session.View()), context, now)
      ensures session.durable == old(session.durable)
    {
      var s := context.session;
      if s in session.sessions && session.sessions[s].user == context.user {
        session.sessions := session.sessions[s := session.sessions[s].(revokedAt := Some(now))];
      }
      session.audit := session.audit + [LoggedOut(context.user, s)];
    }

    method RevokeAll(session: DbSession, user: UserId, now: int)
      modifies session
      ensures (session.View(), Ok(())) == RevokeAllOutcome(old(session.View()), user, now)
      ensures session.durable == old(session.durable)
    {
      if user !in session.users {
        return;
      }
      var account := session.users[user];
      session.users := session.users[user := account.(version := account.version + 1)];
      session.sessions := map s | s in session.sessions :: Swept(session.sessions[s], user, now);
    }

    method BeginMfaEnrollment(session: DbSession, context: Context) returns (r: Result<Enrollment, AuthError>)
      requires session.durable == session.View()
      modifies session
      ensures Ends(session, old(session.View()), EnrollOutcome(old(session.View()), context), r)
    {
      var u := context.user;
      if u !in session.users {
        return Err(UserInvalid);
      }
      if u in session.credentials && session.credentials[u].confirmedAt.Some? && !context.mfa {
        return Err(MfaRequired);
      }
      var secret := session.Draw();
      var codes: seq<Nonce> := [];
      while |codes| < RECOVERY_CODES
        invariant |codes| <= RECOVERY_CODES
        invariant codes == Drawn(secret + 1, |codes|)
        invariant session.View() == old(session.View()).(drawn := secret + 1 + |codes|)
        invariant session.durable == old(session.durable)
      {
        var code := session.Draw();
        codes := codes + [code];
      }
      session.credentials := session.credentials[u := Credential(secret, codes, None)];
      r := Ok(Enrollment(secret, codes));
    }

    method ConfirmMfa(session: DbSession, context: Context, code: Nonce, now: int)
      returns (r: Result<Tokens, AuthError>)
      requires session.durable == session.View()
      modifies session
      ensures Ends(session, old(session.View()), ConfirmOutcome(settings, old(session.View()), context, code, now), r)
    {
      var credential :- VerifiedMfaCredential(session, context.user, code, now);
      credential := credential.(confirmedAt := Some(now));
      session.credentials := session.credentials[context.user := credential];
      var s := context.session;
      if s !in session.sessions || context.user !in session.users || session.sessions[s].revokedAt.Some? {
        return Err(SessionInvalid);
      }
      session.sessions := session.sessions[s := session.sessions[s].(mfa := true)];
      session.audit := session.audit + [MfaConfirmed(context.user)];
      var tokens := Rotate(session, context.user, s, now);
      r := Ok(tokens);
    }

    method VerifyMfa(session: DbSession, context: Context, code: Nonce, now: int)
      returns (r: Result<Tokens, AuthError>)
      requires session.durable == session.View()
      modifies session
      ensures Ends(session, old(session.View()), VerifyOutcome(settings, old(session.View()), context, code, now), r)
    {
      var credential :- VerifiedMfaCredential(session, context.user, code, now);
      if credential.confirmedAt.None? {
        return Err(MfaUnconfirmed);
      }
      var s := context.session;
      if s !in session.sessions || context.user !in session.users || session.sessions[s].revokedAt.Some? {
        return Err(SessionInvalid);
      }
      session.sessions := session.sessions[s := session.sessions[s].(mfa := true)];
      var tokens := Rotate(session, context.user, s, now);
      r := Ok(tokens);
    }

    /** `_verified_mfa_credential`: an accepted recovery code is struck off the user's list. */
    method VerifiedMfaCredential(session: DbSession, user: UserId, code: Nonce, now: int)
      returns (r: Result<Credential, AuthError>)
      modifies session`credentials
      ensures r == Checked(settings, old(session.View()), user, code, now)
      ensures session.credentials
           == if r.Ok? then old(session.credentials)[user := r.value] else old(session.credentials)
    {
      if user !in session.credentials {
        return Err(MfaMissing);
      }
      var credential := session.credentials[user];
      if settings.totp(credential.secret, code, now) {
        assert session.credentials == session.credentials[user := credential];
        return Ok(credential);
      }
      if code in credential.recoveryCodes {
        credential := credential.(recoveryCodes := Without(credential.recoveryCodes, code));
        session.credentials := session.credentials[user := credential];
        return Ok(credential);
      }
      r := Err(CodeRejected);
    }

    method CreateSession(session: DbSession, user: UserId, mfa: bool, now: int) returns (s: SessionId)
      modifies session`drawn, session`sessions
      ensures s == old(session.drawn) + 2 && session.drawn == old(session.drawn) + 3
      ensures var pair := Pair(old(session.drawn), old(session.drawn) + 1);
        session.sessions
        == old(session.sessions)[s := Record(user, pair, mfa, now + settings.refreshLifetime, None)]
    {
      var refresh := session.Draw();
      var csrf := session.Draw();
      s := session.Draw();
      session.sessions :=
        session.sessions[s := Record(user, Pair(refresh, csrf), mfa, now + settings.refreshLifetime, None)];
    }

    method Rotate(session: DbSession, user: UserId, s: SessionId, now: int) returns (tokens: Tokens)
      requires user in session.users && s in session.sessions
      modifies session`drawn, session`sessions
      ensures session.View() == Rotated(old(session.View()), s)
      ensures tokens == Bundle(session.View(), user, s, now)
    {
      var refresh := session.Draw();
      var csrf := session.Draw();
      session.sessions := session.sessions[s := session.sessions[s].(pair := Pair(refresh, csrf))];
      tokens := Bundle(session.View(), user, s, now);
    }
  }

  /** The server: each request runs in a transaction of its own, opened by its access token where the
      route asks for one. */
  class Server {
    var committed: Store
    const service: AuthenticationService

    constructor (origin: Store, service: AuthenticationService)
      ensures committed == origin && this.service == service
    {
      committed, this.service := origin, service;
    }

    method Serve(request: Request, now: int) returns (r: Reply)
      modifies this`committed
      ensures (committed, r) == Step(service.settings, old(committed), request, now)
    {
      var session := new DbSession(committed);
      r := Handle(session, request, now);
      if r.Ok? {
        session.Commit();
      }
      committed := session.durable;
    }

    method Handle(session: DbSession, request: Request, now: int) returns (r: Reply)
      requires session.durable == session.View()
      modifies session
      ensures var (after, reply) := Step(service.settings, old(session.View()), request, now);
        && r == reply
        && (if r.Ok? then session.View() else session.durable) == after
    {
      match request {
        case Login(user, passwordOk) =>
          var tokens :- service.Login(session, user, passwordOk, now);
          r := Ok(Issued(tokens));
        case Refresh(s, pair) =>
          var tokens :- service.Refresh(session, s, pair, now);
          r := Ok(Issued(tokens));
        case RevokeAll(user) =>
          service.RevokeAll(session, user, now);
          r := Ok(Done);
        case Account(user, active) =>
          var account := if user in session.users then session.users[user].(active := active) else User(active, 1);
          session.users := session.users[user := account];
          r := Ok(Done);
        case Visit(token) =>
          var context :- service.AuthenticateAccessToken(session, token, now);
          r := Ok(Seen(context));
        case Logout(token) =>
          var context :- service.AuthenticateAccessToken(session, token, now);
          service.Logout(session, context, now);
          r := Ok(Done);
        case Enroll(token) =>
          var context :- service.AuthenticateAccessToken(session, token, now);
          var enrollment :- service.BeginMfaEnrollment(session, context);
          r := Ok(Enrolled(enrollment));
        case Confirm(token, code) =>
          var context :- service.AuthenticateAccessToken(session, token, now);
          var tokens :- service.ConfirmMfa(session, context, code, now);
          r := Ok(Issued(tokens));
        case Verify(token, code) =>
          var context :- service.AuthenticateAccessToken(session, token, now);
          var tokens :- service.VerifyMfa(session, context, code, now);
          r := Ok(Issued(tokens));
      }
    }
  }
}
