/**
 Accounts, logins, sessions and setup as one state machine: what holds after any run of the services' calls,
 in any order, each call being one step.
 */
module Identity {
  import opened Common
  import opened Timestamps
  import opened Database
  import opened Auth
  import Users
  import Setup
  import BackupCodes
  import Mfa
  import RateLimiter

  datatype Op =
    | Login(email: string, passwordOk: bool, ip: string, agent: string, draw: Draw)
    | VerifyMfa(token: PendingToken, proof: Proof, ip: string, agent: string, draw: Draw)
    | Refresh(tokenHash: string, ip: string, agent: string, draw: Draw)
    | Logout(accessHash: string)
    | RevokeSession(sessionId: string, userId: string)
    | CreateUser(account: Users.NewUser)
    | UpdateRole(userId: string, role: string)
    | Deactivate(userId: string, requestorId: string)
    | CreateAdmin(account: Users.NewUser)
    | CompleteSetup(adminId: string)
    | ConfirmTotp(userId: string, verified: bool, credentialId: string, codes: seq<BackupCodes.BackupCode>)
    | RemoveCredential(credentialId: string, userId: string)
    | CleanupTick

  datatype Reply =
    | FromAuth(auth: AuthReply)
    | FromUsers(users: Users.Reply)
    | FromSetup(setup: Setup.Reply)
    | FromMfa(mfa: Mfa.Reply)
    | Silent

  function OnTables(s: State, r: (Tables, AuthReply)): (State, Reply) {
    (s.(tables := r.0), FromAuth(r.1))
  }

  function Step(s: State, op: Op, time: Time): (State, Reply) {
    var t := s.tables;
    match op
    case Login(email, passwordOk, ip, agent, d) =>
      var r := LoginStep(s, email, passwordOk, ip, agent, time, d);
      (r.0, FromAuth(r.1))
    case VerifyMfa(token, proof, ip, agent, d) =>
      var r := MfaStep(s, token, proof, ip, agent, time.now, d);
      (r.0, FromAuth(r.1))
    case Refresh(tokenHash, ip, agent, d) => OnTables(s, Refreshed(t, tokenHash, ip, agent, time.now, d))
    case Logout(accessHash) => OnTables(s, LoggedOut(t, accessHash, time.now))
    case RevokeSession(sessionId, userId) => OnTables(s, SessionEnded(t, sessionId, userId, time.now))
    case CreateUser(n) => var r := Users.Created(t, n); (s.(tables := r.0), FromUsers(r.1))
    case UpdateRole(userId, role) => var r := Users.RoleChanged(t, userId, role); (s.(tables := r.0), FromUsers(r.1))
    case Deactivate(userId, requestorId) =>
      var r := Users.AccountClosed(t, userId, requestorId, time.now);
      (s.(tables := r.0), FromUsers(r.1))
    case CreateAdmin(n) => var r := Setup.AdminCreated(t, n); (s.(tables := r.0), FromSetup(r.1))
    case CompleteSetup(adminId) => var r := Setup.SetupCompleted(t, adminId); (s.(tables := r.0), FromSetup(r.1))
    case ConfirmTotp(userId, verified, credentialId, codes) =>
      var r := Mfa.TotpConfirmed(t, userId, verified, credentialId, codes);
      (s.(tables := r.0), FromMfa(r.1))
    case RemoveCredential(id, userId) =>
      (s.(tables := t.(credentials := CredentialRemoved(t.credentials, id, userId))), Silent)
    case CleanupTick => (s.(limiter := RateLimiter.Cleaned(s.limiter, time.ticks)), Silent)
  }

  /** The calls of the login service; the others are those of accounts, setup and second factors. */
  predicate SessionCall(op: Op) {
    op.Login? || op.VerifyMfa? || op.Refresh? || op.Logout? || op.RevokeSession?
  }

  datatype Call = Call(op: Op, at: Time)

  const START := State(NO_TABLES, map[], {})

  function Run(s: State, calls: seq<Call>): State {
    if calls == [] then s
    else Step(Run(s, calls[..|calls| - 1]), calls[|calls| - 1].op, calls[|calls| - 1].at).0
  }

  /** New sessions get an identifier and a refresh token no session has had. */
  ghost predicate FreshDraw(t: Tables, op: Op) {
    op.Login? || op.VerifyMfa? || op.Refresh? ==>
      forall i :: 0 <= i < |t.sessions| ==>
        t.sessions[i].id != op.draw.id && t.sessions[i].refreshHash != op.draw.refreshHash
  }

  ghost predicate FreshDraws(s: State, calls: seq<Call>) {
    forall n :: 0 <= n < |calls| ==> FreshDraw(Run(s, calls[..n]).tables, calls[n].op)
  }

  lemma FreshDrawsInit(s: State, calls: seq<Call>)
    requires calls != [] && FreshDraws(s, calls)
    ensures FreshDraws(s, calls[..|calls| - 1])
    ensures FreshDraw(Run(s, calls[..|calls| - 1]).tables, calls[|calls| - 1].op)
  {
    var init := calls[..|calls| - 1];
    forall n | 0 <= n < |init| ensures FreshDraw(Run(s, init[..n]).tables, init[n].op) {
      assert init[..n] == calls[..n] && init[n] == calls[n];
    }
  }

  // ---- What every call keeps ----------------------------------------------------------------------------------------

  ghost predicate DistinctUsers(users: seq<User>) {
    forall i, j :: 0 <= i < j < |users| ==> users[i].id != users[j].id
  }

  ghost predicate DistinctSessions(sessions: seq<Session>) {
    forall i, j :: 0 <= i < j < |sessions| ==>
      sessions[i].id != sessions[j].id && sessions[i].refreshHash != sessions[j].refreshHash
  }

  ghost predicate IsActive(t: Tables, id: string) {
    exists i :: 0 <= i < |t.users| && ActiveWithId(id)(t.users[i])
  }

  /** No unrevoked session without an active account. */
  ghost predicate Owned(t: Tables) {
    forall i :: 0 <= i < |t.sessions| && t.sessions[i].revokedAt.None? ==> IsActive(t, t.sessions[i].userId)
  }

  ghost predicate Inv(t: Tables) {
    DistinctUsers(t.users) && DistinctSessions(t.sessions) && Owned(t)
  }

  /** The same accounts, apart from what ownership and identity do not look at. */
  ghost predicate SameAccounts(a: seq<User>, b: seq<User>) {
    |a| == |b| && forall i :: 0 <= i < |a| ==> a[i].id == b[i].id && a[i].isActive == b[i].isActive
  }

  lemma SameAccountsKeepInv(t: Tables, users: seq<User>)
    requires Inv(t) && SameAccounts(t.users, users)
    ensures Inv(t.(users := users))
    ensures forall id :: IsActive(t.(users := users), id) <==> IsActive(t, id)
  {
    var t' := t.(users := users);
    forall id ensures IsActive(t', id) <==> IsActive(t, id) {
      if IsActive(t, id) {
        var i :| 0 <= i < |t.users| && ActiveWithId(id)(t.users[i]);
        assert ActiveWithId(id)(users[i]);
      }
      if IsActive(t', id) {
        var i :| 0 <= i < |users| && ActiveWithId(id)(users[i]);
        assert ActiveWithId(id)(t.users[i]);
      }
    }
  }

  lemma RevokingKeepsInv(t: Tables, sessions: seq<Session>)
    requires Inv(t) && |sessions| == |t.sessions|
    requires forall i :: 0 <= i < |sessions| ==>
      || sessions[i] == t.sessions[i]
      || (sessions[i].revokedAt.Some? && sessions[i] == t.sessions[i].(revokedAt := sessions[i].revokedAt))
    ensures Inv(t.(sessions := sessions))
  {
    forall i | 0 <= i < |sessions| && sessions[i].revokedAt.None?
      ensures IsActive(t.(sessions := sessions), sessions[i].userId) {
      assert IsActive(t, t.sessions[i].userId);
    }
  }

  lemma NewSessionKeepsInv(t: Tables, s: Session)
    requires Inv(t) && UserById(t, s.userId).Some?
    requires forall i :: 0 <= i < |t.sessions| ==>
      t.sessions[i].id != s.id && t.sessions[i].refreshHash != s.refreshHash
    ensures Inv(SessionCreated(t, s).0)
  {
    var t' := SessionCreated(t, s).0;
    var k := First(t.users, ActiveWithId(s.userId)).value;
    assert ActiveWithId(s.userId)(t'.users[k]);
    forall i | 0 <= i < |t'.sessions| && t'.sessions[i].revokedAt.None? ensures IsActive(t', t'.sessions[i].userId) {
      if i < |t.sessions| {
        assert IsActive(t, t.sessions[i].userId);
      }
    }
  }

  lemma NewUserKeepsInv(t: Tables, u: User)
    requires Inv(t) && Insertable(t, u)
    ensures Inv(t.(users := t.users + [u]))
  {
    var t' := t.(users := t.users + [u]);
    forall i | 0 <= i < |t.sessions| && t.sessions[i].revokedAt.None? ensures IsActive(t', t.sessions[i].userId) {
      var k :| 0 <= k < |t.users| && ActiveWithId(t.sessions[i].userId)(t.users[k]);
      assert ActiveWithId(t.sessions[i].userId)(t'.users[k]);
    }
  }

  lemma ClosingKeepsInv(t: Tables, userId: string, now: Instant)
    requires Inv(t)
    ensures Inv(t.(users := Deactivated(t.users, userId), sessions := RevokedAll(t.sessions, userId, now)))
  {
    var t' := t.(users := Deactivated(t.users, userId), sessions := RevokedAll(t.sessions, userId, now));
    forall i | 0 <= i < |t'.sessions| && t'.sessions[i].revokedAt.None? ensures IsActive(t', t'.sessions[i].userId) {
      var owner := t.sessions[i].userId;
      var k :| 0 <= k < |t.users| && ActiveWithId(owner)(t.users[k]);
      assert ActiveWithId(owner)(t'.users[k]);
    }
  }

  lemma UserByEmailIsActive(t: Tables, email: string)
    requires UserByEmail(t, email).Some?
    ensures UserById(t, UserByEmail(t, email).value.id).Some?
  {
    var i := First(t.users, ActiveWithEmail(email)).value;
    assert ActiveWithId(t.users[i].id)(t.users[i]);
  }

  lemma IsActiveMeansFound(t: Tables, id: string)
    ensures IsActive(t, id) <==> UserById(t, id).Some?
  {
    if UserById(t, id).Some? {
      assert ActiveWithId(id)(t.users[First(t.users, ActiveWithId(id)).value]);
    }
  }

  lemma LoginKeepsInv(s: State, email: string, passwordOk: bool, ip: string, agent: string, time: Time, d: Draw)
    requires Inv(s.tables) && FreshDraw(s.tables, Login(email, passwordOk, ip, agent, d))
    ensures Inv(LoginStep(s, email, passwordOk, ip, agent, time, d).0.tables)
  {
    var t := s.tables;
    if UserByEmail(t, email).Some? {
      var u := UserByEmail(t, email).value;
      var t' := t.(users := WithLastLogin(t.users, u.id, time.now));
      UserByEmailIsActive(t, email);
      SameAccountsKeepInv(t, t'.users);
      IsActiveMeansFound(t, u.id);
      IsActiveMeansFound(t', u.id);
      NewSessionKeepsInv(t', NewSession(u.id, ip, agent, d));
    }
  }

  lemma RefreshKeepsInv(t: Tables, tokenHash: string, ip: string, agent: string, now: Instant, d: Draw)
    requires Inv(t) && FreshDraw(t, Refresh(tokenHash, ip, agent, d))
    ensures Inv(Refreshed(t, tokenHash, ip, agent, now, d).0)
  {
    var found := SessionByRefreshHash(t, tokenHash);
    if found.Some? && UserById(t, found.value.userId).Some? {
      var t' := t.(sessions := Revoked(t.sessions, found.value.id, now));
      RevokingKeepsInv(t, t'.sessions);
      var agent' := if found.value.userAgent != "" then found.value.userAgent else agent;
      NewSessionKeepsInv(t', NewSession(found.value.userId, ip, agent', d));
    }
  }

  lemma CodesKeepInv(t: Tables, id: string, codes: seq<BackupCodes.BackupCode>)
    requires Inv(t)
    ensures Inv(t.(users := WithCodes(t.users, id, codes)))
    ensures forall u :: IsActive(t.(users := WithCodes(t.users, id, codes)), u) <==> IsActive(t, u)
  {
    SameAccountsKeepInv(t, WithCodes(t.users, id, codes));
  }

  lemma MfaKeepsInv(t: Tables, userId: string, proof: Proof, ip: string, agent: string, now: Instant, d: Draw)
    requires Inv(t)
    requires forall i :: 0 <= i < |t.sessions| ==>
      t.sessions[i].id != d.id && t.sessions[i].refreshHash != d.refreshHash
    ensures Inv(MfaLogin(t, userId, proof, ip, agent, now, d).0)
  {
    var s := NewSession(userId, ip, agent, d);
    if UserById(t, userId).Some? {
      match proof
      case Totp(_) => NewSessionKeepsInv(t, s);
      case Backup(input) =>
        var t' := Mfa.BackupCodeChecked(t, userId, input, now).0;
        if t' != t {
          CodesKeepInv(t, userId, BackupCodes.Used(UserById(t, userId).value.codes.value, input, Rfc3339(now)).value);
        }
        IsActiveMeansFound(t, userId);
        IsActiveMeansFound(t', userId);
        NewSessionKeepsInv(t', s);
    }
  }

  lemma ConfirmKeepsInv(t: Tables, userId: string, verified: bool, credentialId: string,
        codes: seq<BackupCodes.BackupCode>)
    requires Inv(t)
    ensures Inv(Mfa.TotpConfirmed(t, userId, verified, credentialId, codes).0)
  {
    CodesKeepInv(t, userId, codes);
    CredentialsKeepInv(t.(users := WithCodes(t.users, userId, codes)),
                       t.credentials + [Credential(credentialId, userId, "totp", true)]);
  }

  lemma LogoutKeepsInv(t: Tables, accessHash: string, now: Instant)
    requires Inv(t)
    ensures Inv(LoggedOut(t, accessHash, now).0)
  {
    if SessionByAccessHash(t, accessHash).Some? {
      RevokingKeepsInv(t, Revoked(t.sessions, SessionByAccessHash(t, accessHash).value.id, now));
    }
  }

  lemma CreateAdminKeepsInv(t: Tables, n: Users.NewUser)
    requires Inv(t)
    ensures Inv(Setup.AdminCreated(t, n).0)
  {
    var u := User(n.id, n.normalized, "admin", true, None, None);
    if Insertable(t, u) {
      NewUserKeepsInv(t, u);
      ConfigKeepsInv(t.(users := t.users + [u]), Setup.ADMIN_ID, n.id, n.id);
    }
  }

  lemma SessionCallKeepsInv(s: State, op: Op, time: Time)
    requires SessionCall(op) && Inv(s.tables) && FreshDraw(s.tables, op)
    ensures Inv(Step(s, op, time).0.tables)
  {
    var t := s.tables;
    match op
    case Login(email, passwordOk, ip, agent, d) => LoginKeepsInv(s, email, passwordOk, ip, agent, time, d);
    case VerifyMfa(token, proof, ip, agent, d) => MfaKeepsInv(t, token.userId, proof, ip, agent, time.now, d);
    case Refresh(tokenHash, ip, agent, d) => RefreshKeepsInv(t, tokenHash, ip, agent, time.now, d);
    case Logout(accessHash) => LogoutKeepsInv(t, accessHash, time.now);
    case RevokeSession(sessionId, userId) => RevokingKeepsInv(t, Revoked(t.sessions, sessionId, time.now));
  }

  lemma OtherCallKeepsInv(s: State, op: Op, time: Time)
    requires !SessionCall(op) && Inv(s.tables)
    ensures Inv(Step(s, op, time).0.tables)
  {
    var t := s.tables;
    match op
    case CreateUser(n) =>
      var u := User(n.id, n.normalized, n.role, true, None, None);
      if Insertable(t, u) {
        NewUserKeepsInv(t, u);
      }
    case UpdateRole(userId, role) => SameAccountsKeepInv(t, WithRole(t.users, userId, role));
    case Deactivate(userId, _) => ClosingKeepsInv(t, userId, time.now);
    case CreateAdmin(n) => CreateAdminKeepsInv(t, n);
    case CompleteSetup(adminId) => ConfigKeepsInv(t, Setup.SETUP_DONE, "true", adminId);
    case ConfirmTotp(userId, verified, credentialId, codes) =>
      ConfirmKeepsInv(t, userId, verified, credentialId, codes);
    case RemoveCredential(id, userId) => CredentialsKeepInv(t, CredentialRemoved(t.credentials, id, userId));
    case CleanupTick =>
  }

  /** Every call keeps the invariant. */
  lemma StepKeepsInv(s: State, op: Op, time: Time)
    requires Inv(s.tables) && FreshDraw(s.tables, op)
    ensures Inv(Step(s, op, time).0.tables)
  {
    if SessionCall(op) {
      SessionCallKeepsInv(s, op, time);
    } else {
      OtherCallKeepsInv(s, op, time);
    }
  }

  lemma ConfigKeepsInv(t: Tables, key: string, value: string, author: string)
    requires Inv(t)
    ensures Inv(Setup.ConfigSet(t, key, value, author))
  {
    assert forall id :: IsActive(Setup.ConfigSet(t, key, value, author), id) <==> IsActive(t, id);
  }

  lemma CredentialsKeepInv(t: Tables, credentials: seq<Credential>)
    requires Inv(t)
    ensures Inv(t.(credentials := credentials))
  {
    assert forall id :: IsActive(t.(credentials := credentials), id) <==> IsActive(t, id);
  }

  /** Main result: in every reachable state each unrevoked session belongs to an active account. */
  lemma {:induction false} SessionsAreOwned(calls: seq<Call>)
    requires FreshDraws(START, calls)
    ensures Inv(Run(START, calls).tables)
  {
    if calls != [] {
      FreshDrawsInit(START, calls);
      SessionsAreOwned(calls[..|calls| - 1]);
      StepKeepsInv(Run(START, calls[..|calls| - 1]), calls[|calls| - 1].op, calls[|calls| - 1].at);
    }
  }
}
