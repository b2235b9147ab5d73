/** What runs of the identity services do to the sessions table over time. */
module SessionHistory {
  import opened Common
  import opened Timestamps
  import opened Database
  import opened Auth
  import opened Identity
  import Users
  import BackupCodes
  import Mfa
  import Setup

  // ---- Rows are only added, and revoked once ----------------------------------------------------------------------

  /** Every row is still there, and the same once it is revoked; before that only its revocation can change. */
  ghost predicate Grown(a: seq<Session>, b: seq<Session>) {
    |a| <= |b| && forall i :: 0 <= i < |a| ==>
      && b[i] == a[i].(revokedAt := b[i].revokedAt)
      && (a[i].revokedAt.Some? ==> b[i] == a[i])
  }

  lemma GrownTransitive(a: seq<Session>, b: seq<Session>, c: seq<Session>)
    requires Grown(a, b) && Grown(b, c)
    ensures Grown(a, c)
  {
    forall i | 0 <= i < |a|
      ensures c[i] == a[i].(revokedAt := c[i].revokedAt) && (a[i].revokedAt.Some? ==> c[i] == a[i])
    {
      assert b[i] == a[i].(revokedAt := b[i].revokedAt) && c[i] == b[i].(revokedAt := c[i].revokedAt);
    }
  }

  /** Revoking by identifier has no guard, but the callers only name a row they found unrevoked. */
  lemma RevokedIsUpdate(sessions: seq<Session>, k: nat, now: Instant)
    requires DistinctSessions(sessions) && k < |sessions|
    ensures Revoked(sessions, sessions[k].id, now) == sessions[k := sessions[k].(revokedAt := Some(now))]
  {
  }

  lemma RevokedGrows(sessions: seq<Session>, k: nat, now: Instant)
    requires DistinctSessions(sessions) && k < |sessions| && sessions[k].revokedAt.None?
    ensures Grown(sessions, Revoked(sessions, sessions[k].id, now))
  {
    RevokedIsUpdate(sessions, k, now);
  }

  lemma ListedIsOpen(t: Tables, sessionId: string, userId: string, now: Instant) returns (k: nat)
    requires First(ActiveSessions(t, userId, now), WithSessionId(sessionId)).Some?
    ensures k < |t.sessions| && t.sessions[k].id == sessionId && t.sessions[k].revokedAt.None?
  {
    var listed := ActiveSessions(t, userId, now);
    var s := listed[First(listed, WithSessionId(sessionId)).value];
    assert s in listed;
    k :| k < |t.sessions| && t.sessions[k] == s;
  }

  /** Accounts are only added under new identifiers, and never activated again. */
  ghost predicate AccountsGrown(a: seq<User>, b: seq<User>) {
    && |a| <= |b|
    && (forall i :: 0 <= i < |a| ==> b[i].id == a[i].id && (b[i].isActive ==> a[i].isActive))
    && (forall i, j :: 0 <= i < |a| <= j < |b| ==> b[j].id != a[i].id)
  }

  /** What one call can do: at most one session is added, and it belongs to an account that is active. */
  ghost predicate Effect(t: Tables, t': Tables) {
    && AccountsGrown(t.users, t'.users)
    && Grown(t.sessions, t'.sessions)
    && |t'.sessions| <= |t.sessions| + 1
    && (|t'.sessions| > |t.sessions| ==> IsActive(t, t'.sessions[|t.sessions|].userId))
  }

  lemma LastLoginEffect(users: seq<User>, id: string, now: Instant)
    ensures AccountsGrown(users, WithLastLogin(users, id, now))
  {
  }

  lemma LoginEffect(s: State, email: string, passwordOk: bool, ip: string, agent: string, time: Time, d: Draw)
    ensures Effect(s.tables, LoginStep(s, email, passwordOk, ip, agent, time, d).0.tables)
  {
    if UserByEmail(s.tables, email).Some? {
      LastLoginEffect(s.tables.users, UserByEmail(s.tables, email).value.id, time.now);
      UserByEmailIsActive(s.tables, email);
      IsActiveMeansFound(s.tables, UserByEmail(s.tables, email).value.id);
    }
  }

  lemma CodesEffect(t: Tables, id: string, codes: seq<BackupCodes.BackupCode>)
    ensures AccountsGrown(t.users, WithCodes(t.users, id, codes))
  {
  }

  lemma MfaEffect(t: Tables, userId: string, proof: Proof, ip: string, agent: string, now: Instant, d: Draw)
    ensures Effect(t, MfaLogin(t, userId, proof, ip, agent, now, d).0)
  {
    IsActiveMeansFound(t, userId);
    if proof.Backup? {
      var t' := Mfa.BackupCodeChecked(t, userId, proof.input, now).0;
      if t' != t {
        CodesEffect(t, userId,
          BackupCodes.Used(UserById(t, userId).value.codes.value, proof.input, Rfc3339(now)).value);
      }
      assert AccountsGrown(t.users, t'.users) && t'.sessions == t.sessions;
    }
  }

  lemma ConfirmEffect(t: Tables, userId: string, verified: bool, credentialId: string,
        codes: seq<BackupCodes.BackupCode>)
    ensures Effect(t, Mfa.TotpConfirmed(t, userId, verified, credentialId, codes).0)
  {
  }

  lemma RefreshEffect(t: Tables, hash: string, ip: string, agent: string, now: Instant, d: Draw)
    requires DistinctSessions(t.sessions)
    ensures Effect(t, Refreshed(t, hash, ip, agent, now, d).0)
  {
    var i := First(t.sessions, OpenWithRefreshHash(hash));
    if i.Some? {
      RevokedGrows(t.sessions, i.value, now);
      IsActiveMeansFound(t, t.sessions[i.value].userId);
    }
  }

  lemma LogoutEffect(t: Tables, accessHash: string, now: Instant)
    requires DistinctSessions(t.sessions)
    ensures Effect(t, LoggedOut(t, accessHash, now).0)
  {
    var i := First(t.sessions, OpenWithAccessHash(accessHash));
    if i.Some? {
      RevokedGrows(t.sessions, i.value, now);
    }
  }

  lemma RevokeSessionEffect(t: Tables, sessionId: string, userId: string, now: Instant)
    requires DistinctSessions(t.sessions)
    ensures Effect(t, SessionEnded(t, sessionId, userId, now).0)
  {
    if First(ActiveSessions(t, userId, now), WithSessionId(sessionId)).Some? {
      var k := ListedIsOpen(t, sessionId, userId, now);
      RevokedGrows(t.sessions, k, now);
    }
  }

  lemma CreateUserEffect(t: Tables, n: Users.NewUser)
    ensures Effect(t, Users.Created(t, n).0)
  {
  }

  lemma UpdateRoleEffect(t: Tables, userId: string, role: string)
    ensures Effect(t, Users.RoleChanged(t, userId, role).0)
  {
  }

  lemma DeactivateEffect(t: Tables, userId: string, requestorId: string, now: Instant)
    ensures Effect(t, Users.AccountClosed(t, userId, requestorId, now).0)
  {
  }

  lemma CreateAdminEffect(t: Tables, n: Users.NewUser)
    ensures Effect(t, Setup.AdminCreated(t, n).0)
  {
  }

  lemma CompleteEffect(t: Tables, adminId: string)
    ensures Effect(t, Setup.SetupCompleted(t, adminId).0)
  {
  }

  lemma SessionCallEffect(s: State, op: Op, time: Time)
    requires SessionCall(op) && DistinctSessions(s.tables.sessions)
    ensures Effect(s.tables, Step(s, op, time).0.tables)
  {
    var t := s.tables;
    match op
    case Login(email, passwordOk, ip, agent, d) => LoginEffect(s, email, passwordOk, ip, agent, time, d);
    case VerifyMfa(token, proof, ip, agent, d) => MfaEffect(t, token.userId, proof, ip, agent, time.now, d);
    case Refresh(hash, ip, agent, d) => RefreshEffect(t, hash, ip, agent, time.now, d);
    case Logout(accessHash) => LogoutEffect(t, accessHash, time.now);
    case RevokeSession(sessionId, userId) => RevokeSessionEffect(t, sessionId, userId, time.now);
  }

  lemma OtherCallEffect(s: State, op: Op, time: Time)
    requires !SessionCall(op)
    ensures Effect(s.tables, Step(s, op, time).0.tables)
  {
    var t := s.tables;
    match op
    case CreateUser(n) => CreateUserEffect(t, n);
    case UpdateRole(userId, role) => UpdateRoleEffect(t, userId, role);
    case Deactivate(userId, requestorId) => DeactivateEffect(t, userId, requestorId, time.now);
    case ConfirmTotp(userId, verified, credentialId, codes) => ConfirmEffect(t, userId, verified, credentialId, codes);
    case CreateAdmin(n) => CreateAdminEffect(t, n);
    case CompleteSetup(adminId) => CompleteEffect(t, adminId);
    case _ =>
  }

  lemma StepEffect(s: State, op: Op, time: Time)
    requires DistinctSessions(s.tables.sessions)
    ensures Effect(s.tables, Step(s, op, time).0.tables)
  {
    if SessionCall(op) {
      SessionCallEffect(s, op, time);
    } else {
      OtherCallEffect(s, op, time);
    }
  }

  /** Main result: over any run the time a session was revoked at is written once and never again. */
  lemma {:induction false} RevocationIsWriteOnce(s: State, calls: seq<Call>)
    requires Inv(s.tables) && FreshDraws(s, calls)
    ensures Grown(s.tables.sessions, Run(s, calls).tables.sessions) && Inv(Run(s, calls).tables)
  {
    if calls != [] {
      var init, last := calls[..|calls| - 1], calls[|calls| - 1];
      FreshDrawsInit(s, calls);
      RevocationIsWriteOnce(s, init);
      StepEffect(Run(s, init), last.op, last.at);
      StepKeepsInv(Run(s, init), last.op, last.at);
      GrownTransitive(s.tables.sessions, Run(s, init).tables.sessions, Run(s, calls).tables.sessions);
    }
  }

  // ---- A refresh token works once -----------------------------------------------------------------------------------

  ghost predicate Redeemed(t: Tables, hash: string) {
    exists i :: 0 <= i < |t.sessions| && t.sessions[i].refreshHash == hash && t.sessions[i].revokedAt.Some?
  }

  lemma RedeemedIsNotFound(t: Tables, hash: string)
    requires DistinctSessions(t.sessions) && Redeemed(t, hash)
    ensures SessionByRefreshHash(t, hash) == None
  {
    var i :| 0 <= i < |t.sessions| && t.sessions[i].refreshHash == hash && t.sessions[i].revokedAt.Some?;
    forall j | 0 <= j < |t.sessions| ensures !OpenWithRefreshHash(hash)(t.sessions[j]) {
    }
    FirstNone(t.sessions, OpenWithRefreshHash(hash));
  }

  lemma RefreshRedeems(t: Tables, hash: string, ip: string, agent: string, now: Instant, d: Draw)
    requires DistinctSessions(t.sessions) && Refreshed(t, hash, ip, agent, now, d).1.SessionIssued?
    ensures Redeemed(Refreshed(t, hash, ip, agent, now, d).0, hash)
  {
    var i := First(t.sessions, OpenWithRefreshHash(hash)).value;
    RevokedIsUpdate(t.sessions, i, now);
    assert Refreshed(t, hash, ip, agent, now, d).0.sessions[i].refreshHash == hash;
  }

  lemma GrownKeepsRedeemed(a: Tables, b: Tables, hash: string)
    requires Redeemed(a, hash) && Grown(a.sessions, b.sessions)
    ensures Redeemed(b, hash)
  {
    var i :| 0 <= i < |a.sessions| && a.sessions[i].refreshHash == hash && a.sessions[i].revokedAt.Some?;
    assert b.sessions[i] == a.sessions[i];
  }

  lemma {:induction false} RunSplit(s: State, a: seq<Call>, b: seq<Call>)
    ensures Run(s, a + b) == Run(Run(s, a), b)
  {
    hide Step;
    if b == [] {
      assert a + b == a;
    } else {
      RunSplit(s, a, b[..|b| - 1]);
      assert (a + b)[..|a + b| - 1] == a + b[..|b| - 1];
    }
  }

  lemma FreshDrawsTail(s: State, a: seq<Call>, b: seq<Call>)
    requires FreshDraws(s, a + b)
    ensures FreshDraws(Run(s, a), b) && FreshDraws(s, a)
  {
    forall n | 0 <= n < |b| ensures FreshDraw(Run(Run(s, a), b[..n]).tables, b[n].op) {
      RunSplit(s, a, b[..n]);
      assert (a + b)[..|a| + n] == a + b[..n] && (a + b)[|a| + n] == b[n];
    }
    forall n | 0 <= n < |a| ensures FreshDraw(Run(s, a[..n]).tables, a[n].op) {
      assert (a + b)[..n] == a[..n] && (a + b)[n] == a[n];
    }
  }

  function ReplyTo(before: seq<Call>, call: Call): Reply {
    Step(Run(START, before), call.op, call.at).1
  }

  /** Main result: once a refresh token has bought a session, no later attempt with it succeeds. */
  lemma RefreshTokenWorksOnce(before: seq<Call>, first: Call, between: seq<Call>, second: Call)
    requires FreshDraws(START, before + [first] + between)
    requires first.op.Refresh? && second.op.Refresh? && first.op.tokenHash == second.op.tokenHash
    requires ReplyTo(before, first).FromAuth? && ReplyTo(before, first).auth.SessionIssued?
    ensures ReplyTo(before + [first] + between, second) == FromAuth(SessionNotFound)
  {
    var hash := first.op.tokenHash;
    FreshDrawsTail(START, before + [first], between);
    FreshDrawsTail(START, before, [first]);
    SessionsAreOwned(before);
    SessionsAreOwned(before + [first]);
    var s0, s1 := Run(START, before), Run(START, before + [first]);
    assert (before + [first])[..|before|] == before;
    RefreshRedeems(s0.tables, hash, first.op.ip, first.op.agent, first.at.now, first.op.draw);
    RevocationIsWriteOnce(s1, between);
    RunSplit(START, before + [first], between);
    GrownKeepsRedeemed(s1.tables, Run(s1, between).tables, hash);
    RedeemedIsNotFound(Run(s1, between).tables, hash);
  }

  // ---- Refreshing trades one session for one ------------------------------------------------------------------------

  function OpenOf(userId: string): Session -> bool {
    (s: Session) => s.userId == userId && s.revokedAt.None?
  }

  function OpenCount(t: Tables, userId: string): nat {
    |Filter(t.sessions, OpenOf(userId))|
  }

  lemma RefreshKeepsCount(t: Tables, hash: string, ip: string, agent: string, now: Instant, d: Draw, userId: string)
    requires Inv(t) && Refreshed(t, hash, ip, agent, now, d).1.SessionIssued?
    ensures OpenCount(Refreshed(t, hash, ip, agent, now, d).0, userId) == OpenCount(t, userId)
  {
    var i := First(t.sessions, OpenWithRefreshHash(hash)).value;
    var issued := Refreshed(t, hash, ip, agent, now, d).1.session;
    RevokedIsUpdate(t.sessions, i, now);
    FilterUpdate(t.sessions, i, t.sessions[i].(revokedAt := Some(now)), OpenOf(userId));
    FilterSnoc(Revoked(t.sessions, t.sessions[i].id, now), issued, OpenOf(userId));
  }

  // ---- A closed account stays out -----------------------------------------------------------------------------------

  ghost predicate Closed(t: Tables, id: string) {
    HasUser(t, id) && !IsActive(t, id)
  }

  function OwnedBy(userId: string): Session -> bool {
    (s: Session) => s.userId == userId
  }

  /** However the account is used, its closed state and its number of sessions stay as they are. */
  ghost predicate StillOut(t: Tables, t': Tables, id: string) {
    Closed(t', id) && |Filter(t'.sessions, OwnedBy(id))| == |Filter(t.sessions, OwnedBy(id))|
  }

  lemma ClosedStays(t: Tables, t': Tables, id: string)
    requires Closed(t, id) && AccountsGrown(t.users, t'.users)
    ensures Closed(t', id)
  {
    var i :| 0 <= i < |t.users| && t.users[i].id == id;
    assert t'.users[i].id == id;
    forall j | 0 <= j < |t'.users| ensures !ActiveWithId(id)(t'.users[j]) {
      assert j < |t.users| ==> !ActiveWithId(id)(t.users[j]);
    }
  }

  lemma SameOwners(a: seq<Session>, b: seq<Session>, id: string)
    requires |a| == |b| && Grown(a, b)
    ensures |Filter(b, OwnedBy(id))| == |Filter(a, OwnedBy(id))|
  {
    FilterSameCount(a, b, OwnedBy(id));
  }

  lemma OneMoreRow(a: seq<Session>, b: seq<Session>, id: string)
    requires Grown(a, b) && |b| <= |a| + 1 && (|b| > |a| ==> b[|a|].userId != id)
    ensures |Filter(b, OwnedBy(id))| == |Filter(a, OwnedBy(id))|
  {
    if |b| > |a| {
      SameOwners(a, b[..|b| - 1], id);
    } else {
      SameOwners(a, b, id);
    }
  }

  lemma EffectKeepsOut(t: Tables, t': Tables, id: string)
    requires Closed(t, id) && Effect(t, t')
    ensures StillOut(t, t', id)
  {
    ClosedStays(t, t', id);
    OneMoreRow(t.sessions, t'.sessions, id);
  }

  /** Main result: a deactivated account has no unrevoked session, and never gets another session. */
  lemma {:induction false} ClosedAccountStaysOut(s: State, calls: seq<Call>, id: string)
    requires Inv(s.tables) && Closed(s.tables, id) && FreshDraws(s, calls)
    ensures Inv(Run(s, calls).tables) && StillOut(s.tables, Run(s, calls).tables, id)
    ensures OpenCount(Run(s, calls).tables, id) == 0
  {
    if calls != [] {
      var init, last := calls[..|calls| - 1], calls[|calls| - 1];
      FreshDrawsInit(s, calls);
      ClosedAccountStaysOut(s, init, id);
      StepEffect(Run(s, init), last.op, last.at);
      EffectKeepsOut(Run(s, init).tables, Run(s, calls).tables, id);
      StepKeepsInv(Run(s, init), last.op, last.at);
    }
    NoOpenSessions(Run(s, calls).tables, id);
  }

  lemma NoOpenSessions(t: Tables, id: string)
    requires Inv(t) && !IsActive(t, id)
    ensures OpenCount(t, id) == 0
  {
    forall j | 0 <= j < |t.sessions| ensures !OpenOf(id)(t.sessions[j]) {
    }
    FirstNone(t.sessions, OpenOf(id));
    FilterNonEmpty(t.sessions, OpenOf(id));
  }

  lemma DeactivationCloses(t: Tables, userId: string, requestorId: string, now: Instant)
    requires Users.AccountClosed(t, userId, requestorId, now).1 == Users.Ok
    ensures Closed(Users.AccountClosed(t, userId, requestorId, now).0, userId)
  {
    var t' := Users.AccountClosed(t, userId, requestorId, now).0;
    var i := First(t.users, ActiveWithId(userId)).value;
    assert t'.users[i].id == userId;
  }
}
