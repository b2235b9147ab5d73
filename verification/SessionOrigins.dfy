/** Where sessions come from: what must have been shown for each one a run hands out. */
module SessionOrigins {
  import opened Common
  import opened Timestamps
  import opened Database
  import opened Auth
  import opened Identity
  import opened SessionHistory
  import BackupCodes
  import Mfa
  import RateLimiter

  // ---- One call ----------------------------------------------------------------------------------------------------

  ghost predicate ListsCode(u: User, userId: string, input: string) {
    && u.id == userId && u.isActive && u.codes.Some?
    && exists c :: c in u.codes.value && !c.isUsed && BackupCodes.Upper(c.code) == BackupCodes.KeyOf(input)
  }

  /** An authenticator of the account validates the code, or the text is one of the account's unused backup codes. */
  ghost predicate SecondFactorShown(t: Tables, userId: string, proof: Proof) {
    match proof
    case Totp(validFor) =>
      exists c :: c in t.credentials && c.userId == userId && c.isActive && c.kind == "totp" && c.id in validFor
    case Backup(input) => input != "" && exists u :: u in t.users && ListsCode(u, userId, input)
  }

  ghost predicate OpenRow(t: Tables, hash: string, userId: string, now: Instant, i: nat) {
    && i < |t.sessions| && t.sessions[i].refreshHash == hash && t.sessions[i].revokedAt.None?
    && t.sessions[i].userId == userId && AtOrBefore(now, t.sessions[i].expiresAt)
  }

  /** The password of an active account, sent from an address that is not blocked. */
  ghost predicate PasswordShown(s: State, op: Op, time: Time, userId: string) {
    && op.Login? && !RateLimiter.Blocked(s.limiter, op.ip, time.ticks) && op.passwordOk
    && UserByEmail(s.tables, op.email).Some? && UserByEmail(s.tables, op.email).value.id == userId
  }

  /**
   The password where no second factor is set up; a second factor together with a token that a password was
   shown for, not five minutes ago; or the refresh token of a session that is neither revoked nor expired.
   */
  ghost predicate Earned(s: State, op: Op, time: Time, userId: string) {
    var t := s.tables;
    match op
    case Login(_, _, _, _, _) => PasswordShown(s, op, time, userId) && CredentialsOf(t, userId) == []
    case VerifyMfa(token, proof, _, _, _) =>
      && token in s.pending && Before(time.now, PlusMinutes(token.issuedAt, 5)) && token.userId == userId
      && IsActive(t, userId) && SecondFactorShown(t, userId, proof)
    case Refresh(hash, _, _, _) => exists i :: OpenRow(t, hash, userId, time.now, i)
    case _ => false
  }

  /** The step's new session, if it made one, belongs to this account. */
  ghost predicate Gained(t: Tables, t': Tables, userId: string) {
    |t'.sessions| > |t.sessions| && t'.sessions[|t.sessions|].userId == userId
  }

  lemma TotpIsFound(t: Tables, userId: string, validFor: set<string>)
    ensures First(Filter(CredentialsOf(t, userId), Mfa.TotpCredential()), Mfa.ValidatedBy(validFor)).Some?
            <==> SecondFactorShown(t, userId, Totp(validFor))
  {
    var totp := Filter(CredentialsOf(t, userId), Mfa.TotpCredential());
    if First(totp, Mfa.ValidatedBy(validFor)).Some? {
      var c := totp[First(totp, Mfa.ValidatedBy(validFor)).value];
      assert c in totp && c in CredentialsOf(t, userId);
    }
    if SecondFactorShown(t, userId, Totp(validFor)) {
      var c :| c in t.credentials && c.userId == userId && c.isActive && c.kind == "totp" && c.id in validFor;
      CredentialIsListed(t, userId, c);
      FilterHas(CredentialsOf(t, userId), c, Mfa.TotpCredential());
    }
  }

  lemma {:induction false} CredentialIsListed(t: Tables, userId: string, c: Credential)
    requires c in t.credentials && c.userId == userId && c.isActive
    ensures c in CredentialsOf(t, userId)
    decreases |t.credentials|
  {
    var init := t.credentials[..|t.credentials| - 1];
    if c in init {
      CredentialIsListed(t.(credentials := init), userId, c);
    } else {
      assert t.credentials == init + [t.credentials[|t.credentials| - 1]];
    }
  }

  lemma CodeIsFound(t: Tables, userId: string, input: string, now: Instant)
    requires DistinctUsers(t.users) && input != ""
    ensures Mfa.BackupCodeChecked(t, userId, input, now).1.Passed? <==> SecondFactorShown(t, userId, Backup(input))
  {
    if UserById(t, userId).Some? {
      var i := First(t.users, ActiveWithId(userId)).value;
      assert forall u :: u in t.users && u.id == userId ==> u == t.users[i];
      assert t.users[i] in t.users;
    }
  }

  /** An account the tables know, and an identifier they do not: the database takes the row. */
  lemma StoringSucceeds(t: Tables, s: Session)
    requires IsActive(t, s.userId) && forall i :: 0 <= i < |t.sessions| ==> t.sessions[i].id != s.id
    ensures SessionCreated(t, s) == (t.(sessions := t.sessions + [s]), SessionIssued(s))
  {
  }

  lemma LoginIsEarned(s: State, op: Op, time: Time, userId: string)
    requires Inv(s.tables) && FreshDraw(s.tables, op) && op.Login?
    ensures Gained(s.tables, Step(s, op, time).0.tables, userId) <==> Earned(s, op, time, userId)
  {
    var t := s.tables;
    if UserByEmail(t, op.email).Some? {
      var u := UserByEmail(t, op.email).value;
      var t' := t.(users := WithLastLogin(t.users, u.id, time.now));
      UserByEmailIsActive(t, op.email);
      IsActiveMeansFound(t, u.id);
      SameAccountsKeepInv(t, t'.users);
      assert CredentialsOf(t', u.id) == CredentialsOf(t, u.id);
      StoringSucceeds(t', NewSession(u.id, op.ip, op.agent, op.draw));
    }
  }

  /** The second step stores its session exactly when the factor it was shown is one of an active account. */
  lemma MfaStores(t: Tables, userId: string, proof: Proof, ip: string, agent: string, now: Instant, d: Draw)
    requires Inv(t) && proof != Backup("") && forall i :: 0 <= i < |t.sessions| ==> t.sessions[i].id != d.id
    ensures var t' := MfaLogin(t, userId, proof, ip, agent, now, d).0;
            t'.sessions == t.sessions + (if IsActive(t, userId) && SecondFactorShown(t, userId, proof)
                                         then [NewSession(userId, ip, agent, d)] else [])
  {
    var s := NewSession(userId, ip, agent, d);
    IsActiveMeansFound(t, userId);
    match proof
    case Totp(validFor) =>
      TotpIsFound(t, userId, validFor);
      if IsActive(t, userId) {
        StoringSucceeds(t, s);
      }
    case Backup(input) =>
      CodeIsFound(t, userId, input, now);
      var (t', checked) := Mfa.BackupCodeChecked(t, userId, input, now);
      if checked.Passed? {
        CodesKeepInv(t, userId, BackupCodes.Used(UserById(t, userId).value.codes.value, input, Rfc3339(now)).value);
        StoringSucceeds(t', s);
      }
  }

  lemma MfaIsEarned(s: State, op: Op, time: Time, userId: string)
    requires Inv(s.tables) && FreshDraw(s.tables, op) && op.VerifyMfa?
    ensures Gained(s.tables, Step(s, op, time).0.tables, userId) <==> Earned(s, op, time, userId)
  {
    if op.proof != Backup("") {
      MfaStores(s.tables, op.token.userId, op.proof, op.ip, op.agent, time.now, op.draw);
    }
  }

  lemma RefreshIsEarned(s: State, op: Op, time: Time, userId: string)
    requires Inv(s.tables) && FreshDraw(s.tables, op) && op.Refresh?
    ensures Gained(s.tables, Step(s, op, time).0.tables, userId) <==> Earned(s, op, time, userId)
  {
    var t := s.tables;
    var found := First(t.sessions, OpenWithRefreshHash(op.tokenHash));
    if found.Some? {
      var row := t.sessions[found.value];
      assert Earned(s, op, time, userId) <==> OpenRow(t, op.tokenHash, userId, time.now, found.value);
      assert IsActive(t, row.userId);
      IsActiveMeansFound(t, row.userId);
      var agent := if row.userAgent != "" then row.userAgent else op.agent;
      StoringSucceeds(t.(sessions := Revoked(t.sessions, row.id, time.now)),
        NewSession(row.userId, op.ip, agent, op.draw));
    }
  }

  /** Main result: a call hands out a session exactly when the account's owner earned it. */
  lemma SessionsAreEarned(s: State, op: Op, time: Time, userId: string)
    requires Inv(s.tables) && FreshDraw(s.tables, op)
    ensures Gained(s.tables, Step(s, op, time).0.tables, userId) <==> Earned(s, op, time, userId)
  {
    match op
    case Login(_, _, _, _, _) => LoginIsEarned(s, op, time, userId);
    case VerifyMfa(_, _, _, _, _) => MfaIsEarned(s, op, time, userId);
    case Refresh(_, _, _, _) => RefreshIsEarned(s, op, time, userId);
    case _ =>
  }

  // ---- Runs ---------------------------------------------------------------------------------------------------------

  /** Call `k` of the run was the one that made session `i`, and earned it. */
  ghost predicate MadeBy(calls: seq<Call>, i: nat, userId: string, k: nat) {
    && k < |calls| && |Run(START, calls[..k]).tables.sessions| == i
    && Earned(Run(START, calls[..k]), calls[k].op, calls[k].at, userId)
  }

  lemma MadeByLonger(calls: seq<Call>, last: Call, i: nat, userId: string, k: nat)
    requires MadeBy(calls, i, userId, k)
    ensures MadeBy(calls + [last], i, userId, k)
  {
    assert (calls + [last])[..k] == calls[..k];
  }

  /** The run without its last call, and what that call did to the sessions. */
  lemma LastCall(calls: seq<Call>)
    requires calls != [] && FreshDraws(START, calls)
    ensures var init, last := calls[..|calls| - 1], calls[|calls| - 1];
            var s := Run(START, init);
            && FreshDraws(START, init) && FreshDraw(s.tables, last.op) && Inv(s.tables)
            && Run(START, calls) == Step(s, last.op, last.at).0
            && Effect(s.tables, Run(START, calls).tables)
  {
    var init, last := calls[..|calls| - 1], calls[|calls| - 1];
    FreshDrawsInit(START, calls);
    SessionsAreOwned(init);
    StepEffect(Run(START, init), last.op, last.at);
  }

  /** Main result: behind every session of every reachable state is a call that earned it. */
  lemma {:induction false} EverySessionWasEarned(calls: seq<Call>, i: nat)
    requires FreshDraws(START, calls) && i < |Run(START, calls).tables.sessions|
    ensures exists k: nat :: MadeBy(calls, i, Run(START, calls).tables.sessions[i].userId, k)
  {
    hide Step, Earned;
    if calls != [] {
      var init, last := calls[..|calls| - 1], calls[|calls| - 1];
      var userId := Run(START, calls).tables.sessions[i].userId;
      LastCall(calls);
      assert calls == init + [last];
      if i < |Run(START, init).tables.sessions| {
        EverySessionWasEarned(init, i);
        var k: nat :| MadeBy(init, i, userId, k);
        MadeByLonger(init, last, i, userId, k);
      } else {
        SessionsAreEarned(Run(START, init), last.op, last.at, userId);
        assert MadeBy(calls, i, userId, |init|);
      }
    }
  }

  // ---- Every session goes back to a password ------------------------------------------------------------------------

  /** Call `k` of the run showed the account's password. */
  ghost predicate PasswordAt(calls: seq<Call>, userId: string, k: nat) {
    k < |calls| && PasswordShown(Run(START, calls[..k]), calls[k].op, calls[k].at, userId)
  }

  ghost predicate HasPassword(calls: seq<Call>, userId: string) {
    exists k: nat :: PasswordAt(calls, userId, k)
  }

  ghost predicate AllHavePassword(calls: seq<Call>) {
    forall i :: 0 <= i < |Run(START, calls).tables.sessions| ==>
      HasPassword(calls, Run(START, calls).tables.sessions[i].userId)
  }

  lemma HasPasswordLonger(calls: seq<Call>, last: Call, userId: string)
    requires HasPassword(calls, userId)
    ensures HasPassword(calls + [last], userId)
  {
    var k: nat :| PasswordAt(calls, userId, k);
    assert (calls + [last])[..k] == calls[..k];
    assert PasswordAt(calls + [last], userId, k);
  }

  lemma StepTokens(s: State, op: Op, time: Time, token: PendingToken)
    requires token in Step(s, op, time).0.pending && token !in s.pending
    ensures PasswordShown(s, op, time, token.userId) && token.issuedAt == time.now
  {
  }

  /** Call `k` of the run issued the token. */
  ghost predicate IssuedBy(calls: seq<Call>, token: PendingToken, k: nat) {
    PasswordAt(calls, token.userId, k) && calls[k].at.now == token.issuedAt
  }

  /** A token between the two login steps was issued, at the time it names, to whoever showed the password. */
  lemma {:induction false} TokenHasPassword(calls: seq<Call>, token: PendingToken)
    requires token in Run(START, calls).pending
    ensures exists k: nat :: IssuedBy(calls, token, k)
  {
    hide PasswordShown;
    if calls != [] {
      var init, last := calls[..|calls| - 1], calls[|calls| - 1];
      assert calls == init + [last];
      if token in Run(START, init).pending {
        TokenHasPassword(init, token);
        var k: nat :| IssuedBy(init, token, k);
        assert calls[..k] == init[..k];
        assert IssuedBy(calls, token, k);
      } else {
        StepTokens(Run(START, init), last.op, last.at, token);
        assert IssuedBy(calls, token, |init|);
      }
    }
  }

  /** Call `j` showed the account's password not five minutes before call `k`. */
  ghost predicate PasswordBefore(calls: seq<Call>, userId: string, j: nat, k: nat) {
    j < k < |calls| && PasswordAt(calls, userId, j)
    && Before(calls[k].at.now, PlusMinutes(calls[j].at.now, 5))
  }

  /** Main result: a session of the second login step has the first step, with its password, not five minutes before. */
  lemma MfaSessionHasPassword(calls: seq<Call>, i: nat, userId: string, k: nat)
    requires MadeBy(calls, i, userId, k) && calls[k].op.VerifyMfa?
    ensures exists j: nat :: PasswordBefore(calls, userId, j, k)
  {
    hide Step, PasswordShown;
    var token := calls[k].op.token;
    TokenHasPassword(calls[..k], token);
    var j: nat :| IssuedBy(calls[..k], token, j);
    assert calls[..k][..j] == calls[..j];
    assert PasswordBefore(calls, userId, j, k);
  }

  lemma NewSessionHasPassword(calls: seq<Call>, last: Call, userId: string)
    requires AllHavePassword(calls) && Earned(Run(START, calls), last.op, last.at, userId)
    ensures HasPassword(calls + [last], userId)
  {
    hide Step, PasswordShown;
    assert (calls + [last])[..|calls|] == calls;
    if last.op.Login? {
      assert PasswordAt(calls + [last], userId, |calls|);
    } else {
      if last.op.VerifyMfa? {
        TokenHasPassword(calls, last.op.token);
      } else {
        var i: nat :| OpenRow(Run(START, calls).tables, last.op.tokenHash, userId, last.at.now, i);
      }
      assert HasPassword(calls, userId);
      HasPasswordLonger(calls, last, userId);
    }
  }

  /** Main result: however often it was refreshed, every session's account once showed its password. */
  lemma {:induction false} EverySessionHasPassword(calls: seq<Call>)
    requires FreshDraws(START, calls)
    ensures AllHavePassword(calls)
  {
    hide Step, Earned, HasPassword;
    if calls != [] {
      var init, last := calls[..|calls| - 1], calls[|calls| - 1];
      var before, after := Run(START, init).tables.sessions, Run(START, calls).tables.sessions;
      LastCall(calls);
      assert calls == init + [last];
      EverySessionHasPassword(init);
      forall i | 0 <= i < |after| ensures HasPassword(calls, after[i].userId) {
        if i < |before| {
          HasPasswordLonger(init, last, after[i].userId);
        } else {
          SessionsAreEarned(Run(START, init), last.op, last.at, after[i].userId);
          NewSessionHasPassword(init, last, after[i].userId);
        }
      }
    }
  }
}
