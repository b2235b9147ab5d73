/** What setting up a second factor, and removing it, means for the logins that follow. */
module SecondFactor {
  import opened Common
  import opened Timestamps
  import opened Database
  import opened Auth
  import opened BackupCodes
  import opened Identity
  import opened SessionOrigins
  import Mfa
  import RateLimiter
  import Setup
  import Users

  /** The account has this authenticator, and it is in use. */
  ghost predicate InUse(t: Tables, userId: string, credentialId: string) {
    Credential(credentialId, userId, "totp", true) in t.credentials
  }

  ghost predicate Confirms(s: State, op: Op, time: Time, credentialId: string, userId: string) {
    op.ConfirmTotp? && op.userId == userId && op.credentialId == credentialId
    && Step(s, op, time).1.FromMfa? && Step(s, op, time).1.mfa.Issued?
  }

  /** Setting up succeeds iff the first code was right and the new row finds its account; and then it is in use. */
  lemma ConfirmedIsInUse(s: State, op: Op, time: Time)
    requires op.ConfirmTotp?
    ensures Confirms(s, op, time, op.credentialId, op.userId)
            <==> op.verified && HasUser(s.tables, op.userId)
                 && forall c :: c in s.tables.credentials ==> c.id != op.credentialId
    ensures Confirms(s, op, time, op.credentialId, op.userId) ==>
              InUse(Step(s, op, time).0.tables, op.userId, op.credentialId)
    ensures Confirms(s, op, time, op.credentialId, op.userId) ==> |Step(s, op, time).1.mfa.plain| == |op.codes|
    ensures Confirms(s, op, time, op.credentialId, op.userId) ==>
              forall i :: 0 <= i < |op.codes| ==> Step(s, op, time).1.mfa.plain[i] == op.codes[i].code
  {
  }

  lemma StepKeepsInUse(s: State, op: Op, time: Time, userId: string, credentialId: string)
    requires InUse(s.tables, userId, credentialId) && op != RemoveCredential(credentialId, userId)
    ensures InUse(Step(s, op, time).0.tables, userId, credentialId)
  {
    var c := Credential(credentialId, userId, "totp", true);
    var i :| 0 <= i < |s.tables.credentials| && s.tables.credentials[i] == c;
    StepCredentials(s, op, time);
    assert Step(s, op, time).0.tables.credentials[i] == c;
  }

  lemma LoginKeepsCredentials(s: State, op: Op, time: Time)
    requires SessionCall(op)
    ensures Step(s, op, time).0.tables.credentials == s.tables.credentials
  {
  }

  lemma AccountsKeepCredentials(s: State, op: Op, time: Time)
    requires !SessionCall(op) && !op.ConfirmTotp? && !op.RemoveCredential?
    ensures Step(s, op, time).0.tables.credentials == s.tables.credentials
  {
  }

  /** What a call does to the credentials: one is added under a new identifier, or one is removed by name. */
  lemma StepCredentials(s: State, op: Op, time: Time)
    ensures var cs, cs' := s.tables.credentials, Step(s, op, time).0.tables.credentials;
            && |cs| <= |cs'| <= |cs| + 1
            && (forall i :: 0 <= i < |cs| ==>
                  cs'[i] == (if op == RemoveCredential(cs[i].id, cs[i].userId) then cs[i].(isActive := false)
                    else cs[i]))
            && (|cs'| > |cs| ==> forall c :: c in cs ==> c.id != cs'[|cs|].id)
  {
    if SessionCall(op) {
      LoginKeepsCredentials(s, op, time);
    } else if !op.ConfirmTotp? && !op.RemoveCredential? {
      AccountsKeepCredentials(s, op, time);
    }
  }

  lemma {:induction false} InUseThroughout(s: State, calls: seq<Call>, userId: string, credentialId: string)
    requires InUse(s.tables, userId, credentialId)
    requires forall i :: 0 <= i < |calls| ==> calls[i].op != RemoveCredential(credentialId, userId)
    ensures InUse(Run(s, calls).tables, userId, credentialId)
  {
    hide Step, InUse;
    if calls != [] {
      var init, last := calls[..|calls| - 1], calls[|calls| - 1];
      InUseThroughout(s, init, userId, credentialId);
      StepKeepsInUse(Run(s, init), last.op, last.at, userId, credentialId);
    }
  }

  /** The account is asked for a second factor: no login of it gets a session for the password alone. */
  ghost predicate Guarded(s: State, userId: string, credentialId: string) {
    && (forall email: string, ok: bool, ip: string, agent: string, d: Draw, time: Time ::
          AnsweredWithFactor(s, Login(email, ok, ip, agent, d), time, userId))
    && (forall validFor: set<string> :: credentialId in validFor && IsActive(s.tables, userId) ==>
          Mfa.TotpChecked(s.tables, userId, validFor).Passed?)
  }

  /** A login with the account's e-mail address: with the right password, and unblocked, the token of the next step. */
  ghost predicate AnsweredWithFactor(s: State, op: Op, time: Time, userId: string)
    requires op.Login?
  {
    var (s', reply) := Step(s, op, time);
    && (UserByEmail(s.tables, op.email).Some? && UserByEmail(s.tables, op.email).value.id == userId ==>
          && s'.tables.sessions == s.tables.sessions
          && !(reply.FromAuth? && reply.auth.SessionIssued?)
          && (op.passwordOk && !RateLimiter.Blocked(s.limiter, op.ip, time.ticks) ==>
                && reply == FromAuth(MfaRequired(PendingToken(userId, time.now)))
                && PendingToken(userId, time.now) in s'.pending))
  }

  lemma InUseIsListed(t: Tables, userId: string, credentialId: string)
    requires InUse(t, userId, credentialId)
    ensures CredentialsOf(t, userId) != []
    ensures forall validFor: set<string> :: credentialId in validFor && IsActive(t, userId) ==>
              Mfa.TotpChecked(t, userId, validFor).Passed?
  {
    var c := Credential(credentialId, userId, "totp", true);
    CredentialIsListed(t, userId, c);
    FilterHas(CredentialsOf(t, userId), c, Mfa.TotpCredential());
    IsActiveMeansFound(t, userId);
    forall validFor: set<string> | credentialId in validFor && IsActive(t, userId)
      ensures Mfa.TotpChecked(t, userId, validFor).Passed?
    {
      TotpIsFound(t, userId, validFor);
      assert SecondFactorShown(t, userId, Totp(validFor));
    }
  }

  lemma LoginIsGuarded(s: State, op: Op, time: Time, userId: string)
    requires op.Login? && CredentialsOf(s.tables, userId) != []
    ensures AnsweredWithFactor(s, op, time, userId)
  {
    if UserByEmail(s.tables, op.email).Some? && UserByEmail(s.tables, op.email).value.id == userId {
      var t' := s.tables.(users := WithLastLogin(s.tables.users, userId, time.now));
      assert CredentialsOf(t', userId) == CredentialsOf(s.tables, userId);
    }
  }

  lemma InUseGuards(s: State, userId: string, credentialId: string)
    requires InUse(s.tables, userId, credentialId)
    ensures Guarded(s, userId, credentialId)
  {
    InUseIsListed(s.tables, userId, credentialId);
    forall email: string, ok: bool, ip: string, agent: string, d: Draw, time: Time
      ensures AnsweredWithFactor(s, Login(email, ok, ip, agent, d), time, userId)
    {
      LoginIsGuarded(s, Login(email, ok, ip, agent, d), time, userId);
    }
  }

  /**
   Main result: from a successful setup on, in every run in which that authenticator is not removed, the account's
   logins get no further than the token of the second step, and a code of that authenticator passes it.
   */
  lemma {:induction false} ConfirmedAccountIsGuarded(s: State, op: Op, time: Time, calls: seq<Call>)
    requires op.ConfirmTotp? && Confirms(s, op, time, op.credentialId, op.userId)
    requires forall i :: 0 <= i < |calls| ==> calls[i].op != RemoveCredential(op.credentialId, op.userId)
    ensures Guarded(Run(Step(s, op, time).0, calls), op.userId, op.credentialId)
  {
    ConfirmedIsInUse(s, op, time);
    InUseThroughout(Step(s, op, time).0, calls, op.userId, op.credentialId);
    InUseGuards(Run(Step(s, op, time).0, calls), op.userId, op.credentialId);
  }

  // ---- Removing it -------------------------------------------------------------------------------------------------

  /** Every credential with this identifier is out of use; there is one, so the identifier is not given again. */
  ghost predicate Retired(t: Tables, credentialId: string) {
    && (exists i :: 0 <= i < |t.credentials| && t.credentials[i].id == credentialId)
    && (forall i :: 0 <= i < |t.credentials| && t.credentials[i].id == credentialId ==> !t.credentials[i].isActive)
  }

  ghost predicate DistinctCredentials(t: Tables) {
    forall i, j :: 0 <= i < j < |t.credentials| ==> t.credentials[i].id != t.credentials[j].id
  }

  lemma StepKeepsRetired(s: State, op: Op, time: Time, credentialId: string)
    requires Retired(s.tables, credentialId)
    ensures Retired(Step(s, op, time).0.tables, credentialId)
  {
    hide Step;
    var cs, cs' := s.tables.credentials, Step(s, op, time).0.tables.credentials;
    StepCredentials(s, op, time);
    var k :| 0 <= k < |cs| && cs[k].id == credentialId;
    assert cs'[k].id == credentialId && cs[k] in cs;
  }

  lemma {:induction false} RetiredThroughout(s: State, calls: seq<Call>, credentialId: string)
    requires Retired(s.tables, credentialId)
    ensures Retired(Run(s, calls).tables, credentialId)
  {
    hide Step, Retired;
    if calls != [] {
      var init, last := calls[..|calls| - 1], calls[|calls| - 1];
      RetiredThroughout(s, init, credentialId);
      StepKeepsRetired(Run(s, init), last.op, last.at, credentialId);
    }
  }

  /** Main result: an authenticator that its owner removed never passes again, in any run. */
  lemma {:induction false} RemovedNeverPasses(s: State, userId: string, credentialId: string, time: Time,
        calls: seq<Call>)
    requires DistinctCredentials(s.tables)
    requires exists i :: 0 <= i < |s.tables.credentials| && s.tables.credentials[i].id == credentialId
                         && s.tables.credentials[i].userId == userId
    ensures var t := Run(Step(s, RemoveCredential(credentialId, userId), time).0, calls).tables;
            forall u: string :: !Mfa.TotpChecked(t, u, {credentialId}).Passed?
  {
    var s' := Step(s, RemoveCredential(credentialId, userId), time).0;
    var k :| 0 <= k < |s.tables.credentials| && s.tables.credentials[k].id == credentialId
             && s.tables.credentials[k].userId == userId;
    assert s'.tables.credentials[k].id == credentialId;
    assert Retired(s'.tables, credentialId);
    RetiredThroughout(s', calls, credentialId);
    var t := Run(s', calls).tables;
    forall u: string ensures !Mfa.TotpChecked(t, u, {credentialId}).Passed? {
      TotpIsFound(t, u, {credentialId});
    }
  }
}
