/** The last admin is protected: what runs of the identity services keep about admins and the setup wizard. */
module AdminSafety {
  import opened Common
  import opened Timestamps
  import opened Database
  import opened Auth
  import opened Identity
  import BackupCodes
  import Mfa
  import Users
  import Setup

  function ActiveAdminIds(users: seq<User>): set<string> {
    set u | u in users && Users.ActiveAdmin()(u) :: u.id
  }

  lemma IdsSnoc(users: seq<User>, u: User)
    ensures ActiveAdminIds(users + [u]) == ActiveAdminIds(users) + (if Users.ActiveAdmin()(u) then {u.id} else {})
  {
  }

  lemma {:induction false} CountIsCardinalityOf(users: seq<User>)
    requires DistinctUsers(users)
    ensures |Filter(users, Users.ActiveAdmin())| == |ActiveAdminIds(users)|
  {
    if users == [] {
      assert ActiveAdminIds(users) == {};
    } else {
      var init, u := users[..|users| - 1], users[|users| - 1];
      CountIsCardinalityOf(init);
      assert users == init + [u];
      IdsSnoc(init, u);
      assert u.id !in ActiveAdminIds(init);
    }
  }

  /** The counting loop counts accounts, not rows. */
  lemma CountIsCardinality(t: Tables)
    requires DistinctUsers(t.users)
    ensures Users.AdminCount(t) == |ActiveAdminIds(t.users)|
  {
    CountIsCardinalityOf(t.users);
  }

  lemma RowOf(users: seq<User>, id: string, k: nat)
    requires DistinctUsers(users) && k < |users| && users[k].id == id
    ensures Deactivated(users, id) == users[k := users[k].(isActive := false)]
    ensures forall role :: users[k].isActive ==> WithRole(users, id, role) == users[k := users[k].(role := role)]
  {
  }

  lemma ClosingKeepsAdmin(t: Tables, userId: string, requestorId: string, now: Instant)
    requires DistinctUsers(t.users) && Users.AdminCount(t) >= 1
    ensures Users.AdminCount(Users.AccountClosed(t, userId, requestorId, now).0) >= 1
  {
    if Users.AccountClosed(t, userId, requestorId, now).1 == Users.Ok {
      var k := First(t.users, ActiveWithId(userId)).value;
      RowOf(t.users, userId, k);
      FilterUpdate(t.users, k, t.users[k].(isActive := false), Users.ActiveAdmin());
    }
  }

  lemma RoleChangeKeepsAdmin(t: Tables, userId: string, role: string)
    requires DistinctUsers(t.users) && Users.AdminCount(t) >= 1
    ensures Users.AdminCount(Users.RoleChanged(t, userId, role).0) >= 1
  {
    if Users.RoleChanged(t, userId, role).1 == Users.Ok {
      var k := First(t.users, ActiveWithId(userId)).value;
      RowOf(t.users, userId, k);
      FilterUpdate(t.users, k, t.users[k].(role := role), Users.ActiveAdmin());
    }
  }

  lemma NewUserKeepsAdmin(t: Tables, u: User)
    ensures Users.AdminCount(t.(users := t.users + [u])) >= Users.AdminCount(t)
  {
    FilterSnoc(t.users, u, Users.ActiveAdmin());
  }

  lemma LastLoginKeepsAdmins(t: Tables, id: string, now: Instant)
    ensures |Filter(WithLastLogin(t.users, id, now), Users.ActiveAdmin())| == Users.AdminCount(t)
  {
    FilterSameCount(t.users, WithLastLogin(t.users, id, now), Users.ActiveAdmin());
  }

  lemma FirstAdminKeeps(t: Tables, n: Users.NewUser)
    ensures Users.AdminCount(Setup.AdminCreated(t, n).0) >= Users.AdminCount(t)
    ensures Setup.Completed(Setup.AdminCreated(t, n).0) <==> Setup.Completed(t)
  {
    NewUserKeepsAdmin(t, User(n.id, n.normalized, "admin", true, None, None));
    assert Setup.ADMIN_ID[6] != Setup.SETUP_DONE[6];
  }

  lemma CompletingKeeps(t: Tables, adminId: string)
    ensures Users.AdminCount(Setup.SetupCompleted(t, adminId).0) == Users.AdminCount(t)
    ensures Setup.Completed(t) ==> Setup.Completed(Setup.SetupCompleted(t, adminId).0)
    ensures Setup.Completed(Setup.SetupCompleted(t, adminId).0) && !Setup.Completed(t) ==> Users.AdminCount(t) >= 1
  {
    FilterNonEmpty(t.users, Users.ActiveAdmin());
  }

  /** An active admin remains one, the mark of completed setup stays, and it is only set while there is an admin. */
  ghost predicate Safe(t: Tables, t': Tables) {
    && (Users.AdminCount(t) >= 1 ==> Users.AdminCount(t') >= 1)
    && (Setup.Completed(t) ==> Setup.Completed(t'))
    && (Setup.Completed(t') && !Setup.Completed(t) ==> Users.AdminCount(t) >= 1)
  }

  lemma LoginIsSafe(s: State, email: string, passwordOk: bool, ip: string, agent: string, time: Time, d: Draw)
    ensures Safe(s.tables, LoginStep(s, email, passwordOk, ip, agent, time, d).0.tables)
  {
    if UserByEmail(s.tables, email).Some? {
      LastLoginKeepsAdmins(s.tables, UserByEmail(s.tables, email).value.id, time.now);
      assert LoggedIn(s.tables, email, ip, agent, time.now, d).0.config == s.tables.config;
    }
  }

  lemma SessionsAreSafe(t: Tables, op: Op, now: Instant)
    ensures op.Refresh? ==> Safe(t, Refreshed(t, op.tokenHash, op.ip, op.agent, now, op.draw).0)
    ensures op.Logout? ==> Safe(t, LoggedOut(t, op.accessHash, now).0)
    ensures op.RevokeSession? ==> Safe(t, SessionEnded(t, op.sessionId, op.userId, now).0)
  {
  }

  lemma CodesAreSafe(t: Tables, id: string, codes: seq<BackupCodes.BackupCode>)
    ensures |Filter(WithCodes(t.users, id, codes), Users.ActiveAdmin())| == Users.AdminCount(t)
  {
    FilterSameCount(t.users, WithCodes(t.users, id, codes), Users.ActiveAdmin());
  }

  lemma MfaIsSafe(t: Tables, userId: string, proof: Proof, ip: string, agent: string, now: Instant, d: Draw)
    ensures Safe(t, MfaLogin(t, userId, proof, ip, agent, now, d).0)
  {
    match proof
    case Totp(_) =>
    case Backup(input) =>
      if UserById(t, userId).Some? && UserById(t, userId).value.codes.Some? {
        var used := BackupCodes.Used(UserById(t, userId).value.codes.value, input, Rfc3339(now));
        if used.Some? {
          CodesAreSafe(t, userId, used.value);
        }
      }
  }

  lemma ConfirmIsSafe(t: Tables, userId: string, verified: bool, credentialId: string,
        codes: seq<BackupCodes.BackupCode>)
    ensures Safe(t, Mfa.TotpConfirmed(t, userId, verified, credentialId, codes).0)
  {
    CodesAreSafe(t, userId, codes);
  }

  lemma AccountsAreSafe(t: Tables, op: Op, now: Instant)
    requires DistinctUsers(t.users)
    ensures op.CreateUser? ==> Safe(t, Users.Created(t, op.account).0)
    ensures op.UpdateRole? ==> Safe(t, Users.RoleChanged(t, op.userId, op.role).0)
    ensures op.Deactivate? ==> Safe(t, Users.AccountClosed(t, op.userId, op.requestorId, now).0)
  {
    match op
    case CreateUser(n) => NewUserKeepsAdmin(t, User(n.id, n.normalized, n.role, true, None, None));
    case UpdateRole(userId, role) =>
      if Users.AdminCount(t) >= 1 {
        RoleChangeKeepsAdmin(t, userId, role);
      }
    case Deactivate(userId, requestorId) =>
      if Users.AdminCount(t) >= 1 {
        ClosingKeepsAdmin(t, userId, requestorId, now);
      }
    case _ =>
  }

  lemma SessionCallIsSafe(s: State, op: Op, time: Time)
    requires SessionCall(op)
    ensures Safe(s.tables, Step(s, op, time).0.tables)
  {
    SessionsAreSafe(s.tables, op, time.now);
    match op
    case Login(email, passwordOk, ip, agent, d) => LoginIsSafe(s, email, passwordOk, ip, agent, time, d);
    case VerifyMfa(token, proof, ip, agent, d) => MfaIsSafe(s.tables, token.userId, proof, ip, agent, time.now, d);
    case _ =>
  }

  lemma OtherCallIsSafe(s: State, op: Op, time: Time)
    requires !SessionCall(op) && DistinctUsers(s.tables.users)
    ensures Safe(s.tables, Step(s, op, time).0.tables)
  {
    var t := s.tables;
    AccountsAreSafe(t, op, time.now);
    match op
    case ConfirmTotp(userId, verified, credentialId, codes) => ConfirmIsSafe(t, userId, verified, credentialId, codes);
    case CreateAdmin(n) => FirstAdminKeeps(t, n);
    case CompleteSetup(adminId) => CompletingKeeps(t, adminId);
    case _ =>
  }

  lemma StepIsSafe(s: State, op: Op, time: Time)
    requires DistinctUsers(s.tables.users)
    ensures Safe(s.tables, Step(s, op, time).0.tables)
  {
    if SessionCall(op) {
      SessionCallIsSafe(s, op, time);
    } else {
      OtherCallIsSafe(s, op, time);
    }
  }

  lemma InsertingKeepsUsersDistinct(t: Tables, n: Users.NewUser)
    requires DistinctUsers(t.users)
    ensures DistinctUsers(Users.Created(t, n).0.users) && DistinctUsers(Setup.AdminCreated(t, n).0.users)
  {
  }

  lemma LoginKeepsUsersDistinct(s: State, email: string, passwordOk: bool, ip: string, agent: string, time: Time,
        d: Draw)
    requires DistinctUsers(s.tables.users)
    ensures DistinctUsers(LoginStep(s, email, passwordOk, ip, agent, time, d).0.tables.users)
  {
  }

  lemma CodesKeepUsersDistinct(users: seq<User>, id: string, codes: seq<BackupCodes.BackupCode>)
    requires DistinctUsers(users)
    ensures DistinctUsers(WithCodes(users, id, codes))
  {
  }

  lemma MfaKeepsUsersDistinct(t: Tables, userId: string, proof: Proof, ip: string, agent: string, now: Instant, d: Draw)
    requires DistinctUsers(t.users)
    ensures DistinctUsers(MfaLogin(t, userId, proof, ip, agent, now, d).0.users)
  {
    if proof.Backup? && Mfa.BackupCodeChecked(t, userId, proof.input, now).1.Passed? {
      var used := BackupCodes.Used(UserById(t, userId).value.codes.value, proof.input, Rfc3339(now)).value;
      CodesKeepUsersDistinct(t.users, userId, used);
    }
  }

  lemma UpdatingKeepsUsersDistinct(t: Tables, userId: string, role: string, requestorId: string, now: Instant)
    requires DistinctUsers(t.users)
    ensures DistinctUsers(Users.RoleChanged(t, userId, role).0.users)
    ensures DistinctUsers(Users.AccountClosed(t, userId, requestorId, now).0.users)
  {
  }

  lemma SessionCallKeepsUsersDistinct(s: State, op: Op, time: Time)
    requires SessionCall(op) && DistinctUsers(s.tables.users)
    ensures DistinctUsers(Step(s, op, time).0.tables.users)
  {
    match op
    case Login(email, passwordOk, ip, agent, d) => LoginKeepsUsersDistinct(s, email, passwordOk, ip, agent, time, d);
    case VerifyMfa(token, proof, ip, agent, d) =>
      MfaKeepsUsersDistinct(s.tables, token.userId, proof, ip, agent, time.now, d);
    case _ =>
  }

  lemma OtherCallKeepsUsersDistinct(s: State, op: Op, time: Time)
    requires !SessionCall(op) && DistinctUsers(s.tables.users)
    ensures DistinctUsers(Step(s, op, time).0.tables.users)
  {
    match op
    case ConfirmTotp(userId, _, _, codes) => CodesKeepUsersDistinct(s.tables.users, userId, codes);
    case CreateUser(n) => InsertingKeepsUsersDistinct(s.tables, n);
    case CreateAdmin(n) => InsertingKeepsUsersDistinct(s.tables, n);
    case UpdateRole(userId, role) => UpdatingKeepsUsersDistinct(s.tables, userId, role, "", time.now);
    case Deactivate(userId, requestorId) => UpdatingKeepsUsersDistinct(s.tables, userId, "", requestorId, time.now);
    case _ =>
  }

  lemma StepKeepsUsersDistinct(s: State, op: Op, time: Time)
    requires DistinctUsers(s.tables.users)
    ensures DistinctUsers(Step(s, op, time).0.tables.users)
  {
    if SessionCall(op) {
      SessionCallKeepsUsersDistinct(s, op, time);
    } else {
      OtherCallKeepsUsersDistinct(s, op, time);
    }
  }

  lemma StatusStep(t: Tables)
    ensures Setup.StatusOf(t).currentStep == if Setup.Completed(t) then 4 else if Users.AdminCount(t) >= 1 then 2 else 1
    ensures Setup.StatusOf(t).hasAdmin <==> Users.AdminCount(t) >= 1
  {
    FilterNonEmpty(t.users, Users.ActiveAdmin());
  }

  /** Main result: whenever setup is complete there is an active admin, after any run. */
  lemma {:induction false} CompletedHasAdmin(calls: seq<Call>)
    ensures var t := Run(START, calls).tables;
            DistinctUsers(t.users) && (Setup.Completed(t) ==> |ActiveAdminIds(t.users)| >= 1)
  {
    var t := Run(START, calls).tables;
    if calls != [] {
      var init, last := calls[..|calls| - 1], calls[|calls| - 1];
      var s := Run(START, init);
      CompletedHasAdmin(init);
      CountIsCardinality(s.tables);
      StepKeepsUsersDistinct(s, last.op, last.at);
      StepIsSafe(s, last.op, last.at);
    }
    CountIsCardinality(t);
  }

  /** Main result: the wizard never goes back a step. */
  lemma {:induction false} WizardNeverGoesBack(s: State, calls: seq<Call>)
    requires DistinctUsers(s.tables.users)
    ensures DistinctUsers(Run(s, calls).tables.users)
    ensures Setup.StatusOf(s.tables).currentStep <= Setup.StatusOf(Run(s, calls).tables).currentStep
  {
    if calls != [] {
      var init, last := calls[..|calls| - 1], calls[|calls| - 1];
      WizardNeverGoesBack(s, init);
      var s' := Run(s, init);
      StepKeepsUsersDistinct(s', last.op, last.at);
      StepIsSafe(s', last.op, last.at);
      StatusStep(s'.tables);
      StatusStep(Run(s, calls).tables);
    }
  }
}
