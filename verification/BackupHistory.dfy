/** Backup codes over runs of all services: how many sessions a list of codes can buy. */
module BackupHistory {
  import opened Common
  import opened Timestamps
  import opened Database
  import opened Auth
  import opened BackupCodes
  import opened Identity
  import Mfa
  import Setup
  import Users

  function WithId(id: string): User -> bool {
    (u: User) => u.id == id
  }

  /** The list stored with an account, active or not. */
  function CodesOf(users: seq<User>, id: string): Option<seq<BackupCode>> {
    match First(users, WithId(id))
    case None => None
    case Some(i) => users[i].codes
  }

  /** The call issued the account a list of codes. */
  predicate Issues(s: State, call: Call, id: string) {
    call.op.ConfirmTotp? && call.op.userId == id
    && Mfa.TotpConfirmed(s.tables, id, call.op.verified, call.op.credentialId, call.op.codes).1.Issued?
  }

  /** The call got the account a session for a backup code. */
  predicate BuysSession(s: State, call: Call, id: string) {
    call.op.VerifyMfa? && call.op.token.userId == id && call.op.proof.Backup?
    && MfaStep(s, call.op.token, call.op.proof, call.op.ip, call.op.agent, call.at.now, call.op.draw).1.SessionIssued?
  }

  /** The sessions an account got for backup codes since it was last issued a list, `keys` restricting the codes. */
  function SessionsByCode(calls: seq<Call>, id: string, keys: string -> bool): nat {
    if calls == [] then 0
    else
      var init, last := calls[..|calls| - 1], calls[|calls| - 1];
      if Issues(Run(START, init), last, id) then 0
      else SessionsByCode(init, id, keys)
           + Bit(BuysSession(Run(START, init), last, id) && keys(KeyOf(last.op.proof.input)))
  }

  function AnyKey(): string -> bool {
    (key: string) => true
  }

  function ThisKey(key: string): string -> bool {
    (k: string) => k == key
  }

  /** Every issued list is one that GenerateBackupCodes can return. */
  ghost predicate Genuine(calls: seq<Call>) {
    forall c :: c in calls && c.op.ConfirmTotp? ==> IsFreshList(c.op.codes)
  }

  ghost predicate IsFreshList(codes: seq<BackupCode>) {
    exists random :: FreshCodes(codes, random)
  }

  // ---- What one call does to a stored list -------------------------------------------------------------------------

  ghost predicate SameCodes(a: seq<User>, b: seq<User>) {
    forall id :: CodesOf(a, id) == CodesOf(b, id)
  }

  lemma UpdatedSameCodes(a: seq<User>, b: seq<User>)
    requires |a| == |b| && forall i :: 0 <= i < |a| ==> a[i].id == b[i].id && a[i].codes == b[i].codes
    ensures SameCodes(a, b)
  {
    forall id ensures CodesOf(a, id) == CodesOf(b, id) {
      match First(a, WithId(id))
      case None => FirstNone(b, WithId(id));
      case Some(i) => FirstSome(b, WithId(id), i);
    }
  }

  lemma AddedSameCodes(users: seq<User>, u: User)
    requires u.codes.None?
    ensures SameCodes(users, users + [u])
  {
    forall id ensures CodesOf(users, id) == CodesOf(users + [u], id) {
      match First(users, WithId(id))
      case Some(i) => FirstSome(users + [u], WithId(id), i);
      case None =>
        if u.id == id {
          FirstSome(users + [u], WithId(id), |users|);
        } else {
          FirstNone(users + [u], WithId(id));
        }
    }
  }

  lemma StoredCodes(users: seq<User>, owner: string, codes: seq<BackupCode>, id: string)
    requires exists i :: 0 <= i < |users| && users[i].id == owner
    ensures CodesOf(WithCodes(users, owner, codes), id) == if id == owner then Some(codes) else CodesOf(users, id)
  {
    match First(users, WithId(id))
    case None => FirstNone(WithCodes(users, owner, codes), WithId(id));
    case Some(i) => FirstSome(WithCodes(users, owner, codes), WithId(id), i);
  }

  lemma ActiveRowHasCodes(t: Tables, id: string)
    requires DistinctUsers(t.users) && UserById(t, id).Some?
    ensures CodesOf(t.users, id) == UserById(t, id).value.codes
  {
    FirstSome(t.users, WithId(id), First(t.users, ActiveWithId(id)).value);
  }

  /** What a backup code that is presented with a valid token does to the lists. */
  lemma CheckedCodes(t: Tables, userId: string, input: string, now: Instant, id: string)
    requires DistinctUsers(t.users)
    ensures var (t', checked) := Mfa.BackupCodeChecked(t, userId, input, now);
            if checked.Passed? && userId == id
            then CodesOf(t.users, id).Some? &&
              CodesOf(t'.users, id) == Used(CodesOf(t.users, id).value, input, Rfc3339(now))
                 && CodesOf(t'.users, id).Some?
            else CodesOf(t'.users, id) == CodesOf(t.users, id)
  {
    if UserById(t, userId).Some? && UserById(t, userId).value.codes.Some? {
      ActiveRowHasCodes(t, userId);
      var used := Used(UserById(t, userId).value.codes.value, input, Rfc3339(now));
      if used.Some? {
        StoredCodes(t.users, userId, used.value, id);
      }
    }
  }

  /** An accepted backup code always gets its session. */
  lemma PassedIsIssued(t: Tables, userId: string, input: string, ip: string, agent: string, now: Instant, d: Draw)
    requires Inv(t) && forall i :: 0 <= i < |t.sessions| ==> t.sessions[i].id != d.id
    ensures MfaLogin(t, userId, Backup(input), ip, agent, now, d).1.SessionIssued?
            <==> Mfa.BackupCodeChecked(t, userId, input, now).1.Passed?
    ensures MfaLogin(t, userId, Backup(input), ip, agent, now, d).0.users
      == Mfa.BackupCodeChecked(t, userId, input, now).0.users
  {
    if Mfa.BackupCodeChecked(t, userId, input, now).1.Passed? {
      IsActiveMeansFound(t, userId);
      var used := Used(UserById(t, userId).value.codes.value, input, Rfc3339(now)).value;
      CodesKeepInv(t, userId, used);
    }
  }

  /** How a list changes: it is replaced by an issue, and a session bought with a code spends it. */
  ghost predicate ListStep(s: State, call: Call, id: string, a: Option<seq<BackupCode>>, b: Option<seq<BackupCode>>) {
    if Issues(s, call, id) then b == Some(call.op.codes)
    else if BuysSession(s, call, id) then a.Some? && b.Some? &&
      b == Used(a.value, call.op.proof.input, Rfc3339(call.at.now))
    else a == b
  }

  lemma MfaLists(s: State, call: Call, id: string)
    requires Inv(s.tables) && FreshDraw(s.tables, call.op) && call.op.VerifyMfa?
    ensures ListStep(s, call, id, CodesOf(s.tables.users, id), CodesOf(Step(s, call.op, call.at).0.tables.users, id))
  {
    var op := call.op;
    if op.proof.Backup? {
      CheckedCodes(s.tables, op.token.userId, op.proof.input, call.at.now, id);
      PassedIsIssued(s.tables, op.token.userId, op.proof.input, op.ip, op.agent, call.at.now, op.draw);
    }
  }

  lemma ConfirmLists(s: State, call: Call, id: string)
    requires call.op.ConfirmTotp?
    ensures ListStep(s, call, id, CodesOf(s.tables.users, id), CodesOf(Step(s, call.op, call.at).0.tables.users, id))
  {
    if HasUser(s.tables, call.op.userId) {
      StoredCodes(s.tables.users, call.op.userId, call.op.codes, id);
    }
  }

  lemma LoginLists(s: State, email: string, passwordOk: bool, ip: string, agent: string, time: Time, d: Draw)
    ensures SameCodes(s.tables.users, LoginStep(s, email, passwordOk, ip, agent, time, d).0.tables.users)
  {
    hide CodesOf;
    if UserByEmail(s.tables, email).Some? {
      var id := UserByEmail(s.tables, email).value.id;
      UpdatedSameCodes(s.tables.users, WithLastLogin(s.tables.users, id, time.now));
    }
  }

  lemma AccountLists(t: Tables, userId: string, role: string, requestorId: string, now: Instant)
    ensures SameCodes(t.users, Users.RoleChanged(t, userId, role).0.users)
    ensures SameCodes(t.users, Users.AccountClosed(t, userId, requestorId, now).0.users)
  {
    UpdatedSameCodes(t.users, WithRole(t.users, userId, role));
    UpdatedSameCodes(t.users, Deactivated(t.users, userId));
  }

  lemma CreatedLists(t: Tables, n: Users.NewUser)
    ensures SameCodes(t.users, Users.Created(t, n).0.users)
  {
    hide CodesOf;
    AddedSameCodes(t.users, User(n.id, n.normalized, n.role, true, None, None));
  }

  lemma AdminCreatedLists(t: Tables, n: Users.NewUser)
    ensures SameCodes(t.users, Setup.AdminCreated(t, n).0.users)
  {
    hide CodesOf;
    AddedSameCodes(t.users, User(n.id, n.normalized, "admin", true, None, None));
  }

  lemma OtherLists(s: State, op: Op, time: Time)
    requires !op.VerifyMfa? && !op.ConfirmTotp?
    ensures SameCodes(s.tables.users, Step(s, op, time).0.tables.users)
  {
    hide CodesOf, LoginStep, Users.RoleChanged, Users.AccountClosed, Users.Created, Setup.AdminCreated;
    match op
    case Login(email, passwordOk, ip, agent, d) => LoginLists(s, email, passwordOk, ip, agent, time, d);
    case CreateUser(n) => CreatedLists(s.tables, n);
    case CreateAdmin(n) => AdminCreatedLists(s.tables, n);
    case UpdateRole(userId, role) => AccountLists(s.tables, userId, role, "", time.now);
    case Deactivate(userId, requestorId) => AccountLists(s.tables, userId, "", requestorId, time.now);
    case _ =>
  }

  lemma StepLists(s: State, call: Call, id: string)
    requires Inv(s.tables) && FreshDraw(s.tables, call.op)
    ensures ListStep(s, call, id, CodesOf(s.tables.users, id), CodesOf(Step(s, call.op, call.at).0.tables.users, id))
  {
    hide Step, MfaStep, CodesOf;
    if call.op.VerifyMfa? {
      MfaLists(s, call, id);
    } else if call.op.ConfirmTotp? {
      ConfirmLists(s, call, id);
    } else {
      OtherLists(s, call.op, call.at);
    }
  }

  // ---- Conservation ------------------------------------------------------------------------------------------------

  /** Without a list no session was bought; of a list, what was bought and what is unused make up the whole. */
  ghost predicate Accounted(list: Option<seq<BackupCode>>, key: string, all: int, some: int) {
    match list
    case None => all == some == 0
    case Some(codes) => Conserved(codes, key, all, some)
  }

  lemma StepAccounted(s: State, call: Call, id: string, key: string, list: Option<seq<BackupCode>>,
                      list': Option<seq<BackupCode>>, all: int, some: int)
    requires Accounted(list, key, all, some) && ListStep(s, call, id, list, list')
    requires call.op.ConfirmTotp? ==> IsFreshList(call.op.codes)
    ensures if Issues(s, call, id) then Accounted(list', key, 0, 0)
            else if BuysSession(s, call, id)
            then Accounted(list', key, all + 1, some + Bit(key == KeyOf(call.op.proof.input)))
            else Accounted(list', key, all, some)
  {
    hide MfaStep, Conserved;
    if Issues(s, call, id) {
      var random :| FreshCodes(call.op.codes, random);
      IssueConserves(call.op.codes, key, random);
    } else if BuysSession(s, call, id) {
      UseConserves(list.value, call.op.proof.input, Rfc3339(call.at.now), key, all, some);
    }
  }

  /**
   Main result: in every run, of the eight codes last issued to an account as many have bought a session as are
   not unused any more; and for each single code the same, with the number of times it was issued.
   */
  lemma {:induction false} CodesAreConserved(calls: seq<Call>, id: string, key: string)
    requires FreshDraws(START, calls) && Genuine(calls)
    ensures Accounted(CodesOf(Run(START, calls).tables.users, id), key,
                      SessionsByCode(calls, id, AnyKey()), SessionsByCode(calls, id, ThisKey(key)))
  {
    hide Step, Issues, BuysSession, CodesOf, Accounted, Inv, ListStep;
    if calls == [] {
      NothingYet(id, key);
    } else {
      var init, last := calls[..|calls| - 1], calls[|calls| - 1];
      var s := Run(START, init);
      FreshDrawsInit(START, calls);
      assert last in calls && Genuine(init);
      CodesAreConserved(init, id, key);
      SessionsAreOwned(init);
      StepLists(s, last, id);
      StepAccounted(s, last, id, key, CodesOf(s.tables.users, id), CodesOf(Run(START, calls).tables.users, id),
                    SessionsByCode(init, id, AnyKey()), SessionsByCode(init, id, ThisKey(key)));
    }
  }

  lemma NothingYet(id: string, key: string)
    ensures Accounted(CodesOf(START.tables.users, id), key, 0, 0)
  {
  }

  /** A list buys at most eight sessions, and a code at most as many as it is times on the list. */
  lemma AtMostEight(calls: seq<Call>, id: string, key: string)
    requires FreshDraws(START, calls) && Genuine(calls)
    ensures SessionsByCode(calls, id, AnyKey()) <= 8
    ensures var list := CodesOf(Run(START, calls).tables.users, id);
            SessionsByCode(calls, id, ThisKey(key)) <= if list.Some? then |Filter(list.value, WithKey(key))| else 0
  {
    hide Step, SessionsByCode;
    CodesAreConserved(calls, id, key);
  }
}
