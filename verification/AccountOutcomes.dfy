/** When the calls on accounts and setup succeed, and what a success means for the accounts and the wizard. */
module AccountOutcomes {
  import opened Common
  import opened Timestamps
  import opened Database
  import opened Identity
  import opened AdminSafety
  import Setup
  import Users

  /** The account is active and has this role and e-mail address. */
  ghost predicate HasRole(t: Tables, id: string, role: string) {
    exists u :: u in t.users && u.id == id && u.isActive && u.role == role
  }

  ghost predicate IsAdmin(t: Tables, id: string) {
    HasRole(t, id, "admin")
  }

  lemma AdminsAreIds(t: Tables, id: string)
    ensures IsAdmin(t, id) <==> id in ActiveAdminIds(t.users)
  {
  }

  lemma RowIsUserById(t: Tables, id: string, role: string)
    requires DistinctUsers(t.users)
    ensures HasRole(t, id, role) <==> UserById(t, id).Some? && UserById(t, id).value.role == role
  {
    if UserById(t, id).Some? {
      var i := First(t.users, ActiveWithId(id)).value;
      assert t.users[i] in t.users;
      assert forall u :: u in t.users && u.id == id ==> u == t.users[i];
    }
  }

  // ---- Creating ----------------------------------------------------------------------------------------------------

  /** A new account has the role it was created with, and nobody else's role changes. */
  lemma CreatedHasRole(t: Tables, n: Users.NewUser)
    requires Users.Created(t, n).1 == Users.Ok
    ensures var t' := Users.Created(t, n).0;
            && HasRole(t', n.id, n.role) && !HasUser(t, n.id)
            && ActiveAdminIds(t'.users) == ActiveAdminIds(t.users) + (if n.role == "admin" then {n.id} else {})
            && UserByEmail(t', n.normalized).Some? && UserByEmail(t', n.normalized).value.id == n.id
  {
    var t', u := Users.Created(t, n).0, User(n.id, n.normalized, n.role, true, None, None);
    IdsSnoc(t.users, u);
    assert t'.users[|t.users|] == u;
    FirstSome(t'.users, ActiveWithEmail(n.normalized), |t.users|);
  }

  /** Creating succeeds iff the request is well formed and its identifier and e-mail address are free. */
  lemma CreateSucceedsIff(t: Tables, n: Users.NewUser)
    ensures Users.Created(t, n).1 == Users.Ok
            <==> n.emailValid && n.passwordLength >= 12 && n.role in {"admin", "viewer"}
                 && (forall u :: u in t.users && u.isActive ==> u.email != n.lowered)
                 && forall u :: u in t.users ==> u.id != n.id && u.email != n.normalized
  {
    if forall u :: u in t.users && u.isActive ==> u.email != n.lowered {
      FirstNone(t.users, ActiveWithEmail(n.lowered));
    }
  }

  // ---- Changing roles, closing -------------------------------------------------------------------------------------

  /** There is another active admin. */
  ghost predicate AnotherAdmin(t: Tables, id: string) {
    exists other :: other != id && IsAdmin(t, other)
  }

  lemma TwoAdmins(t: Tables, id: string)
    requires DistinctUsers(t.users) && IsAdmin(t, id)
    ensures Users.AdminCount(t) >= 2 <==> AnotherAdmin(t, id)
  {
    var ids := ActiveAdminIds(t.users);
    CountIsCardinality(t);
    AdminsAreIds(t, id);
    if AnotherAdmin(t, id) {
      var other :| other != id && IsAdmin(t, other);
      AdminsAreIds(t, other);
      assert ids == (ids - {id, other}) + {id, other};
    } else {
      forall x | x in ids ensures x == id {
        AdminsAreIds(t, x);
      }
      assert ids == {id};
    }
  }

  /** The last-admin check lets an active account pass that is no admin, or not the only one. */
  lemma CheckPassesIff(t: Tables, id: string)
    requires DistinctUsers(t.users)
    ensures Users.LastAdminCheck(t, id) == Users.Ok
            <==> IsActive(t, id) && (IsAdmin(t, id) ==> AnotherAdmin(t, id))
  {
    IsActiveMeansFound(t, id);
    RowIsUserById(t, id, "admin");
    if IsAdmin(t, id) {
      TwoAdmins(t, id);
    }
  }

  /** Closing succeeds iff the account is somebody else's, active, and not the last admin; and then it is closed. */
  lemma DeactivateSucceedsIff(t: Tables, id: string, requestor: string, now: Instant)
    requires DistinctUsers(t.users)
    ensures Users.AccountClosed(t, id, requestor, now).1 == Users.Ok
            <==> id != requestor && IsActive(t, id) && (IsAdmin(t, id) ==> AnotherAdmin(t, id))
    ensures Users.AccountClosed(t, id, requestor, now).1 == Users.Ok ==>
              var t' := Users.AccountClosed(t, id, requestor, now).0;
              && !IsActive(t', id) && HasUser(t', id)
              && ActiveAdminIds(t'.users) == ActiveAdminIds(t.users) - {id}
              && forall i :: 0 <= i < |t.sessions| && t.sessions[i].userId == id && t.sessions[i].revokedAt.None? ==>
                   i < |t'.sessions| && t'.sessions[i] == t.sessions[i].(revokedAt := Some(now))
  {
    CheckPassesIff(t, id);
    if Users.AccountClosed(t, id, requestor, now).1 == Users.Ok {
      ClosingTakesOut(t, id);
    }
  }

  lemma ClosingTakesOut(t: Tables, id: string)
    requires IsActive(t, id)
    ensures var users := Deactivated(t.users, id);
            && (exists i :: 0 <= i < |users| && users[i].id == id)
            && (forall i :: 0 <= i < |users| ==> !ActiveWithId(id)(users[i]))
            && ActiveAdminIds(users) == ActiveAdminIds(t.users) - {id}
  {
    var users := Deactivated(t.users, id);
    var k :| 0 <= k < |t.users| && ActiveWithId(id)(t.users[k]);
    assert users[k].id == id;
    forall x ensures x in ActiveAdminIds(users) <==> x in ActiveAdminIds(t.users) && x != id {
      SameAdminOutside(t.users, users, id, x);
    }
  }

  lemma SameAdminOutside(a: seq<User>, b: seq<User>, id: string, x: string)
    requires b == Deactivated(a, id)
    ensures x in ActiveAdminIds(b) <==> x in ActiveAdminIds(a) && x != id
  {
    if x in ActiveAdminIds(a) && x != id {
      var i :| 0 <= i < |a| && a[i].id == x && Users.ActiveAdmin()(a[i]);
      assert b[i] == a[i] && b[i] in b;
    }
    if x in ActiveAdminIds(b) {
      var i :| 0 <= i < |b| && b[i].id == x && Users.ActiveAdmin()(b[i]);
      assert a[i] == b[i] && a[i] in a;
    }
  }

  /** A role change succeeds iff the role exists, the account is active, and it is not the last admin's demotion. */
  lemma RoleChangeSucceedsIff(t: Tables, id: string, role: string)
    requires DistinctUsers(t.users)
    ensures Users.RoleChanged(t, id, role).1 == Users.Ok
            <==> role in {"admin", "viewer"} && IsActive(t, id)
                 && (role == "viewer" && IsAdmin(t, id) ==> AnotherAdmin(t, id))
    ensures Users.RoleChanged(t, id, role).1 == Users.Ok ==>
              var t' := Users.RoleChanged(t, id, role).0;
              HasRole(t', id, role) && forall x, r :: x != id ==> (HasRole(t', x, r) <==> HasRole(t, x, r))
  {
    CheckPassesIff(t, id);
    IsActiveMeansFound(t, id);
    if Users.RoleChanged(t, id, role).1 == Users.Ok {
      var users := WithRole(t.users, id, role);
      var k := First(t.users, ActiveWithId(id)).value;
      assert users[k] in users;
      forall x, r | x != id ensures HasRole(t.(users := users), x, r) <==> HasRole(t, x, r) {
        SameRoleOutside(t, id, role, x, r);
      }
    }
  }

  lemma SameRoleOutside(t: Tables, id: string, role: string, x: string, r: string)
    requires x != id
    ensures HasRole(t.(users := WithRole(t.users, id, role)), x, r) <==> HasRole(t, x, r)
  {
    var users := WithRole(t.users, id, role);
    if HasRole(t, x, r) {
      var i :| 0 <= i < |t.users| && t.users[i].id == x && t.users[i].isActive && t.users[i].role == r;
      assert users[i] in users;
    }
    if HasRole(t.(users := users), x, r) {
      var i :| 0 <= i < |users| && users[i].id == x && users[i].isActive && users[i].role == r;
      assert t.users[i] in t.users;
    }
  }

  // ---- Setup -------------------------------------------------------------------------------------------------------

  /** The first admin can be created iff setup is not complete, no row is an admin's, and the request is well formed. */
  lemma CreateAdminSucceedsIff(t: Tables, n: Users.NewUser)
    ensures Setup.AdminCreated(t, n).1 == Setup.Ok
            <==> !Setup.Completed(t) && (forall u :: u in t.users ==> u.role != "admin")
                 && n.emailValid && n.passwordLength >= 12
                 && forall u :: u in t.users ==> u.id != n.id && u.email != n.normalized
  {
    if forall u :: u in t.users ==> u.role != "admin" {
      FirstNone(t.users, Setup.AnyAdmin());
    }
  }

  /**
   Main result: setup can be carried out. A first admin that was created is the one and only admin, the wizard says so
   and is at step 2, and completing with that account succeeds and leaves setup completed, at step 4.
   */
  lemma SetupCanBeFinished(t: Tables, n: Users.NewUser)
    requires Setup.AdminCreated(t, n).1 == Setup.Ok
    ensures var t1 := Setup.AdminCreated(t, n).0;
            && IsAdmin(t1, n.id) && ActiveAdminIds(t.users) == {} && ActiveAdminIds(t1.users) == {n.id}
            && Setup.StatusOf(t1) == Setup.Status(false, true, 2, n.id)
            && "setup.admin_id" in t1.config && t1.config["setup.admin_id"] == n.id
            && var (t2, reply) := Setup.SetupCompleted(t1, n.id);
               && reply == Setup.Ok && Setup.StatusOf(t2) == Setup.Status(true, true, 4, n.id)
               && "setup.completed" in t2.config && t2.config["setup.completed"] == "true"
  {
    var t1, u := Setup.AdminCreated(t, n).0, User(n.id, n.normalized, "admin", true, None, None);
    assert forall x :: x in t.users ==> x.role != "admin";
    IdsSnoc(t.users, u);
    assert t1.users == t.users + [u] && t1.users[|t.users|] == u;
    assert Users.ActiveAdmin()(u);
    assert Setup.ADMIN_ID[6] != Setup.SETUP_DONE[6];
  }
}
