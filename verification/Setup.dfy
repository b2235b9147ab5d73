/** The setup wizard: the first admin account and the mark that setup is complete, kept in the config table. */
module Setup {
  import opened Common
  import opened Database
  import Users

  const SETUP_DONE := "setup.completed"
  const ADMIN_ID := "setup.admin_id"

  datatype Status = Status(isCompleted: bool, hasAdmin: bool, currentStep: int, adminId: string)
  datatype Reply = Ok | AlreadyDone | AdminExists | InvalidEmail | PasswordTooShort | StoreFailed | NoAdmin

  predicate Completed(t: Tables) {
    SETUP_DONE in t.config && t.config[SETUP_DONE] == "true"
  }

  /** The config row names its author, who must exist; a write that is refused goes unnoticed. */
  function ConfigSet(t: Tables, key: string, value: string, updatedBy: string): Tables {
    if updatedBy == "" || HasUser(t, updatedBy) then t.(config := t.config[key := value]) else t
  }

  function AnyAdmin(): User -> bool {
    (u: User) => u.role == "admin"
  }

  /** Accounts are listed newest first, so it is the newest active admin that is named. */
  function StatusOf(t: Tables): Status {
    match Last(t.users, Users.ActiveAdmin())
    case None => Status(Completed(t), false, if Completed(t) then 4 else 1, "")
    case Some(i) => Status(Completed(t), true, if Completed(t) then 4 else 2, t.users[i].id)
  }

  function AdminCreated(t: Tables, n: Users.NewUser): (Tables, Reply) {
    if Completed(t) then (t, AlreadyDone)
    else if First(t.users, AnyAdmin()).Some? then (t, AdminExists)
    else if !n.emailValid then (t, InvalidEmail)
    else if n.passwordLength < Users.MIN_PASSWORD_LEN then (t, PasswordTooShort)
    else
      var u := User(n.id, n.normalized, "admin", true, None, None);
      if !Insertable(t, u) then (t, StoreFailed)
      else (ConfigSet(t.(users := t.users + [u]), ADMIN_ID, n.id, n.id), Ok)
  }

  function SetupCompleted(t: Tables, adminId: string): (Tables, Reply) {
    if Completed(t) then (t, AlreadyDone)
    else if !StatusOf(t).hasAdmin then (t, NoAdmin)
    else (ConfigSet(t, SETUP_DONE, "true", adminId), Ok)
  }

  class Service {
    const db: DB

    constructor (db: DB)
      ensures this.db == db
    {
      this.db := db;
    }

    method IsCompleted() returns (done: bool)
      ensures done == Completed(db.tables)
    {
      done := SETUP_DONE in db.tables.config && db.tables.config[SETUP_DONE] == "true";
    }

    method GetStatus() returns (status: Status)
      ensures status == StatusOf(db.tables)
    {
      status := Status(false, false, 1, "");
      if SETUP_DONE in db.tables.config && db.tables.config[SETUP_DONE] == "true" {
        status := status.(isCompleted := true, currentStep := 4);
      }
      var users := db.tables.users;
      for i := |users| downto 0
        invariant status == Status(Completed(db.tables), false, if Completed(db.tables) then 4 else 1, "")
        invariant forall j :: i <= j < |users| ==> !Users.ActiveAdmin()(users[j])
      {
        var u := users[i];
        if u.role == "admin" && u.isActive {
          assert Users.ActiveAdmin()(u);
          status := status.(hasAdmin := true, adminId := u.id);
          if status.currentStep < 2 {
            status := status.(currentStep := 2);
          }
          return;
        }
      }
    }

    method SetConfig(key: string, value: string, updatedBy: string)
      modifies db
      ensures db.tables == ConfigSet(old(db.tables), key, value, updatedBy)
    {
      if updatedBy == "" || HasUser(db.tables, updatedBy) {
        db.tables := db.tables.(config := db.tables.config[key := value]);
      }
    }

    method CreateAdmin(n: Users.NewUser) returns (reply: Reply)
      modifies db
      ensures (db.tables, reply) == AdminCreated(old(db.tables), n)
    {
      var done := IsCompleted();
      if done {
        return AlreadyDone;
      }
      var users := db.tables.users;
      for i := 0 to |users|
        invariant db.tables == old(db.tables)
        invariant forall j :: 0 <= j < i ==> !AnyAdmin()(users[j])
      {
        if users[i].role == "admin" {
          FirstSome(users, AnyAdmin(), i);
          return AdminExists;
        }
      }
      FirstNone(users, AnyAdmin());
      if !n.emailValid {
        return InvalidEmail;
      }
      if n.passwordLength < Users.MIN_PASSWORD_LEN {
        return PasswordTooShort;
      }
      var row := User(n.id, n.normalized, "admin", true, None, None);
      if !Insertable(db.tables, row) {
        return StoreFailed;
      }
      db.tables := db.tables.(users := db.tables.users + [row]);
      SetConfig(ADMIN_ID, n.id, n.id);
      return Ok;
    }

    method Complete(adminId: string) returns (reply: Reply)
      modifies db
      ensures (db.tables, reply) == SetupCompleted(old(db.tables), adminId)
    {
      var done := IsCompleted();
      if done {
        return AlreadyDone;
      }
      var status := GetStatus();
      if !status.hasAdmin {
        return NoAdmin;
      }
      SetConfig(SETUP_DONE, "true", adminId);
      return Ok;
    }
  }

  // ---- A reply of success is not always one -------------------------------------------------------------------------

  /** Completing reports success on an account it cannot find, and then setup is not complete. */
  lemma CompleteTakesEffect(t: Tables, adminId: string)
    requires SetupCompleted(t, adminId).1 == Ok
    ensures Completed(SetupCompleted(t, adminId).0) <==> adminId == "" || HasUser(t, adminId)
    ensures !Completed(SetupCompleted(t, adminId).0) ==> SetupCompleted(t, adminId).0 == t
  {
  }

  lemma CompleteCanMiss()
    ensures var t := NO_TABLES.(users := [User("a1", "a@example.com", "admin", true, None, None)]);
            SetupCompleted(t, "fake-id").1 == Ok && !Completed(SetupCompleted(t, "fake-id").0)
  {
    var t := NO_TABLES.(users := [User("a1", "a@example.com", "admin", true, None, None)]);
    assert Users.ActiveAdmin()(t.users[0]);
  }
}
