/** The account service: creating accounts, changing roles, deactivating, and the protection of the last admin. */
module Users {
  import opened Common
  import opened Timestamps
  import opened Database

  const MIN_PASSWORD_LEN := 12
  const VALID_ROLES := {"admin", "viewer"}

  datatype Reply =
    | Ok
    | InvalidEmail
    | PasswordTooShort
    | InvalidRole
    | EmailTaken
    | StoreFailed
    | UserNotFound
    | LastAdmin
    | CannotDeleteSelf

  /** A request to create an account; the three views of its e-mail text are computed by string functions. */
  datatype NewUser = NewUser(id: string, emailValid: bool, lowered: string, normalized: string, passwordLength: int,
      role: string)

  function ActiveAdmin(): User -> bool {
    (u: User) => u.role == "admin" && u.isActive
  }

  function AdminCount(t: Tables): nat {
    |Filter(t.users, ActiveAdmin())|
  }

  lemma OneMoreCounted(users: seq<User>, i: nat)
    requires i < |users|
    ensures |Filter(users[..i + 1], ActiveAdmin())|
         == |Filter(users[..i], ActiveAdmin())| + Bit(ActiveAdmin()(users[i]))
  {
    assert users[..i + 1][..i] == users[..i];
  }

  // ---- One call ----------------------------------------------------------------------------------------------------

  function LastAdminCheck(t: Tables, userId: string): Reply {
    match UserById(t, userId)
    case None => UserNotFound
    case Some(u) => if u.role == "admin" && AdminCount(t) <= 1 then LastAdmin else Ok
  }

  function Created(t: Tables, n: NewUser): (Tables, Reply) {
    if !n.emailValid then (t, InvalidEmail)
    else if n.passwordLength < MIN_PASSWORD_LEN then (t, PasswordTooShort)
    else if n.role !in VALID_ROLES then (t, InvalidRole)
    else if UserByEmail(t, n.lowered).Some? then (t, EmailTaken)
    else
      var u := User(n.id, n.normalized, n.role, true, None, None);
      if !Insertable(t, u) then (t, StoreFailed) else (t.(users := t.users + [u]), Ok)
  }

  function RoleChanged(t: Tables, userId: string, newRole: string): (Tables, Reply) {
    if newRole !in VALID_ROLES then (t, InvalidRole)
    else if newRole == "viewer" && LastAdminCheck(t, userId) != Ok then (t, LastAdminCheck(t, userId))
    else if UserById(t, userId).None? then (t, UserNotFound)
    else (t.(users := WithRole(t.users, userId, newRole)), Ok)
  }

  function AccountClosed(t: Tables, userId: string, requestorId: string, now: Instant): (Tables, Reply) {
    if userId == requestorId then (t, CannotDeleteSelf)
    else if LastAdminCheck(t, userId) != Ok then (t, LastAdminCheck(t, userId))
    else (t.(users := Deactivated(t.users, userId), sessions := RevokedAll(t.sessions, userId, now)), Ok)
  }

  // ---- The service --------------------------------------------------------------------------------------------------

  class Service {
    const db: DB

    constructor (db: DB)
      ensures this.db == db
    {
      this.db := db;
    }

    method CheckLastAdmin(userId: string) returns (reply: Reply)
      ensures reply == LastAdminCheck(db.tables, userId)
    {
      var user := UserById(db.tables, userId);
      if user.None? {
        return UserNotFound;
      }
      if user.value.role != "admin" {
        return Ok;
      }
      var users := db.tables.users;
      var adminCount := 0;
      for i := 0 to |users|
        invariant adminCount == |Filter(users[..i], ActiveAdmin())|
      {
        OneMoreCounted(users, i);
        if users[i].role == "admin" && users[i].isActive {
          adminCount := adminCount + 1;
        }
      }
      assert users[..|users|] == users;
      if adminCount <= 1 {
        return LastAdmin;
      }
      return Ok;
    }

    method Create(n: NewUser) returns (reply: Reply)
      modifies db
      ensures (db.tables, reply) == Created(old(db.tables), n)
    {
      if !n.emailValid {
        return InvalidEmail;
      }
      if n.passwordLength < MIN_PASSWORD_LEN {
        return PasswordTooShort;
      }
      if n.role !in VALID_ROLES {
        return InvalidRole;
      }
      var existing := UserByEmail(db.tables, n.lowered);
      if existing.Some? {
        return EmailTaken;
      }
      var row := User(n.id, n.normalized, n.role, true, None, None);
      if !Insertable(db.tables, row) {
        return StoreFailed;
      }
      db.tables := db.tables.(users := db.tables.users + [row]);
      return Ok;
    }

    method UpdateRole(userId: string, newRole: string) returns (reply: Reply)
      modifies db
      ensures (db.tables, reply) == RoleChanged(old(db.tables), userId, newRole)
    {
      if newRole !in VALID_ROLES {
        return InvalidRole;
      }
      if newRole == "viewer" {
        reply := CheckLastAdmin(userId);
        if reply != Ok {
          return;
        }
      }
      var row := UserById(db.tables, userId);
      if row.None? {
        return UserNotFound;
      }
      db.tables := db.tables.(users := WithRole(db.tables.users, userId, newRole));
      return Ok;
    }

    method Deactivate(userId: string, requestorId: string, now: Instant) returns (reply: Reply)
      modifies db
      ensures (db.tables, reply) == AccountClosed(old(db.tables), userId, requestorId, now)
    {
      if userId == requestorId {
        return CannotDeleteSelf;
      }
      reply := CheckLastAdmin(userId);
      if reply != Ok {
        return;
      }
      db.tables := db.tables.(users := Deactivated(db.tables.users, userId));
      db.tables := db.tables.(sessions := RevokedAll(db.tables.sessions, userId, now));
      return Ok;
    }
  }
}
