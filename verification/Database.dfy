/** The tables behind accounts, logins and setup, and the queries the services run on them. */
module Database {
  import opened Common
  import opened Timestamps
  import BackupCodes

  datatype User = User(id: string, email: string, role: string, isActive: bool, lastLogin: Option<Instant>,
                       codes: Option<seq<BackupCodes.BackupCode>>)
  /** `expiresAt` stands for the column's RFC 3339 text, which Refresh parses and one filter compares as text. */
  datatype Session = Session(id: string, userId: string, accessHash: string, refreshHash: string, ipAddress: string,
                             userAgent: string, expiresAt: Instant, revokedAt: Option<Instant>)
  datatype Credential = Credential(id: string, userId: string, kind: string, isActive: bool)
  datatype Tables = Tables(users: seq<User>, sessions: seq<Session>, credentials: seq<Credential>,
                           config: map<string, string>)

  const NO_TABLES := Tables([], [], [], map[])

  // ---- SELECT ----------------------------------------------------------------------------------------------------

  function ActiveWithId(id: string): User -> bool {
    (u: User) => u.id == id && u.isActive
  }

  function ActiveWithEmail(email: string): User -> bool {
    (u: User) => u.email == email && u.isActive
  }

  function UserById(t: Tables, id: string): Option<User> {
    match First(t.users, ActiveWithId(id))
    case None => None
    case Some(i) => Some(t.users[i])
  }

  function UserByEmail(t: Tables, email: string): Option<User> {
    match First(t.users, ActiveWithEmail(email))
    case None => None
    case Some(i) => Some(t.users[i])
  }

  function OpenWithRefreshHash(hash: string): Session -> bool {
    (s: Session) => s.refreshHash == hash && s.revokedAt.None?
  }

  function OpenWithAccessHash(hash: string): Session -> bool {
    (s: Session) => s.accessHash == hash && s.revokedAt.None?
  }

  function SessionByRefreshHash(t: Tables, hash: string): Option<Session> {
    match First(t.sessions, OpenWithRefreshHash(hash))
    case None => None
    case Some(i) => Some(t.sessions[i])
  }

  function SessionByAccessHash(t: Tables, hash: string): Option<Session> {
    match First(t.sessions, OpenWithAccessHash(hash))
    case None => None
    case Some(i) => Some(t.sessions[i])
  }

  function ListedFor(userId: string, now: Instant): Session -> bool {
    (s: Session) => s.userId == userId && s.revokedAt.None? && Unexpired(Rfc3339(s.expiresAt), now)
  }

  /** The sessions a user is shown, and may end. */
  function ActiveSessions(t: Tables, userId: string, now: Instant): seq<Session> {
    Filter(t.sessions, ListedFor(userId, now))
  }

  function CredentialsOf(t: Tables, userId: string): seq<Credential> {
    Filter(t.credentials, (c: Credential) => c.userId == userId && c.isActive)
  }

  predicate HasUser(t: Tables, id: string) {
    exists i :: 0 <= i < |t.users| && t.users[i].id == id
  }

  // ---- INSERT and UPDATE --------------------------------------------------------------------------------------------

  /** The primary key and the unique e-mail address, which inactive accounts keep. */
  predicate Insertable(t: Tables, u: User) {
    forall i :: 0 <= i < |t.users| ==> t.users[i].id != u.id && t.users[i].email != u.email
  }

  function WithLastLogin(users: seq<User>, id: string, now: Instant): (r: seq<User>)
    ensures |r| == |users|
  {
    seq(|users|, i requires 0 <= i < |users| =>
      if users[i].id == id then users[i].(lastLogin := Some(now)) else users[i])
  }

  function Deactivated(users: seq<User>, id: string): (r: seq<User>)
    ensures |r| == |users|
  {
    seq(|users|, i requires 0 <= i < |users| => if users[i].id == id then users[i].(isActive := false) else users[i])
  }

  function WithRole(users: seq<User>, id: string, role: string): (r: seq<User>)
    ensures |r| == |users|
  {
    seq(|users|, i requires 0 <= i < |users| =>
      if users[i].id == id && users[i].isActive then users[i].(role := role) else users[i])
  }

  function WithCodes(users: seq<User>, id: string, codes: seq<BackupCodes.BackupCode>): (r: seq<User>)
    ensures |r| == |users|
  {
    seq(|users|, i requires 0 <= i < |users| => if users[i].id == id then users[i].(codes := Some(codes)) else users[i])
  }

  /** UPDATE … SET revoked_at = … WHERE id = ?, without a guard on rows that already have one. */
  function Revoked(sessions: seq<Session>, id: string, now: Instant): (r: seq<Session>)
    ensures |r| == |sessions|
  {
    seq(|sessions|, i requires 0 <= i < |sessions| =>
      if sessions[i].id == id then sessions[i].(revokedAt := Some(now)) else sessions[i])
  }

  function RevokedAll(sessions: seq<Session>, userId: string, now: Instant): (r: seq<Session>)
    ensures |r| == |sessions|
  {
    seq(|sessions|, i requires 0 <= i < |sessions| =>
      if sessions[i].userId == userId && sessions[i].revokedAt.None? then sessions[i].(revokedAt := Some(now))
        else sessions[i])
  }

  function CredentialRemoved(credentials: seq<Credential>, id: string, userId: string): (r: seq<Credential>)
    ensures |r| == |credentials|
  {
    seq(|credentials|, i requires 0 <= i < |credentials| =>
      if credentials[i].id == id && credentials[i].userId == userId then credentials[i].(isActive := false)
        else credentials[i])
  }

  /** The open database, shared by the services. */
  class DB {
    var tables: Tables

    constructor ()
      ensures tables == NO_TABLES
    {
      tables := NO_TABLES;
    }
  }
}
