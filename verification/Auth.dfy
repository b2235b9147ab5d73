/**
 Logins and sessions. The outcome of the password check is an input; identifiers and token hashes of a new
 session are drawn by the caller of the model. Each call reads the clock once.
 */
module Auth {
  import opened Common
  import opened Timestamps
  import opened Database
  import Mfa
  import RateLimiter

  /** The identifiers of a session about to be created. */
  datatype Draw = Draw(id: string, accessHash: string, refreshHash: string, expiresAt: Instant)

  /** The signed token between the two steps of a login. Its holder is whoever was given it. */
  datatype PendingToken = PendingToken(userId: string, issuedAt: Clock)

  datatype AuthReply =
    | RateLimited
    | InvalidCredentials
    | MfaRequired(token: PendingToken)
    | SessionIssued(session: Session)
    | StoreFailed
    | SessionNotFound
    | UserMissing
    | MissingFields
    | InvalidToken
    | Refused(reason: Mfa.Reply)
    | Done

  /** `ticks` is the instant as the limiter's monotonic clock counts it. */
  datatype Time = Time(now: Clock, ticks: int)

  /** The credentials an authenticator code is valid for, or the text typed as a backup code. */
  datatype Proof = Totp(validFor: set<string>) | Backup(input: string)

  /** `pending` holds every token ever issued; a token is a secret, so no other passes for one. */
  datatype State = State(tables: Tables, limiter: RateLimiter.Entries, pending: set<PendingToken>)

  const MFA_TOKEN_MINUTES := 5

  // ---- One call -----------------------------------------------------------------------------------------------------

  function NewSession(userId: string, ip: string, agent: string, d: Draw): Session {
    Session(d.id, userId, d.accessHash, d.refreshHash, ip, agent, d.expiresAt, None)
  }

  /** The primary key of the sessions table, and its reference to an account. */
  predicate CanStore(t: Tables, s: Session) {
    HasUser(t, s.userId) && forall i :: 0 <= i < |t.sessions| ==> t.sessions[i].id != s.id
  }

  function SessionCreated(t: Tables, s: Session): (Tables, AuthReply) {
    if CanStore(t, s) then (t.(sessions := t.sessions + [s]), SessionIssued(s)) else (t, StoreFailed)
  }

  function VerdictOf(t: Tables, email: string, passwordOk: bool): RateLimiter.Verdict {
    if UserByEmail(t, email).Some? && passwordOk then RateLimiter.Accepted else RateLimiter.Rejected
  }

  function LoggedIn(t: Tables, email: string, ip: string, agent: string, now: Clock, d: Draw): (Tables, AuthReply)
    requires UserByEmail(t, email).Some?
  {
    var u := UserByEmail(t, email).value;
    var t' := t.(users := WithLastLogin(t.users, u.id, now));
    if CredentialsOf(t', u.id) != [] then (t', MfaRequired(PendingToken(u.id, now)))
    else SessionCreated(t', NewSession(u.id, ip, agent, d))
  }

  function LoginStep(s: State, email: string, passwordOk: bool, ip: string, agent: string, time: Time, d: Draw):
    (State, AuthReply)
  {
    var limiter := RateLimiter.Login(s.limiter, ip, VerdictOf(s.tables, email, passwordOk), time.ticks);
    if RateLimiter.Blocked(s.limiter, ip, time.ticks) then (s, RateLimited)
    else if VerdictOf(s.tables, email, passwordOk) == RateLimiter.Rejected
      then (s.(limiter := limiter), InvalidCredentials)
    else
      var r := LoggedIn(s.tables, email, ip, agent, time.now, d);
      (State(r.0, limiter, WithToken(s.pending, r.1)), r.1)
  }

  function WithToken(pending: set<PendingToken>, reply: AuthReply): set<PendingToken> {
    if reply.MfaRequired? then pending + {reply.token} else pending
  }

  /** The second login step, from the check of the second factor to the new session. */
  function MfaLogin(t: Tables, userId: string, proof: Proof, ip: string, agent: string, now: Instant, d: Draw):
    (Tables, AuthReply)
  {
    match proof
    case Totp(validFor) =>
      var checked := Mfa.TotpChecked(t, userId, validFor);
      if checked.Passed? then SessionCreated(t, NewSession(userId, ip, agent, d)) else (t, Refused(checked))
    case Backup(input) =>
      var (t', checked) := Mfa.BackupCodeChecked(t, userId, input, now);
      if checked.Passed? then SessionCreated(t', NewSession(userId, ip, agent, d)) else (t', Refused(checked))
  }

  predicate StillValid(token: PendingToken, now: Clock) {
    Before(now, PlusMinutes(token.issuedAt, MFA_TOKEN_MINUTES))
  }

  /** A token may be presented any number of times while it lasts. */
  function MfaStep(s: State, token: PendingToken, proof: Proof, ip: string, agent: string, now: Clock, d: Draw):
    (State, AuthReply)
  {
    if proof == Backup("") then (s, MissingFields)
    else if token !in s.pending || !StillValid(token, now) then (s, InvalidToken)
    else
      var r := MfaLogin(s.tables, token.userId, proof, ip, agent, now, d);
      (s.(tables := r.0), r.1)
  }

  /** The old session's user agent is kept when it had one. */
  function Refreshed(t: Tables, tokenHash: string, ip: string, agent: string, now: Instant, d: Draw):
    (Tables, AuthReply)
  {
    var found := SessionByRefreshHash(t, tokenHash);
    if found.None? || Before(found.value.expiresAt, now) then (t, SessionNotFound)
    else if UserById(t, found.value.userId).None? then (t, UserMissing)
    else
      var agent' := if found.value.userAgent != "" then found.value.userAgent else agent;
      SessionCreated(t.(sessions := Revoked(t.sessions, found.value.id, now)),
        NewSession(found.value.userId, ip, agent', d))
  }

  function LoggedOut(t: Tables, accessHash: string, now: Instant): (Tables, AuthReply) {
    match SessionByAccessHash(t, accessHash)
    case None => (t, Done)
    case Some(s) => (t.(sessions := Revoked(t.sessions, s.id, now)), Done)
  }

  function WithSessionId(id: string): Session -> bool {
    (s: Session) => s.id == id
  }

  function SessionEnded(t: Tables, sessionId: string, userId: string, now: Instant): (Tables, AuthReply) {
    if First(ActiveSessions(t, userId, now), WithSessionId(sessionId)).None? then (t, SessionNotFound)
    else (t.(sessions := Revoked(t.sessions, sessionId, now)), Done)
  }

  // ---- The service --------------------------------------------------------------------------------------------------

  class Service {
    const db: DB
    const limiter: RateLimiter.Limiter
    const mfa: Mfa.Service
    var pending: set<PendingToken>

    constructor (db: DB)
      ensures this.db == db && mfa.db == db && fresh(limiter) && limiter.entries == map[] && pending == {}
    {
      this.db := db;
      this.limiter := new RateLimiter.Limiter();
      this.mfa := new Mfa.Service(db);
      this.pending := {};
    }

    ghost function View(): State
      reads this, db, limiter
    {
      State(db.tables, limiter.entries, pending)
    }

    method CreateSession(userId: string, ip: string, agent: string, d: Draw) returns (reply: AuthReply)
      modifies db
      ensures (db.tables, reply) == SessionCreated(old(db.tables), NewSession(userId, ip, agent, d))
    {
      var session := Session(d.id, userId, d.accessHash, d.refreshHash, ip, agent, d.expiresAt, None);
      if !CanStore(db.tables, session) {
        return StoreFailed;
      }
      db.tables := db.tables.(sessions := db.tables.sessions + [session]);
      return SessionIssued(session);
    }

    /** The query finds active accounts only, so the check for a deactivated one has nothing to find. */
    method Login(email: string, passwordOk: bool, ip: string, agent: string, time: Time, d: Draw)
      returns (reply: AuthReply)
      modifies this`pending, db, limiter
      ensures (View(), reply) == LoginStep(old(View()), email, passwordOk, ip, agent, time, d)
    {
      var blocked, _ := limiter.IsBlocked(ip, time.ticks);
      if blocked {
        return RateLimited;
      }
      var user := UserByEmail(db.tables, email);
      if user.None? {
        limiter.RecordFailure(ip, time.ticks);
        return InvalidCredentials;
      }
      if !passwordOk {
        limiter.RecordFailure(ip, time.ticks);
        return InvalidCredentials;
      }
      limiter.Reset(ip);
      db.tables := db.tables.(users := WithLastLogin(db.tables.users, user.value.id, time.now));
      var credentials := CredentialsOf(db.tables, user.value.id);
      if |credentials| > 0 {
        var token := PendingToken(user.value.id, time.now);
        pending := pending + {token};
        return MfaRequired(token);
      }
      reply := CreateSession(user.value.id, ip, agent, d);
    }

    method VerifyMfa(token: PendingToken, proof: Proof, ip: string, agent: string, now: Clock, d: Draw)
      returns (reply: AuthReply)
      requires mfa.db == db
      modifies db
      ensures (View(), reply) == MfaStep(old(View()), token, proof, ip, agent, now, d)
    {
      if proof == Backup("") {
        return MissingFields;
      }
      if token !in pending || !StillValid(token, now) {
        return InvalidToken;
      }
      var checked: Mfa.Reply;
      match proof {
        case Backup(input) => checked := mfa.UseBackupCodeForLogin(token.userId, input, now);
        case Totp(validFor) => checked := mfa.VerifyTotpForLogin(token.userId, validFor);
      }
      if !checked.Passed? {
        return Refused(checked);
      }
      reply := CreateSession(token.userId, ip, agent, d);
    }

    method Refresh(tokenHash: string, ip: string, agent: string, now: Instant, d: Draw) returns (reply: AuthReply)
      modifies db
      ensures (db.tables, reply) == Refreshed(old(db.tables), tokenHash, ip, agent, now, d)
    {
      var found := SessionByRefreshHash(db.tables, tokenHash);
      if found.None? {
        return SessionNotFound;
      }
      var session := found.value;
      if Before(session.expiresAt, now) {
        return SessionNotFound;
      }
      var user := UserById(db.tables, session.userId);
      if user.None? {
        return UserMissing;
      }
      db.tables := db.tables.(sessions := Revoked(db.tables.sessions, session.id, now));
      var kept := if session.userAgent != "" then session.userAgent else agent;
      reply := CreateSession(user.value.id, ip, kept, d);
    }

    method Logout(accessHash: string, now: Instant) returns (reply: AuthReply)
      modifies db
      ensures (db.tables, reply) == LoggedOut(old(db.tables), accessHash, now)
    {
      var session := SessionByAccessHash(db.tables, accessHash);
      if session.None? {
        return Done;
      }
      db.tables := db.tables.(sessions := Revoked(db.tables.sessions, session.value.id, now));
      return Done;
    }

    method RevokeSession(sessionId: string, userId: string, now: Instant) returns (reply: AuthReply)
      modifies db
      ensures (db.tables, reply) == SessionEnded(old(db.tables), sessionId, userId, now)
    {
      var sessions := ActiveSessions(db.tables, userId, now);
      var found := false;
      for i := 0 to |sessions|
        invariant !found && forall j :: 0 <= j < i ==> !WithSessionId(sessionId)(sessions[j])
      {
        if sessions[i].id == sessionId {
          FirstSome(sessions, WithSessionId(sessionId), i);
          found := true;
          break;
        }
      }
      if !found {
        FirstNone(sessions, WithSessionId(sessionId));
        return SessionNotFound;
      }
      db.tables := db.tables.(sessions := Revoked(db.tables.sessions, sessionId, now));
      return Done;
    }
  }
}
