/** What ends a session, row by row, and that it stays ended; and what an issued session is. */
module SessionEnds {
  import opened Common
  import opened Timestamps
  import opened Database
  import opened Auth
  import opened Identity
  import opened SessionHistory

  /** Only the row `i` of the sessions is different, and all that is new about it is its time of revocation. */
  ghost predicate OnlyRevokes(t: Tables, t': Tables, i: nat, now: Instant) {
    && i < |t.sessions| == |t'.sessions|
    && t.sessions[i].revokedAt.None? && t'.sessions[i] == t.sessions[i].(revokedAt := Some(now))
    && (forall j :: 0 <= j < |t.sessions| && j != i ==> t'.sessions[j] == t.sessions[j])
    && t'.users == t.users && t'.credentials == t.credentials && t'.config == t.config
  }

  lemma RevokingOne(t: Tables, i: nat, now: Instant)
    requires DistinctSessions(t.sessions) && i < |t.sessions| && t.sessions[i].revokedAt.None?
    ensures OnlyRevokes(t, t.(sessions := Revoked(t.sessions, t.sessions[i].id, now)), i, now)
  {
    RevokedIsUpdate(t.sessions, i, now);
  }

  /** Row `i` is the first unrevoked one with this access token. */
  ghost predicate FirstOpen(t: Tables, accessHash: string, i: nat) {
    && i < |t.sessions| && t.sessions[i].accessHash == accessHash && t.sessions[i].revokedAt.None?
    && forall j :: 0 <= j < i ==> t.sessions[j].accessHash != accessHash || t.sessions[j].revokedAt.Some?
  }

  lemma FirstOpenIsFound(t: Tables, accessHash: string, i: nat)
    requires FirstOpen(t, accessHash, i)
    ensures First(t.sessions, OpenWithAccessHash(accessHash)) == Some(i)
  {
    FirstSome(t.sessions, OpenWithAccessHash(accessHash), i);
  }

  /** Logging out revokes the session of the token, and nothing else happens. */
  lemma LogoutRevokes(s: State, accessHash: string, i: nat, time: Time)
    requires DistinctSessions(s.tables.sessions) && FirstOpen(s.tables, accessHash, i)
    ensures Step(s, Logout(accessHash), time).1 == FromAuth(Done)
    ensures OnlyRevokes(s.tables, Step(s, Logout(accessHash), time).0.tables, i, time.now)
  {
    FirstOpenIsFound(s.tables, accessHash, i);
    RevokingOne(s.tables, i, time.now);
  }

  /** The session is on the list its owner is shown: open, and not past the date of its expiry. */
  ghost predicate Listed(t: Tables, sessionId: string, userId: string, now: Instant, i: nat) {
    && i < |t.sessions| && t.sessions[i].id == sessionId && t.sessions[i].userId == userId
    && t.sessions[i].revokedAt.None? && !DateBefore(t.sessions[i].expiresAt, now)
  }

  lemma ListedIsFound(t: Tables, sessionId: string, userId: string, now: Instant)
    ensures First(ActiveSessions(t, userId, now), WithSessionId(sessionId)).Some?
            <==> exists i: nat :: Listed(t, sessionId, userId, now, i)
  {
    var listed := ActiveSessions(t, userId, now);
    if First(listed, WithSessionId(sessionId)).Some? {
      var s := listed[First(listed, WithSessionId(sessionId)).value];
      assert s in listed;
      var i: nat :| i < |t.sessions| && t.sessions[i] == s;
      FilterComparesDates(s.expiresAt, now);
      assert Listed(t, sessionId, userId, now, i);
    }
    if exists i: nat :: Listed(t, sessionId, userId, now, i) {
      var i: nat :| Listed(t, sessionId, userId, now, i);
      FilterComparesDates(t.sessions[i].expiresAt, now);
      FilterHas(t.sessions, t.sessions[i], ListedFor(userId, now));
      var k :| 0 <= k < |listed| && listed[k] == t.sessions[i];
      assert WithSessionId(sessionId)(listed[k]);
    }
  }

  /** Main result: ending a session by name succeeds iff it is on the requester's own list, and revokes that row. */
  lemma RevokesIffListed(s: State, sessionId: string, userId: string, time: Time)
    requires DistinctSessions(s.tables.sessions)
    ensures Step(s, RevokeSession(sessionId, userId), time).1 == FromAuth(Done)
            <==> exists i: nat :: Listed(s.tables, sessionId, userId, time.now, i)
    ensures forall i: nat :: Listed(s.tables, sessionId, userId, time.now, i) ==>
              OnlyRevokes(s.tables, Step(s, RevokeSession(sessionId, userId), time).0.tables, i, time.now)
  {
    ListedIsFound(s.tables, sessionId, userId, time.now);
    forall i: nat | Listed(s.tables, sessionId, userId, time.now, i)
      ensures OnlyRevokes(s.tables, Step(s, RevokeSession(sessionId, userId), time).0.tables, i, time.now)
    {
      RevokingOne(s.tables, i, time.now);
    }
  }

  /** A revoked row: no access token finds it, and no refresh token buys anything with it. */
  ghost predicate Out(s: State, i: nat, now: Instant) {
    && i < |s.tables.sessions| && s.tables.sessions[i].revokedAt == Some(now)
    && First(s.tables.sessions, OpenWithAccessHash(s.tables.sessions[i].accessHash)) != Some(i)
    && forall ip: string, agent: string, d: Draw, time: Time ::
         Step(s, Refresh(s.tables.sessions[i].refreshHash, ip, agent, d), time).1 == FromAuth(SessionNotFound)
  }

  lemma RevokedIsOut(s: State, i: nat, now: Instant)
    requires DistinctSessions(s.tables.sessions)
    requires i < |s.tables.sessions| && s.tables.sessions[i].revokedAt == Some(now)
    ensures Out(s, i, now)
  {
    var hash := s.tables.sessions[i].refreshHash;
    assert Redeemed(s.tables, hash);
    RedeemedIsNotFound(s.tables, hash);
  }

  /**
   Main result: a session that was logged out, or ended by name, keeps the time of that for ever; in every later
   run neither its access token nor its refresh token is good for anything.
   */
  lemma {:induction false} EndedForGood(s: State, op: Op, time: Time, i: nat, calls: seq<Call>)
    requires Inv(s.tables) && FreshDraws(Step(s, op, time).0, calls)
    requires (op.Logout? && FirstOpen(s.tables, op.accessHash, i))
             || (op.RevokeSession? && Listed(s.tables, op.sessionId, op.userId, time.now, i))
    ensures Out(Run(Step(s, op, time).0, calls), i, time.now)
  {
    var s' := Step(s, op, time).0;
    if op.Logout? {
      LogoutRevokes(s, op.accessHash, i, time);
    } else {
      RevokesIffListed(s, op.sessionId, op.userId, time);
    }
    StepKeepsInv(s, op, time);
    RevocationIsWriteOnce(s', calls);
    RevokedIsOut(Run(s', calls), i, time.now);
  }

  // ---- What an issued session is -----------------------------------------------------------------------------------

  /** The session's row: unrevoked, with the drawn identifiers and expiry, from where it was asked for. */
  ghost predicate Drawn(x: Session, d: Draw, ip: string) {
    && x.id == d.id && x.accessHash == d.accessHash && x.refreshHash == d.refreshHash && x.expiresAt == d.expiresAt
    && x.ipAddress == ip && x.revokedAt.None?
  }

  ghost predicate IssuedTo(s: State, op: Op, time: Time, x: Session) {
    Step(s, op, time).1 == FromAuth(SessionIssued(x))
  }

  /** A reply with a session: the row is stored, exactly as drawn; a refresh keeps the user agent it had. */
  lemma IssuedIsStored(s: State, op: Op, time: Time, x: Session)
    requires SessionCall(op) && IssuedTo(s, op, time, x)
    ensures op.Login? || op.VerifyMfa? || op.Refresh?
    ensures Drawn(x, op.draw, op.ip)
    ensures var rows := Step(s, op, time).0.tables.sessions;
            |rows| == |s.tables.sessions| + 1 && rows[|rows| - 1] == x
    ensures !op.Refresh? ==> x.userAgent == op.agent
    ensures op.Refresh? ==> exists i: nat :: Replaces(s.tables, op, x, i)
  {
    if op.Refresh? {
      var i := First(s.tables.sessions, OpenWithRefreshHash(op.tokenHash)).value;
      assert Replaces(s.tables, op, x, i);
    }
  }

  ghost predicate Replaces(t: Tables, op: Op, x: Session, i: nat) {
    && op.Refresh? && i < |t.sessions| && t.sessions[i].refreshHash == op.tokenHash && t.sessions[i].userId == x.userId
    && x.userAgent == (if t.sessions[i].userAgent != "" then t.sessions[i].userAgent else op.agent)
  }
}
