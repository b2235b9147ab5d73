/**
 Privileged sessions (PIM). The table's row identifiers are fresh and never reused, so a row is named by its
 position. Each service call reads the clock once and runs as one step.
 */
module Pim {
  import opened Common
  import opened Timestamps

  datatype Row = Row(user: string, sessionId: string, reason: string, minutes: int, expiresAt: string,
                     endedAt: Option<Stamp>, breakGlass: bool, actions: int)

  datatype Reply =
    | ReasonTooShort
    | InvalidDuration
    | AlreadyActive
    | NotActive
    | NotFound
    | StoreFailed
    | Active(id: nat, row: Row)
    | Granted(grantedId: nat)
    | Done

  const MIN_REASON := 10
  const MAX_DURATION := 480
  const ALLOWED_DURATIONS: set<int> := {15, 30, 60}

  // ---- Reads --------------------------------------------------------------------------------------------------

  predicate ValidDuration(minutes: int) {
    minutes in ALLOWED_DURATIONS || 1 <= minutes <= MAX_DURATION
  }

  predicate Live(row: Row, user: string, now: Clock) {
    row.user == user && row.endedAt.None? && Unexpired(row.expiresAt, now)
  }

  function LiveFor(user: string, now: Clock): Row -> bool {
    (row: Row) => Live(row, user, now)
  }

  function ActiveId(rows: seq<Row>, user: string, now: Clock): Option<nat> {
    First(rows, LiveFor(user, now))
  }

  /** No user has two live sessions. */
  ghost predicate OneLive(rows: seq<Row>, now: Clock) {
    forall i, j, user :: 0 <= i < j < |rows| && Live(rows[i], user, now) ==> !Live(rows[j], user, now)
  }

  // ---- One call ------------------------------------------------------------------------------------------------

  /** `known` says whether the user and the login session the new row refers to exist. */
  datatype Op =
    | Request(user: string, sessionId: string, reason: string, minutes: int, breakGlass: bool, known: bool)
    | GetActive(user: string)
    | End(user: string, pimId: int)
    | RecordAction(pimId: int)
    | CheckAndRecord(user: string)
    | ExpireOverdue

  function Requested(op: Op, now: Clock): Row
    requires op.Request? && ValidDuration(op.minutes)
  {
    Row(op.user, op.sessionId, op.reason, op.minutes, Rfc3339(PlusMinutes(now, op.minutes)), None, op.breakGlass, 0)
  }

  function Credit(rows: seq<Row>, id: int): (r: seq<Row>)
    ensures |r| == |rows|
  {
    if 0 <= id < |rows| && rows[id].endedAt.None? then rows[id := rows[id].(actions := rows[id].actions + 1)] else rows
  }

  function Expired(rows: seq<Row>, now: Clock): (r: seq<Row>)
    ensures |r| == |rows|
  {
    seq(|rows|, i requires 0 <= i < |rows| =>
      if rows[i].endedAt.None? && Overdue(rows[i].expiresAt, now) then rows[i].(endedAt := Some(now)) else rows[i])
  }

  function Step(rows: seq<Row>, op: Op, now: Clock): (seq<Row>, Reply) {
    match op
    case Request(user, _, reason, minutes, _, known) =>
      if |reason| < MIN_REASON then (rows, ReasonTooShort)
      else if !ValidDuration(minutes) then (rows, InvalidDuration)
      else if ActiveId(rows, user, now).Some? then (rows, AlreadyActive)
      else if !known then (rows, StoreFailed)
      else (rows + [Requested(op, now)], Active(|rows|, Requested(op, now)))
    case GetActive(user) =>
      (match ActiveId(rows, user, now)
       case None => (rows, NotActive)
       case Some(i) => (rows, Active(i, rows[i])))
    case End(user, pimId) =>
      (match ActiveId(rows, user, now)
       case None => (rows, NotActive)
       case Some(i) => if i != pimId then (rows, NotFound) else (rows[i := rows[i].(endedAt := Some(now))], Done))
    case RecordAction(pimId) => (Credit(rows, pimId), Done)
    case CheckAndRecord(user) =>
      (match ActiveId(rows, user, now)
       case None => (rows, NotActive)
       case Some(i) => (Credit(rows, i), Granted(i)))
    case ExpireOverdue => (Expired(rows, now), Done)
  }

  // ---- The service ----------------------------------------------------------------------------------------------

  class Service {
    var rows: seq<Row>

    ghost predicate Valid(now: Clock)
      reads this
    {
      OneLive(rows, now)
    }

    constructor ()
      ensures rows == []
    {
      rows := [];
    }

    /** LIMIT 1 without an order: any live row may be returned, but there is no choice. */
    method FindActive(user: string, now: Clock) returns (id: Option<nat>)
      requires Valid(now)
      ensures id == ActiveId(rows, user, now)
    {
      if i: nat :| i < |rows| && Live(rows[i], user, now) {
        FirstSome(rows, LiveFor(user, now), i);
        return Some(i);
      }
      FirstNone(rows, LiveFor(user, now));
      return None;
    }

    method Request(user: string, sessionId: string, reason: string, minutes: int, breakGlass: bool, known: bool,
          now: Clock)
      returns (reply: Reply)
      requires Valid(now)
      modifies this
      ensures Valid(now)
      ensures (rows, reply) == Step(old(rows), Op.Request(user, sessionId, reason, minutes, breakGlass, known), now)
    {
      if |reason| < MIN_REASON {
        return ReasonTooShort;
      }
      if !(minutes in ALLOWED_DURATIONS || 1 <= minutes <= MAX_DURATION) {
        return InvalidDuration;
      }
      var existing := FindActive(user, now);
      if existing.Some? {
        return AlreadyActive;
      }
      if !known {
        return StoreFailed;
      }
      var expiresAt := PlusMinutes(now, minutes);
      var row := Row(user, sessionId, reason, minutes, Rfc3339(expiresAt), None, breakGlass, 0);
      rows := rows + [row];
      return Active(|rows| - 1, row);
    }

    method GetActive(user: string, now: Clock) returns (reply: Reply)
      requires Valid(now)
      ensures reply == Step(rows, Op.GetActive(user), now).1
    {
      var active := FindActive(user, now);
      if active.None? {
        return NotActive;
      }
      return Active(active.value, rows[active.value]);
    }

    method End(user: string, pimId: int, now: Clock) returns (reply: Reply)
      requires Valid(now)
      modifies this
      ensures Valid(now) && (rows, reply) == Step(old(rows), Op.End(user, pimId), now)
    {
      var active := FindActive(user, now);
      if active.None? {
        return NotActive;
      }
      if active.value != pimId {
        return NotFound;
      }
      rows := rows[pimId := rows[pimId].(endedAt := Some(now))];
      return Done;
    }

    method RecordAction(pimId: int)
      modifies this
      ensures rows == Credit(old(rows), pimId)
    {
      if 0 <= pimId < |rows| && rows[pimId].endedAt.None? {
        rows := rows[pimId := rows[pimId].(actions := rows[pimId].actions + 1)];
      }
    }

    method CheckAndRecord(user: string, now: Clock) returns (reply: Reply)
      requires Valid(now)
      modifies this
      ensures Valid(now) && (rows, reply) == Step(old(rows), Op.CheckAndRecord(user), now)
    {
      var active := FindActive(user, now);
      if active.None? {
        return NotActive;
      }
      RecordAction(active.value);
      return Granted(active.value);
    }

    method ExpireOverdue(now: Clock)
      requires Valid(now)
      modifies this
      ensures Valid(now) && rows == Expired(old(rows), now)
    {
      ghost var before := rows;
      var i := 0;
      while i < |rows|
        invariant 0 <= i <= |rows| == |before|
        invariant forall j :: 0 <= j < i ==> rows[j] == Expired(before, now)[j]
        invariant forall j :: i <= j < |rows| ==> rows[j] == before[j]
      {
        if rows[i].endedAt.None? && Overdue(rows[i].expiresAt, now) {
          rows := rows[i := rows[i].(endedAt := Some(now))];
        }
        i := i + 1;
      }
    }
  }

  // ---- Runs -------------------------------------------------------------------------------------------------------

  datatype Call = Call(op: Op, at: Clock)

  function Run(rows: seq<Row>, calls: seq<Call>): seq<Row> {
    if calls == [] then rows
    else Step(Run(rows, calls[..|calls| - 1]), calls[|calls| - 1].op, calls[|calls| - 1].at).0
  }

  function Replies(rows: seq<Row>, calls: seq<Call>): (r: seq<Reply>)
    ensures |r| == |calls|
  {
    if calls == [] then []
    else
      var init := calls[..|calls| - 1];
      Replies(rows, init) + [Step(Run(rows, init), calls[|calls| - 1].op, calls[|calls| - 1].at).1]
  }

  ghost predicate Clocked(start: Clock, calls: seq<Call>) {
    && (forall i :: 0 <= i < |calls| ==> AtOrBefore(start, calls[i].at))
    && (forall i, j :: 0 <= i < j < |calls| ==> AtOrBefore(calls[i].at, calls[j].at))
  }

  ghost predicate ClockedUntil(start: Clock, calls: seq<Call>, end: Clock) {
    && Clocked(start, calls)
    && AtOrBefore(start, end)
    && (forall i :: 0 <= i < |calls| ==> AtOrBefore(calls[i].at, end))
  }

  /** A row that no longer counts at `t` does not count later. */
  lemma LiveAntitone(row: Row, user: string, now: Clock, later: Clock)
    requires AtOrBefore(now, later) && Live(row, user, later)
    ensures Live(row, user, now)
  {
    UnexpiredAntitone(row.expiresAt, now, later);
  }

  lemma OneLiveLater(rows: seq<Row>, now: Clock, later: Clock)
    requires AtOrBefore(now, later) && OneLive(rows, now)
    ensures OneLive(rows, later)
  {
    forall i, j, user | 0 <= i < j < |rows| && Live(rows[i], user, later) ensures !Live(rows[j], user, later) {
      LiveAntitone(rows[i], user, now, later);
      if Live(rows[j], user, later) {
        LiveAntitone(rows[j], user, now, later);
      }
    }
  }

  lemma StepOneLive(rows: seq<Row>, op: Op, now: Clock)
    requires OneLive(rows, now)
    ensures OneLive(Step(rows, op, now).0, now)
  {
    var rows' := Step(rows, op, now).0;
    forall i | 0 <= i < |rows| ensures rows'[i].user == rows[i].user
    ensures forall user :: Live(rows'[i], user, now) ==> Live(rows[i], user, now) {
    }
  }

  lemma {:induction false} OneLiveThroughout(rows: seq<Row>, start: Clock, calls: seq<Call>, now: Clock)
    requires OneLive(rows, start) && ClockedUntil(start, calls, now)
    ensures OneLive(Run(rows, calls), now)
  {
    if calls == [] {
      OneLiveLater(rows, start, now);
    } else {
      var init, last := calls[..|calls| - 1], calls[|calls| - 1];
      OneLiveThroughout(rows, start, init, last.at);
      StepOneLive(Run(rows, init), last.op, last.at);
      OneLiveLater(Run(rows, calls), last.at, now);
    }
  }

  /** Main result: in every reachable state each user has at most one live session. */
  lemma AtMostOneLive(start: Clock, calls: seq<Call>, now: Clock)
    requires ClockedUntil(start, calls, now)
    ensures OneLive(Run([], calls), now)
  {
    OneLiveThroughout([], start, calls, now);
  }

  // ---- Expiring overdue rows is invisible ---------------------------------------------------------------------------

  ghost predicate Dead(row: Row, t: Clock) {
    row.endedAt.Some? || !Unexpired(row.expiresAt, t)
  }

  /** The two tables differ only in rows that had stopped counting by `t`. */
  ghost predicate SameFrom(a: seq<Row>, b: seq<Row>, t: Clock) {
    |a| == |b| && forall i :: 0 <= i < |a| ==> a[i] == b[i] || (Dead(a[i], t) && Dead(b[i], t))
  }

  lemma DeadStaysDead(row: Row, user: string, t: Clock, now: Clock)
    requires Dead(row, t) && AtOrBefore(t, now)
    ensures !Live(row, user, now)
  {
    if Live(row, user, now) {
      UnexpiredAntitone(row.expiresAt, t, now);
    }
  }

  lemma SameActive(a: seq<Row>, b: seq<Row>, t: Clock, user: string, now: Clock)
    requires SameFrom(a, b, t) && AtOrBefore(t, now)
    ensures ActiveId(a, user, now) == ActiveId(b, user, now)
    ensures ActiveId(a, user, now).Some? ==> a[ActiveId(a, user, now).value] == b[ActiveId(a, user, now).value]
  {
    forall i | 0 <= i < |a|
      ensures LiveFor(user, now)(a[i]) == LiveFor(user, now)(b[i])
      ensures a[i] == b[i] || !Live(a[i], user, now)
    {
      if a[i] != b[i] {
        DeadStaysDead(a[i], user, t, now);
        DeadStaysDead(b[i], user, t, now);
      }
    }
    var p := LiveFor(user, now);
    match First(a, p)
    case None => FirstNone(b, p);
    case Some(i) => FirstSome(b, p, i);
  }

  lemma ExpiredSame(a: seq<Row>, b: seq<Row>, t: Clock, now: Clock)
    requires SameFrom(a, b, t)
    ensures SameFrom(Expired(a, now), Expired(b, now), t)
  {
    forall i | 0 <= i < |a|
      ensures Expired(a, now)[i] == Expired(b, now)[i] || (Dead(Expired(a, now)[i], t) && Dead(Expired(b, now)[i], t)) {
      assert a[i] == b[i] || (Dead(a[i], t) && Dead(b[i], t));
    }
  }

  lemma CreditSame(a: seq<Row>, b: seq<Row>, t: Clock, id: int)
    requires SameFrom(a, b, t)
    ensures SameFrom(Credit(a, id), Credit(b, id), t)
  {
  }

  lemma StepSame(a: seq<Row>, b: seq<Row>, t: Clock, op: Op, now: Clock)
    requires SameFrom(a, b, t) && AtOrBefore(t, now)
    ensures Step(a, op, now).1 == Step(b, op, now).1
    ensures SameFrom(Step(a, op, now).0, Step(b, op, now).0, t)
  {
    match op
    case Request(user, _, _, _, _, _) => SameActive(a, b, t, user, now);
    case GetActive(user) => SameActive(a, b, t, user, now);
    case End(user, _) => SameActive(a, b, t, user, now);
    case CheckAndRecord(user) =>
      SameActive(a, b, t, user, now);
      if ActiveId(a, user, now).Some? {
        CreditSame(a, b, t, ActiveId(a, user, now).value);
      }
    case RecordAction(id) => CreditSame(a, b, t, id);
    case ExpireOverdue => ExpiredSame(a, b, t, now);
  }

  lemma {:induction false} SameReplies(a: seq<Row>, b: seq<Row>, t: Clock, calls: seq<Call>)
    requires SameFrom(a, b, t) && Clocked(t, calls)
    ensures Replies(a, calls) == Replies(b, calls) && SameFrom(Run(a, calls), Run(b, calls), t)
  {
    if calls != [] {
      var init, last := calls[..|calls| - 1], calls[|calls| - 1];
      SameReplies(a, b, t, init);
      StepSame(Run(a, init), Run(b, init), t, last.op, last.at);
    }
  }

  /** Main result: whether the overdue rows were ended at `t` or not, every later call gets the same answer. */
  lemma ExpireIsInvisible(rows: seq<Row>, t: Clock, calls: seq<Call>)
    requires Clocked(t, calls)
    ensures Replies(Expired(rows, t), calls) == Replies(rows, calls)
  {
    forall i | 0 <= i < |rows| && Expired(rows, t)[i] != rows[i] ensures Dead(rows[i], t) {
      OverdueIsComplement(rows[i].expiresAt, t);
    }
    SameReplies(Expired(rows, t), rows, t, calls);
  }

  // ---- The action counter -------------------------------------------------------------------------------------------

  function ActionsOf(rows: seq<Row>, id: nat): int {
    if id < |rows| then rows[id].actions else 0
  }

  /** What one call adds to a row's counter, and to no other. */
  ghost predicate CreditsRow(rows: seq<Row>, call: Call, id: nat) {
    || (call.op.CheckAndRecord? && Step(rows, call.op, call.at).1 == Granted(id))
    || (call.op == RecordAction(id) && id < |rows| && rows[id].endedAt.None?)
  }

  /** Call `k` of a run was granted under the session, or recorded directly on it while it was not ended. */
  ghost predicate Credits(calls: seq<Call>, id: nat, k: nat) {
    k < |calls| && CreditsRow(Run([], calls[..k]), calls[k], id)
  }

  ghost function CreditCount(calls: seq<Call>, id: nat, n: nat): nat {
    if n == 0 then 0 else CreditCount(calls, id, n - 1) + (if Credits(calls, id, n - 1) then 1 else 0)
  }

  lemma StepActions(rows: seq<Row>, call: Call, id: nat)
    ensures ActionsOf(Step(rows, call.op, call.at).0, id) == ActionsOf(rows, id)
      + (if CreditsRow(rows, call, id) then 1 else 0)
  {
  }

  /** Main result: the counter is the number of privileged actions carried out under the session. */
  lemma {:induction false} ActionsAreCounted(calls: seq<Call>, id: nat, n: nat)
    requires n <= |calls|
    ensures CreditCount(calls, id, n) == ActionsOf(Run([], calls[..n]), id)
  {
    if n > 0 {
      ActionsAreCounted(calls, id, n - 1);
      assert calls[..n][..n - 1] == calls[..n - 1];
      StepActions(Run([], calls[..n - 1]), calls[n - 1], id);
    }
  }

  lemma StepFreezes(rows: seq<Row>, op: Op, now: Clock, id: nat)
    requires id < |rows| && rows[id].endedAt.Some?
    ensures id < |Step(rows, op, now).0| && Step(rows, op, now).0[id] == rows[id]
  {
  }

  lemma {:induction false} EndedRowIsFrozen(rows: seq<Row>, calls: seq<Call>, id: nat)
    requires id < |rows| && rows[id].endedAt.Some?
    ensures id < |Run(rows, calls)| && Run(rows, calls)[id] == rows[id]
  {
    if calls != [] {
      var init, last := calls[..|calls| - 1], calls[|calls| - 1];
      EndedRowIsFrozen(rows, init, id);
      StepFreezes(Run(rows, init), last.op, last.at, id);
    }
  }

  // ---- How long a session really lasts ------------------------------------------------------------------------------

  /** An open row of the user with this expiry. */
  ghost predicate IsOpen(rows: seq<Row>, id: nat, user: string, expiry: Instant) {
    id < |rows| && rows[id].endedAt.None? && rows[id].user == user && rows[id].expiresAt == Rfc3339(expiry)
  }

  lemma OpenRowStep(rows: seq<Row>, op: Op, now: Clock, id: nat, user: string, expiry: Instant)
    requires IsOpen(rows, id, user, expiry) && op != End(user, id) && !DateBefore(expiry, now)
    ensures IsOpen(Step(rows, op, now).0, id, user, expiry)
  {
    FilterComparesDates(expiry, now);
    OverdueIsComplement(rows[id].expiresAt, now);
  }

  /** The row a request created, while nobody ends it and no cleanup has found it overdue. */
  lemma {:induction false} OpenRowKept(rows: seq<Row>, calls: seq<Call>, id: nat, user: string, expiry: Instant,
        later: Clock)
    requires IsOpen(rows, id, user, expiry) && !DateBefore(expiry, later)
    requires forall i :: 0 <= i < |calls| ==> AtOrBefore(calls[i].at, later) && calls[i].op != End(user, id)
    ensures IsOpen(Run(rows, calls), id, user, expiry)
  {
    hide Step, IsOpen;
    if calls != [] {
      var init, last := calls[..|calls| - 1], calls[|calls| - 1];
      OpenRowKept(rows, init, id, user, expiry, later);
      assert AtOrBefore(last.at, later);
      OpenRowStep(Run(rows, init), last.op, last.at, id, user, expiry);
    }
  }

  /**
   Main result: a session asked for at `start` is still the active one at a later time exactly as long as that
   time's date is not past the date of its expiry, unless its owner ends it. The requested minutes decide the
   expiry date, not the hour at which the privilege ends.
   */
  lemma {:induction false} SessionLastsThroughExpiryDate(rows: seq<Row>, op: Op, start: Clock, calls: seq<Call>,
        later: Clock)
    requires op.Request? && OneLive(rows, start) && Step(rows, op, start).1.Active?
    requires ClockedUntil(start, calls, later)
    requires forall i :: 0 <= i < |calls| ==> calls[i].op != End(op.user, |rows|)
    ensures ActiveId(Run(Step(rows, op, start).0, calls), op.user, later) == Some(|rows|)
            <==> !DateBefore(PlusMinutes(start, op.minutes), later)
  {
    var row := Requested(op, start);
    var created := rows + [row];
    StepOneLive(rows, op, start);
    OneLiveThroughout(created, start, calls, later);
    RowKeepsExpiry(created, calls, |rows|);
    FilterComparesDates(PlusMinutes(start, op.minutes), later);
    var rows' := Run(created, calls);
    if !DateBefore(PlusMinutes(start, op.minutes), later) {
      OpenRowKept(created, calls, |rows|, op.user, PlusMinutes(start, op.minutes), later);
      FirstSome(rows', LiveFor(op.user, later), |rows|);
    }
  }

  lemma {:induction false} RowKeepsExpiry(rows: seq<Row>, calls: seq<Call>, id: nat)
    requires id < |rows|
    ensures id < |Run(rows, calls)| && Run(rows, calls)[id].expiresAt == rows[id].expiresAt
  {
    if calls != [] {
      var init, last := calls[..|calls| - 1], calls[|calls| - 1];
      RowKeepsExpiry(rows, init, id);
      StepKeepsExpiry(Run(rows, init), last.op, last.at, id);
    }
  }

  lemma StepKeepsExpiry(rows: seq<Row>, op: Op, now: Clock, id: nat)
    requires id < |rows|
    ensures id < |Step(rows, op, now).0| && Step(rows, op, now).0[id].expiresAt == rows[id].expiresAt
  {
  }

  // ---- What a caller can rely on -----------------------------------------------------------------------------------

  /** A request succeeds exactly when it is justified, of 1 to 480 minutes, and the user's only one. */
  lemma RequestSucceedsIff(rows: seq<Row>, op: Op, now: Clock)
    requires op.Request?
    ensures Step(rows, op, now).1.Active?
            <==> |op.reason| >= 10 && 1 <= op.minutes <= 480 && op.known
                 && forall i :: 0 <= i < |rows| ==> !Live(rows[i], op.user, now)
    ensures Step(rows, op, now).1.Active? ==>
              var rows' := Step(rows, op, now).0;
              && rows' == rows + [Row(op.user, op.sessionId, op.reason, op.minutes,
                                      Rfc3339(PlusMinutes(now, op.minutes)), None, op.breakGlass, 0)]
              && Live(rows'[|rows|], op.user, now)
              && Step(rows, op, now).1 == Active(|rows|, rows'[|rows|])
  {
    if ValidDuration(op.minutes) {
      FilterComparesDates(PlusMinutes(now, op.minutes), now);
    }
  }

  lemma OnlyLive(rows: seq<Row>, user: string, id: nat, now: Clock)
    requires OneLive(rows, now) && id < |rows| && Live(rows[id], user, now)
    ensures ActiveId(rows, user, now) == Some(id)
  {
    FirstSome(rows, LiveFor(user, now), id);
  }

  /** A privileged action is granted under a session exactly when it is the user's live one; it is counted there. */
  lemma GrantedIff(rows: seq<Row>, user: string, id: nat, now: Clock)
    requires OneLive(rows, now)
    ensures Step(rows, CheckAndRecord(user), now).1 == Granted(id) <==> id < |rows| && Live(rows[id], user, now)
    ensures Step(rows, CheckAndRecord(user), now).1 == Granted(id) ==>
              Step(rows, CheckAndRecord(user), now).0 == rows[id := rows[id].(actions := rows[id].actions + 1)]
    ensures id < |rows| ==> (Step(rows, GetActive(user), now).1 == Active(id, rows[id]) <==> Live(rows[id], user, now))
    ensures Step(rows, GetActive(user), now).1.Active? <==> exists i :: 0 <= i < |rows| && Live(rows[i], user, now)
  {
    if id < |rows| && Live(rows[id], user, now) {
      OnlyLive(rows, user, id, now);
    }
    if ActiveId(rows, user, now).Some? {
      assert Live(rows[ActiveId(rows, user, now).value], user, now);
    }
  }

  /** Ending succeeds exactly on the user's live session, and ends it at that moment and no other. */
  lemma EndedIff(rows: seq<Row>, user: string, id: nat, now: Clock)
    requires OneLive(rows, now)
    ensures Step(rows, End(user, id), now).1 == Done <==> id < |rows| && Live(rows[id], user, now)
    ensures Step(rows, End(user, id), now).1 == Done ==>
              && |Step(rows, End(user, id), now).0| == |rows|
              && Step(rows, End(user, id), now).0[id] == rows[id].(endedAt := Some(now))
              && forall j :: 0 <= j < |rows| && j != id ==> Step(rows, End(user, id), now).0[j] == rows[j]
  {
    if id < |rows| && Live(rows[id], user, now) {
      OnlyLive(rows, user, id, now);
    }
  }

  ghost predicate NoneLive(rows: seq<Row>, user: string, now: Clock) {
    forall i :: 0 <= i < |rows| ==> !Live(rows[i], user, now)
  }

  lemma NoneLiveLater(rows: seq<Row>, user: string, now: Clock, later: Clock)
    requires NoneLive(rows, user, now) && AtOrBefore(now, later)
    ensures NoneLive(rows, user, later)
  {
    forall i | 0 <= i < |rows| ensures !Live(rows[i], user, later) {
      if Live(rows[i], user, later) {
        LiveAntitone(rows[i], user, now, later);
      }
    }
  }

  lemma StepKeepsNoneLive(rows: seq<Row>, op: Op, user: string, now: Clock)
    requires NoneLive(rows, user, now) && !(IsRequestOf(op, user) && Step(rows, op, now).1.Active?)
    ensures NoneLive(Step(rows, op, now).0, user, now)
  {
  }

  predicate IsRequestOf(op: Op, user: string) {
    op.Request? && op.user == user
  }

  /** None of the calls is a request of the user that succeeds. */
  ghost predicate NoNewSession(rows: seq<Row>, calls: seq<Call>, user: string) {
    forall k :: 0 <= k < |calls| && IsRequestOf(calls[k].op, user) ==> !Replies(rows, calls)[k].Active?
  }

  lemma NoNewSessionInit(rows: seq<Row>, calls: seq<Call>, user: string)
    requires calls != [] && NoNewSession(rows, calls, user)
    ensures NoNewSession(rows, calls[..|calls| - 1], user)
    ensures var last := calls[|calls| - 1];
            !(IsRequestOf(last.op, user) && Step(Run(rows, calls[..|calls| - 1]), last.op, last.at).1.Active?)
  {
    var init := calls[..|calls| - 1];
    forall k | 0 <= k < |init| && IsRequestOf(init[k].op, user) ensures !Replies(rows, init)[k].Active? {
      assert Replies(rows, calls)[k] == Replies(rows, init)[k] && calls[k] == init[k];
    }
  }

  lemma {:induction false} NoneLiveThroughout(rows: seq<Row>, user: string, start: Clock, calls: seq<Call>,
        later: Clock)
    requires NoneLive(rows, user, start) && ClockedUntil(start, calls, later) && NoNewSession(rows, calls, user)
    ensures NoneLive(Run(rows, calls), user, later)
  {
    hide Step, NoneLive, NoNewSession;
    if calls == [] {
      NoneLiveLater(rows, user, start, later);
    } else {
      var init, last := calls[..|calls| - 1], calls[|calls| - 1];
      NoNewSessionInit(rows, calls, user);
      NoneLiveThroughout(rows, user, start, init, last.at);
      StepKeepsNoneLive(Run(rows, init), last.op, user, last.at);
      NoneLiveLater(Run(rows, calls), user, last.at, later);
    }
  }

  /** Main result: after an ended session its user has no privilege, in any run, before a new request succeeds. */
  lemma {:induction false} EndedPrivilegeStaysGone(rows: seq<Row>, user: string, id: nat, now: Clock,
        calls: seq<Call>, later: Clock)
    requires OneLive(rows, now) && Step(rows, End(user, id), now).1 == Done
    requires ClockedUntil(now, calls, later) && NoNewSession(Step(rows, End(user, id), now).0, calls, user)
    ensures var rows' := Run(Step(rows, End(user, id), now).0, calls);
            Step(rows', GetActive(user), later).1 == NotActive &&
              Step(rows', CheckAndRecord(user), later).1 == NotActive
  {
    var ended := Step(rows, End(user, id), now).0;
    EndedIff(rows, user, id, now);
    assert NoneLive(ended, user, now);
    NoneLiveThroughout(ended, user, now, calls, later);
    FirstNone(Run(ended, calls), LiveFor(user, later));
  }

  /** The cleanup ends exactly the open rows that have stopped counting, at that moment. */
  lemma CleanupEndsOverdue(rows: seq<Row>, now: Clock, i: nat)
    requires i < |rows|
    ensures var rows' := Step(rows, ExpireOverdue, now).0;
            && |rows'| == |rows|
            && rows'[i] == rows[i].(endedAt := if rows[i].endedAt.None? && !Unexpired(rows[i].expiresAt, now)
                                               then Some(now) else rows[i].endedAt)
            && (rows'[i].endedAt.None? ==> Unexpired(rows[i].expiresAt, now))
  {
    OverdueIsComplement(rows[i].expiresAt, now);
  }
}
