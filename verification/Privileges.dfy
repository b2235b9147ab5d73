/** Accounts and privileged sessions together: what becomes of a privileged session when its account is closed. */
module Privileges {
  import opened Common
  import opened Timestamps
  import opened Database
  import Auth
  import Identity
  import Pim
  import SessionHistory
  import Users

  datatype Panel = Panel(identity: Auth.State, rows: seq<Pim.Row>)

  /** A call of the account services, or of the privileged sessions' service. */
  datatype Op = Account(op: Identity.Op) | Privilege(call: Pim.Op)

  datatype Call = Call(op: Op, at: Auth.Time)

  const EMPTY := Panel(Identity.START, [])

  predicate HasSession(t: Tables, id: string) {
    exists i :: 0 <= i < |t.sessions| && t.sessions[i].id == id
  }

  /** A new privileged session refers to its account and to its login session, in whatever state those rows are. */
  function Grounded(t: Tables, op: Pim.Op): Pim.Op {
    if op.Request? then op.(known := HasUser(t, op.user) && HasSession(t, op.sessionId)) else op
  }

  function Step(p: Panel, call: Call): Panel {
    match call.op
    case Account(op) => p.(identity := Identity.Step(p.identity, op, call.at).0)
    case Privilege(op) => p.(rows := Pim.Step(p.rows, Grounded(p.identity.tables, op), call.at.now).0)
  }

  function Run(p: Panel, calls: seq<Call>): Panel {
    if calls == [] then p else Step(Run(p, calls[..|calls| - 1]), calls[|calls| - 1])
  }

  // ---- The privileged sessions of a run ----------------------------------------------------------------------------

  /** What a call of the panel is to the privileged sessions' service. */
  function PimCall(p: Panel, call: Call): seq<Pim.Call> {
    match call.op
    case Account(_) => []
    case Privilege(op) => [Pim.Call(Grounded(p.identity.tables, op), call.at.now)]
  }

  function PimCalls(p: Panel, calls: seq<Call>): seq<Pim.Call> {
    if calls == [] then []
    else PimCalls(p, calls[..|calls| - 1]) + PimCall(Run(p, calls[..|calls| - 1]), calls[|calls| - 1])
  }

  lemma PimRunSnoc(rows: seq<Pim.Row>, calls: seq<Pim.Call>, c: Pim.Call)
    ensures Pim.Run(rows, calls + [c]) == Pim.Step(Pim.Run(rows, calls), c.op, c.at).0
  {
    assert (calls + [c])[..|calls|] == calls;
  }

  /** In every run the privileged sessions are what their own calls make of them. */
  lemma {:induction false} RowsFollowPim(p: Panel, calls: seq<Call>)
    ensures Run(p, calls).rows == Pim.Run(p.rows, PimCalls(p, calls))
  {
    hide Pim.Step, Identity.Step;
    if calls != [] {
      var init, last := calls[..|calls| - 1], calls[|calls| - 1];
      RowsFollowPim(p, init);
      if last.op.Privilege? {
        PimRunSnoc(p.rows, PimCalls(p, init), PimCall(Run(p, init), last)[0]);
      } else {
        assert PimCalls(p, init) + [] == PimCalls(p, init);
      }
    }
  }

  ghost predicate Clocked(start: Clock, calls: seq<Call>, end: Clock) {
    && AtOrBefore(start, end)
    && (forall i :: 0 <= i < |calls| ==> AtOrBefore(start, calls[i].at.now) && AtOrBefore(calls[i].at.now, end))
    && (forall i, j :: 0 <= i < j < |calls| ==> AtOrBefore(calls[i].at.now, calls[j].at.now))
  }

  /** Nobody ends this session as the account. */
  ghost predicate NeverEnded(calls: seq<Call>, user: string, id: nat) {
    forall i :: 0 <= i < |calls| ==> calls[i].op != Privilege(Pim.End(user, id))
  }

  ghost predicate ComesFrom(c: Pim.Call, calls: seq<Call>) {
    exists i :: 0 <= i < |calls| && SameCall(c, calls[i])
  }

  ghost predicate Among(pim: seq<Pim.Call>, calls: seq<Call>) {
    forall k :: 0 <= k < |pim| ==> ComesFrom(pim[k], calls)
  }

  ghost predicate SameCall(c: Pim.Call, call: Call) {
    call.op.Privilege? && c.at == call.at.now && (c.op == call.op.call || (c.op.Request? && call.op.call.Request?))
  }

  ghost predicate PimInOrder(pim: seq<Pim.Call>) {
    forall j, k :: 0 <= j < k < |pim| ==> AtOrBefore(pim[j].at, pim[k].at)
  }

  lemma PimCallsSnoc(pim: seq<Pim.Call>, init: seq<Call>, p: Panel, last: Call)
    requires Among(pim, init) && PimInOrder(pim)
    requires forall i :: 0 <= i < |init| ==> AtOrBefore(init[i].at.now, last.at.now)
    ensures Among(pim + PimCall(p, last), init + [last]) && PimInOrder(pim + PimCall(p, last))
  {
    var pim', calls := pim + PimCall(p, last), init + [last];
    forall k | 0 <= k < |pim'| ensures ComesFrom(pim'[k], calls) {
      if k < |pim| {
        assert ComesFrom(pim[k], init);
        var i :| 0 <= i < |init| && SameCall(pim[k], init[i]);
        assert SameCall(pim'[k], calls[i]);
      } else {
        assert SameCall(pim'[k], calls[|init|]);
      }
    }
  }

  lemma {:induction false} PimCallsAreCalls(p: Panel, calls: seq<Call>)
    requires forall i, j :: 0 <= i < j < |calls| ==> AtOrBefore(calls[i].at.now, calls[j].at.now)
    ensures Among(PimCalls(p, calls), calls) && PimInOrder(PimCalls(p, calls))
  {
    hide Among, PimInOrder, PimCall, Step;
    if calls == [] {
      NoPimCalls();
    } else {
      var init, last := calls[..|calls| - 1], calls[|calls| - 1];
      PimCallsAreCalls(p, init);
      PimCallsSnoc(PimCalls(p, init), init, Run(p, init), last);
      assert calls == init + [last];
    }
  }

  lemma NoPimCalls()
    ensures Among([], []) && PimInOrder([])
  {
  }

  // ---- A closed account's privilege --------------------------------------------------------------------------------

  lemma LastsFrom(rows: seq<Pim.Row>, user: string, id: nat, expiry: Instant, start: Clock, calls: seq<Pim.Call>,
        later: Clock)
    requires Pim.OneLive(rows, start) && Pim.IsOpen(rows, id, user, expiry) && Pim.ClockedUntil(start, calls, later)
    requires forall i :: 0 <= i < |calls| ==> calls[i].op != Pim.End(user, id)
    ensures Pim.ActiveId(Pim.Run(rows, calls), user, later) == Some(id) <==> !DateBefore(expiry, later)
  {
    var rows' := Pim.Run(rows, calls);
    Pim.OneLiveThroughout(rows, start, calls, later);
    Pim.RowKeepsExpiry(rows, calls, id);
    FilterComparesDates(expiry, later);
    if !DateBefore(expiry, later) {
      Pim.OpenRowKept(rows, calls, id, user, expiry, later);
      FirstSome(rows', Pim.LiveFor(user, later), id);
    }
  }

  /** Whatever the account services do, closing the account included, a session lasts through its expiry date. */
  lemma PrivilegeLasts(p: Panel, user: string, id: nat, expiry: Instant, start: Clock, calls: seq<Call>, later: Clock)
    requires Pim.OneLive(p.rows, start) && Pim.IsOpen(p.rows, id, user, expiry)
    requires Clocked(start, calls, later) && NeverEnded(calls, user, id)
    ensures Pim.ActiveId(Run(p, calls).rows, user, later) == Some(id) <==> !DateBefore(expiry, later)
  {
    var pim := PimCalls(p, calls);
    RowsFollowPim(p, calls);
    PimCallsAreCalls(p, calls);
    forall k | 0 <= k < |pim|
      ensures AtOrBefore(start, pim[k].at) && AtOrBefore(pim[k].at, later) && pim[k].op != Pim.End(user, id)
    {
      assert ComesFrom(pim[k], calls);
      var i :| 0 <= i < |calls| && SameCall(pim[k], calls[i]);
    }
    LastsFrom(p.rows, user, id, expiry, start, pim, later);
  }

  /** Every row's text is that of an expiry no more than eight hours after the time it was asked for. */
  ghost predicate Stamped(row: Pim.Row, now: Clock, asked: Clock) {
    && AtOrBefore(asked, now) && 0 <= row.minutes <= Pim.MAX_DURATION
    && row.expiresAt == Rfc3339(PlusMinutes(asked, row.minutes))
  }

  ghost predicate HasStamp(row: Pim.Row, now: Clock) {
    exists asked: Clock :: Stamped(row, now, asked)
  }

  ghost predicate AllStamped(rows: seq<Pim.Row>, now: Clock) {
    forall i :: 0 <= i < |rows| ==> HasStamp(rows[i], now)
  }

  /** Nothing but the two columns matters, and a later time does not. */
  lemma StampedLater(row: Pim.Row, row': Pim.Row, now: Clock, later: Clock)
    requires HasStamp(row, now) && AtOrBefore(now, later)
    requires row'.minutes == row.minutes && row'.expiresAt == row.expiresAt
    ensures HasStamp(row', later)
  {
    var asked: Clock :| Stamped(row, now, asked);
    assert Stamped(row', later, asked);
  }

  lemma StepStamps(rows: seq<Pim.Row>, op: Pim.Op, now: Clock, at: Clock)
    requires AllStamped(rows, now) && AtOrBefore(now, at)
    ensures AllStamped(Pim.Step(rows, op, at).0, at)
  {
    hide Pim.Step, HasStamp;
    var rows' := Pim.Step(rows, op, at).0;
    forall i | 0 <= i < |rows'| ensures HasStamp(rows'[i], at) {
      if i < |rows| {
        StepKeepsStamp(rows, op, at, i);
        StampedLater(rows[i], rows'[i], now, at);
      } else {
        NewRowIsStamped(rows, op, at, i);
      }
    }
  }

  lemma NewRowIsStamped(rows: seq<Pim.Row>, op: Pim.Op, at: Clock, i: nat)
    requires |rows| <= i < |Pim.Step(rows, op, at).0|
    ensures HasStamp(Pim.Step(rows, op, at).0[i], at)
  {
    assert Stamped(Pim.Step(rows, op, at).0[i], at, at);
  }

  lemma StepKeepsStamp(rows: seq<Pim.Row>, op: Pim.Op, at: Clock, i: nat)
    requires i < |rows|
    ensures var rows' := Pim.Step(rows, op, at).0;
            i < |rows'| && rows'[i].minutes == rows[i].minutes && rows'[i].expiresAt == rows[i].expiresAt
  {
  }

  lemma {:induction false} RunStamps(calls: seq<Call>, start: Clock, now: Clock)
    requires Clocked(start, calls, now)
    ensures AllStamped(Run(EMPTY, calls).rows, now)
  {
    hide Pim.Step, Identity.Step, HasStamp;
    if calls != [] {
      var init, last := calls[..|calls| - 1], calls[|calls| - 1];
      RunStamps(init, start, last.at.now);
      var p := Run(EMPTY, init);
      if last.op.Privilege? {
        StepStamps(p.rows, Grounded(p.identity.tables, last.op.call), last.at.now, last.at.now);
      }
      AllStampedLater(Run(EMPTY, calls).rows, last.at.now, now);
    }
  }

  lemma AllStampedLater(rows: seq<Pim.Row>, now: Clock, later: Clock)
    requires AllStamped(rows, now) && AtOrBefore(now, later)
    ensures AllStamped(rows, later)
  {
    forall i | 0 <= i < |rows| ensures HasStamp(rows[i], later) {
      StampedLater(rows[i], rows[i], now, later);
    }
  }

  /** Eight hours from `asked` never reach past the day after a later `now`. */
  lemma ExpiryIsNear(asked: Clock, minutes: int, now: Clock)
    requires AtOrBefore(asked, now) && 0 <= minutes <= 1440
    ensures !DateBefore(NextDay(now), PlusMinutes(asked, minutes))
  {
    NextDayMonotone(asked, now);
  }

  lemma NextDayMonotone(a: Clock, b: Clock)
    requires !DateBefore(b, a)
    ensures !DateBefore(NextDay(b), NextDay(a))
  {
  }

  /** In every reachable state, the sessions' own invariant and the origin of their expiries. */
  lemma Reachable(calls: seq<Call>, start: Clock, now: Clock)
    requires Clocked(start, calls, now)
    ensures Pim.OneLive(Run(EMPTY, calls).rows, now) && AllStamped(Run(EMPTY, calls).rows, now)
  {
    var pim := PimCalls(EMPTY, calls);
    RowsFollowPim(EMPTY, calls);
    PimCallsAreCalls(EMPTY, calls);
    forall k | 0 <= k < |pim| ensures AtOrBefore(start, pim[k].at) && AtOrBefore(pim[k].at, now) {
      assert ComesFrom(pim[k], calls);
      var i :| 0 <= i < |calls| && SameCall(pim[k], calls[i]);
    }
    Pim.AtMostOneLive(start, pim, now);
    RunStamps(calls, start, now);
  }

  /** The time of the closing call, in a run that goes on after it. */
  ghost predicate ClosedAt(before: seq<Call>, closing: Call, after: seq<Call>, start: Clock, later: Clock) {
    && closing.op.Account? && closing.op.op.Deactivate?
    && Identity.Step(Run(EMPTY, before).identity, closing.op.op, closing.at).1 == Identity.FromUsers(Users.Ok)
    && Clocked(start, before, closing.at.now) && Clocked(closing.at.now, after, later)
  }

  /**
   Main result: closing an account leaves its privileged session as it is. Unless it is ended by name, it is the
   active one as long as the date is not past its expiry's, and that is at most the day after the closing.
   */
  lemma ClosedAccountKeepsPrivilege(before: seq<Call>, closing: Call, after: seq<Call>, id: nat, start: Clock,
        later: Clock)
    returns (expiry: Instant)
    requires ClosedAt(before, closing, after, start, later)
    requires Pim.ActiveId(Run(EMPTY, before).rows, closing.op.op.userId, closing.at.now) == Some(id)
    requires NeverEnded(after, closing.op.op.userId, id)
    ensures var user, closed := closing.op.op.userId, Step(Run(EMPTY, before), closing);
            && SessionHistory.Closed(closed.identity.tables, user)
            && closed.rows[id].expiresAt == Rfc3339(expiry) && !DateBefore(NextDay(closing.at.now), expiry)
            && (Pim.ActiveId(Run(closed, after).rows, user, later) == Some(id) <==> !DateBefore(expiry, later))
  {
    var p, user := Run(EMPTY, before), closing.op.op.userId;
    var closed := Step(p, closing);
    SessionHistory.DeactivationCloses(p.identity.tables, user, closing.op.op.requestorId, closing.at.now);
    Reachable(before, start, closing.at.now);
    assert HasStamp(p.rows[id], closing.at.now);
    var asked: Clock :| Stamped(p.rows[id], closing.at.now, asked);
    expiry := PlusMinutes(asked, p.rows[id].minutes);
    ExpiryIsNear(asked, p.rows[id].minutes, closing.at.now);
    PrivilegeLasts(closed, user, id, expiry, closing.at.now, after, later);
  }
}
