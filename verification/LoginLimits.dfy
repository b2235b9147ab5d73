/** The login service and the limiter together: how many passwords can be tried from one address. */
module LoginLimits {
  import opened Common
  import opened Timestamps
  import opened Database
  import opened Auth
  import opened Identity
  import RateLimiter

  /** What one call is to the limiter. */
  function EventOf(s: State, call: Call): seq<RateLimiter.Event> {
    match call.op
    case Login(email, passwordOk, ip, _, _) =>
      [RateLimiter.Attempt(ip, VerdictOf(s.tables, email, passwordOk), call.at.ticks)]
    case CleanupTick => [RateLimiter.Tick(call.at.ticks)]
    case _ => []
  }

  function EventsOf(calls: seq<Call>): seq<RateLimiter.Event> {
    if calls == [] then []
    else EventsOf(calls[..|calls| - 1]) + EventOf(Run(START, calls[..|calls| - 1]), calls[|calls| - 1])
  }

  /** A login from the address that was told its credentials are wrong. */
  predicate Rejects(s: State, call: Call, ip: string) {
    call.op.Login? && call.op.ip == ip && Step(s, call.op, call.at).1 == FromAuth(InvalidCredentials)
  }

  /** A login from the address that got further than its credentials, or a cleanup. */
  predicate Clears(s: State, call: Call, ip: string) {
    || call.op.CleanupTick?
    || (call.op.Login? && call.op.ip == ip &&
      Step(s, call.op, call.at).1 !in {FromAuth(InvalidCredentials), FromAuth(RateLimited)})
  }

  function Rejections(calls: seq<Call>, ip: string): nat {
    if calls == [] then 0
    else
      var init := calls[..|calls| - 1];
      Rejections(init, ip) + Bit(Rejects(Run(START, init), calls[|calls| - 1], ip))
  }

  function Clearings(calls: seq<Call>, ip: string): nat {
    if calls == [] then 0
    else
      var init := calls[..|calls| - 1];
      Clearings(init, ip) + Bit(Clears(Run(START, init), calls[|calls| - 1], ip))
  }

  ghost predicate InOrder(calls: seq<Call>) {
    forall i, j :: 0 <= i < j < |calls| ==> calls[i].at.ticks <= calls[j].at.ticks
  }

  lemma AfterSnoc(events: seq<RateLimiter.Event>, e: RateLimiter.Event)
    ensures RateLimiter.After(events + [e]) == RateLimiter.Happen(RateLimiter.After(events), e)
  {
    assert (events + [e])[..|events|] == events;
  }

  /** In every run of all services the limiter's table is what the logins and cleanups alone make of it. */
  lemma {:induction false} LimiterFollowsLogins(calls: seq<Call>)
    ensures Run(START, calls).limiter == RateLimiter.After(EventsOf(calls))
  {
    if calls != [] {
      var init, last := calls[..|calls| - 1], calls[|calls| - 1];
      LimiterFollowsLogins(init);
      var event := EventOf(Run(START, init), last);
      if event != [] {
        AfterSnoc(EventsOf(init), event[0]);
        assert event == [event[0]];
      } else {
        assert EventsOf(init) + [] == EventsOf(init);
      }
      StepIsEvent(Run(START, init), last);
    }
  }

  lemma StepIsEvent(s: State, call: Call)
    ensures Step(s, call.op, call.at).0.limiter
         == if EventOf(s, call) == [] then s.limiter else RateLimiter.Happen(s.limiter, EventOf(s, call)[0])
  {
  }

  /** Counting over a longer history counts the same over its beginning. */
  lemma {:induction false} CountsOfPrefix(events: seq<RateLimiter.Event>, e: RateLimiter.Event, ip: string, n: nat)
    requires n <= |events|
    ensures RateLimiter.Failures(events + [e], ip, n) == RateLimiter.Failures(events, ip, n)
    ensures RateLimiter.Discards(events + [e], ip, n) == RateLimiter.Discards(events, ip, n)
  {
    if n > 0 {
      CountsOfPrefix(events, e, ip, n - 1);
      assert (events + [e])[..n - 1] == events[..n - 1];
    }
  }

  lemma CountsSnoc(events: seq<RateLimiter.Event>, e: RateLimiter.Event, ip: string)
    ensures var es, longer := RateLimiter.After(events), events + [e];
            var mine := e.Attempt? && e.ip == ip && !RateLimiter.Blocked(es, ip, e.at);
            && RateLimiter.Failures(longer, ip, |longer|)
               == RateLimiter.Failures(events, ip, |events|) + Bit(mine && e.verdict == RateLimiter.Rejected)
            && RateLimiter.Discards(longer, ip, |longer|)
               == RateLimiter.Discards(events, ip, |events|)
                + Bit(e.Tick? || (mine && e.verdict == RateLimiter.Accepted))
  {
    CountsOfPrefix(events, e, ip, |events|);
    assert (events + [e])[..|events|] == events;
  }

  lemma RepliesTell(s: State, call: Call, ip: string)
    ensures Rejects(s, call, ip) <==>
            call.op.Login? && call.op.ip == ip && !RateLimiter.Blocked(s.limiter, ip, call.at.ticks)
            && VerdictOf(s.tables, call.op.email, call.op.passwordOk) == RateLimiter.Rejected
    ensures Clears(s, call, ip) <==>
            call.op.CleanupTick?
            || (call.op.Login? && call.op.ip == ip && !RateLimiter.Blocked(s.limiter, ip, call.at.ticks)
                && VerdictOf(s.tables, call.op.email, call.op.passwordOk) == RateLimiter.Accepted)
  {
  }

  /** What clients are told is what the limiter counts. */
  lemma {:induction false} RepliesAreCounts(calls: seq<Call>, ip: string)
    ensures Rejections(calls, ip) == RateLimiter.Failures(EventsOf(calls), ip, |EventsOf(calls)|)
    ensures Clearings(calls, ip) == RateLimiter.Discards(EventsOf(calls), ip, |EventsOf(calls)|)
  {
    if calls != [] {
      var init, last := calls[..|calls| - 1], calls[|calls| - 1];
      var s := Run(START, init);
      RepliesAreCounts(init, ip);
      LimiterFollowsLogins(init);
      RepliesTell(s, last, ip);
      var event := EventOf(s, last);
      if event != [] {
        CountsSnoc(EventsOf(init), event[0], ip);
        assert event == [event[0]];
      } else {
        assert EventsOf(init) + [] == EventsOf(init);
      }
    }
  }

  ghost predicate Within(events: seq<RateLimiter.Event>, from: nat, start: int, end: int) {
    forall i :: from <= i < |events| ==> start <= events[i].at <= end
  }

  lemma WithinSnoc(events: seq<RateLimiter.Event>, next: seq<RateLimiter.Event>, from: nat, start: int, end: int,
        now: int)
    requires Within(events, from, start, end) && start <= now && end <= now
    requires |next| <= 1 && (next != [] ==> next[0].at == now)
    ensures Within(events + next, from, start, now)
  {
  }

  /** The events of the next call: none, or one at its time. */
  lemma EventsNext(calls: seq<Call>, m: nat) returns (next: seq<RateLimiter.Event>)
    requires m < |calls|
    ensures EventsOf(calls[..m + 1]) == EventsOf(calls[..m]) + next
    ensures |next| <= 1 && (next != [] ==> next[0].at == calls[m].at.ticks)
  {
    assert calls[..m + 1][..m] == calls[..m];
    next := EventOf(Run(START, calls[..m]), calls[m]);
  }

  /** The events of a window lie between its first call and its last. */
  lemma {:induction false} EventsInTime(calls: seq<Call>, i: nat, n: nat)
    requires InOrder(calls) && i < n <= |calls|
    ensures |EventsOf(calls[..i])| <= |EventsOf(calls[..n])|
    ensures Within(EventsOf(calls[..n]), |EventsOf(calls[..i])|, calls[i].at.ticks, calls[n - 1].at.ticks)
  {
    hide Run, EventOf;
    var m, from, start := n - 1, |EventsOf(calls[..i])|, calls[i].at.ticks;
    var next := EventsNext(calls, m);
    if i < m {
      EventsInTime(calls, i, m);
      WithinSnoc(EventsOf(calls[..m]), next, from, start, calls[m - 1].at.ticks, calls[m].at.ticks);
    } else {
      WithinSnoc(EventsOf(calls[..m]), next, from, start, start, calls[m].at.ticks);
    }
  }

  lemma {:induction false} EventsInOrder(calls: seq<Call>, n: nat)
    requires InOrder(calls) && n <= |calls|
    ensures RateLimiter.InTime(EventsOf(calls[..n]))
  {
    if n > 0 {
      var m := n - 1;
      assert calls[..n][..m] == calls[..m];
      EventsInOrder(calls, m);
      if m > 0 {
        EventsInTime(calls, 0, m);
        assert EventsOf(calls[..0]) == [];
      }
    }
  }

  /** The limiter's counts of a run's beginning are those of the run as far as its events reach. */
  lemma {:induction false} CountsOfBeginning(calls: seq<Call>, ip: string, i: nat, n: nat)
    requires i <= n <= |calls|
    ensures |EventsOf(calls[..i])| <= |EventsOf(calls[..n])|
    ensures RateLimiter.Failures(EventsOf(calls[..n]), ip, |EventsOf(calls[..i])|) == Rejections(calls[..i], ip)
    ensures RateLimiter.Discards(EventsOf(calls[..n]), ip, |EventsOf(calls[..i])|) == Clearings(calls[..i], ip)
  {
    if i == n {
      RepliesAreCounts(calls[..n], ip);
    } else {
      var m := n - 1;
      assert calls[..n][..m] == calls[..m];
      CountsOfBeginning(calls, ip, i, m);
      var event := EventOf(Run(START, calls[..m]), calls[m]);
      if event != [] {
        CountsOfPrefix(EventsOf(calls[..m]), event[0], ip, |EventsOf(calls[..i])|);
        assert event == [event[0]];
      } else {
        assert EventsOf(calls[..m]) + [] == EventsOf(calls[..m]);
      }
    }
  }

  lemma Monotone(a: int, b: int)
    requires a <= b
    ensures a / RateLimiter.LOCKOUT_SHORT <= b / RateLimiter.LOCKOUT_SHORT
  {
  }

  /** The limiter's bound for the events from `from` on, all between two instants. */
  lemma LateFailuresAreBounded(events: seq<RateLimiter.Event>, ip: string, from: nat, start: int, end: int)
    requires RateLimiter.InTime(events) && from <= |events| && start <= end && Within(events, from, start, end)
    ensures RateLimiter.Failures(events, ip, |events|) - RateLimiter.Failures(events, ip, from)
            <= 3 * ((end - start) / RateLimiter.LOCKOUT_SHORT + 1)
             + 2 * (RateLimiter.Discards(events, ip, |events|) - RateLimiter.Discards(events, ip, from) + 1)
  {
    if from < |events| {
      RateLimiter.FailuresAreBounded(events, ip, from, |events|);
      Monotone(events[|events| - 1].at - events[from].at, end - start);
    } else {
      Monotone(0, end - start);
    }
  }

  /**
   Main result: in any window of any run of all services an address is told at most so often that its
   credentials are wrong: three times per started five minutes, twice more for each time one of its logins was
   accepted or a cleanup ran, and twice more.
   */
  lemma GuessesAreBounded(calls: seq<Call>, ip: string, i: nat, n: nat)
    requires InOrder(calls) && i < n <= |calls|
    ensures var span := calls[n - 1].at.ticks - calls[i].at.ticks;
            Rejections(calls[..n], ip) - Rejections(calls[..i], ip)
            <= 3 * (span / RateLimiter.LOCKOUT_SHORT + 1)
             + 2 * (Clearings(calls[..n], ip) - Clearings(calls[..i], ip) + 1)
  {
    hide Run, EventsOf, Rejections, Clearings;
    CountsOfBeginning(calls, ip, i, n);
    CountsOfBeginning(calls, ip, n, n);
    EventsInTime(calls, i, n);
    EventsInOrder(calls, n);
    LateFailuresAreBounded(EventsOf(calls[..n]), ip, |EventsOf(calls[..i])|, calls[i].at.ticks, calls[n - 1].at.ticks);
  }

  // ---- What a login is told ----------------------------------------------------------------------------------------

  /** The e-mail address is an active account's, and the password is its password. */
  ghost predicate KnowsAccount(s: State, op: Op)
    requires op.Login?
  {
    op.passwordOk && exists u :: u in s.tables.users && u.email == op.email && u.isActive
  }

  lemma KnownIsAccepted(s: State, op: Op)
    requires op.Login?
    ensures VerdictOf(s.tables, op.email, op.passwordOk) == RateLimiter.Accepted <==> KnowsAccount(s, op)
  {
    if UserByEmail(s.tables, op.email).Some? {
      assert s.tables.users[First(s.tables.users, ActiveWithEmail(op.email)).value] in s.tables.users;
    }
  }

  /**
   Main result: the limiter comes first, and a blocked login changes nothing; then the credentials, and wrong ones
   change nothing but the count; a login that knows its account is neither, clears the count and is noted there.
   */
  lemma LoginReplies(s: State, op: Op, time: Time)
    requires op.Login?
    ensures var (s', reply) := Step(s, op, time);
            var blocked := RateLimiter.Blocked(s.limiter, op.ip, time.ticks);
            && (reply == FromAuth(RateLimited) <==> blocked)
            && (blocked ==> s' == s)
            && (reply == FromAuth(InvalidCredentials) <==> !blocked && !KnowsAccount(s, op))
            && (!blocked && !KnowsAccount(s, op) ==>
                  s' == s.(limiter := RateLimiter.Failed(s.limiter, op.ip, time.ticks)))
            && (!blocked && KnowsAccount(s, op) ==>
              op.ip !in s'.limiter && Noted(s.tables, s'.tables, op.email, time.now))
  {
    KnownIsAccepted(s, op);
    if KnowsAccount(s, op) {
      var u := UserByEmail(s.tables, op.email).value;
      assert Noted(s.tables, s.tables.(users := WithLastLogin(s.tables.users, u.id, time.now)), op.email, time.now);
    }
  }

  /** Exactly the account that is found by the address has its last login set. */
  ghost predicate Noted(t: Tables, t': Tables, email: string, now: Instant) {
    && UserByEmail(t, email).Some? && |t'.users| == |t.users|
    && forall i :: 0 <= i < |t.users| ==>
         t'.users[i] == if t.users[i].id == UserByEmail(t, email).value.id then t.users[i].(lastLogin := Some(now))
                        else t.users[i]
  }
}
