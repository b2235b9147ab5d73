/**
 Logins that overlap. A login asks the limiter, checks the password for a while, and only then tells the limiter
 what it found; other logins of the same address may ask and answer in between. Each ask and each answer is one step.
 */
module LoginFlights {
  import opened Common
  import opened RateLimiter

  datatype Act = Ask(ip: string, at: int) | Answer(ip: string, verdict: Verdict, at: int) | Sweep(at: int)

  /** `flying` counts the logins of an address that were let past and have not been answered. */
  datatype Desk = Desk(entries: Entries, flying: map<string, nat>)

  function Flying(d: Desk, ip: string): nat {
    if ip in d.flying then d.flying[ip] else 0
  }

  function Perform(d: Desk, a: Act): Desk {
    match a
    case Ask(ip, at) =>
      if Blocked(d.entries, ip, at) then d else d.(flying := d.flying[ip := Flying(d, ip) + 1])
    case Answer(ip, verdict, at) =>
      if Flying(d, ip) == 0 then d
      else Desk(Judged(d.entries, ip, verdict, at), d.flying[ip := Flying(d, ip) - 1])
    case Sweep(at) => d.(entries := Cleaned(d.entries, at))
  }

  const IDLE := Desk(map[], map[])

  function Performed(acts: seq<Act>): Desk {
    if acts == [] then IDLE else Perform(Performed(acts[..|acts| - 1]), acts[|acts| - 1])
  }

  lemma PerformedNext(acts: seq<Act>, n: nat)
    requires n < |acts|
    ensures Performed(acts[..n + 1]) == Perform(Performed(acts[..n]), acts[n])
  {
    assert acts[..n + 1][..n] == acts[..n];
  }

  lemma PerformedSnoc(acts: seq<Act>, a: Act)
    ensures Performed(acts + [a]) == Perform(Performed(acts), a)
  {
    assert (acts + [a])[..|acts|] == acts;
  }

  /** Asked and answered with no other login of the address under way, a login is the single step it is elsewhere. */
  lemma AloneIsOneStep(d: Desk, ip: string, verdict: Verdict, at: int)
    requires Flying(d, ip) == 0
    ensures var d' := Perform(Perform(d, Ask(ip, at)), Answer(ip, verdict, at));
            d'.entries == Login(d.entries, ip, verdict, at) && Flying(d', ip) == 0
  {
  }

  ghost predicate InOrder(acts: seq<Act>) {
    forall i, j :: 0 <= i < j < |acts| ==> acts[i].at <= acts[j].at
  }

  /** At no point are more than `m` logins of the address under way. */
  ghost predicate AtMost(acts: seq<Act>, ip: string, m: nat) {
    forall n :: 0 <= n <= |acts| ==> Flying(Performed(acts[..n]), ip) <= m
  }

  ghost predicate OfAddress(a: Act, ip: string) {
    !a.Sweep? && a.ip == ip
  }

  /** Step `i` is an ask or answer of the address at the very instant its lock ends. */
  ghost predicate AtEnd(acts: seq<Act>, ip: string, i: nat) {
    && i < |acts| && OfAddress(acts[i], ip)
    && ip in Performed(acts[..i]).entries && Performed(acts[..i]).entries[ip].lockedUntil == Some(acts[i].at)
  }

  ghost predicate NoneAtEnd(acts: seq<Act>, ip: string) {
    forall i :: 0 <= i < |acts| ==> !AtEnd(acts, ip, i)
  }

  /** What overlapping logins keep. While a lock lasts nobody new is let past, so what is under way is all there is. */
  ghost predicate Calm(d: Desk, ip: string, m: nat, now: int) {
    && Sound(d.entries, now)
    && AttemptsOf(d.entries, ip) <= m + 2
    && (ip in d.entries && d.entries[ip].lockedUntil.Some? && now <= d.entries[ip].lockedUntil.value ==>
          AttemptsOf(d.entries, ip) + Flying(d, ip) <= m + 2)
  }

  lemma CalmStep(d: Desk, a: Act, ip: string, m: nat, now: int)
    requires Calm(d, ip, m, now) && now <= a.at && Flying(d, ip) <= m
    requires OfAddress(a, ip) ==> !(ip in d.entries && d.entries[ip].lockedUntil == Some(a.at))
    ensures Calm(Perform(d, a), ip, m, a.at)
  {
  }

  lemma {:induction false} CalmHolds(acts: seq<Act>, ip: string, m: nat, n: nat)
    requires InOrder(acts) && AtMost(acts, ip, m) && NoneAtEnd(acts, ip) && n <= |acts|
    ensures n == 0 || Calm(Performed(acts[..n]), ip, m, acts[n - 1].at)
  {
    hide Perform, Calm;
    if n > 0 {
      CalmHolds(acts, ip, m, n - 1);
      PerformedNext(acts, n - 1);
      assert !AtEnd(acts, ip, n - 1);
      if n == 1 {
        IdleIsCalm(ip, m, acts[0].at);
      }
      CalmStep(Performed(acts[..n - 1]), acts[n - 1], ip, m, if n == 1 then acts[0].at else acts[n - 2].at);
    }
  }

  lemma IdleIsCalm(ip: string, m: nat, now: int)
    ensures Calm(IDLE, ip, m, now)
  {
  }

  /**
   Main result: with at most `m` logins of an address under way, none of them asking or answered at the very
   instant the address's lock ends, the address is never counted past `m + 2` failures.
   */
  lemma CountIsBounded(acts: seq<Act>, ip: string, m: nat, n: nat)
    requires InOrder(acts) && AtMost(acts, ip, m) && NoneAtEnd(acts, ip) && n <= |acts|
    ensures AttemptsOf(Performed(acts[..n]).entries, ip) <= m + 2
  {
    CalmHolds(acts, ip, m, n);
  }

  /** With seven or fewer under way the hour's lock is therefore never set. */
  lemma HourNeedsEight(acts: seq<Act>, ip: string, m: nat, n: nat)
    requires InOrder(acts) && AtMost(acts, ip, m) && NoneAtEnd(acts, ip) && 0 < n <= |acts| && m <= 7
    ensures var es := Performed(acts[..n]).entries;
            Blocked(es, ip, acts[n - 1].at) ==> Remaining(es, ip, acts[n - 1].at).value <= LOCKOUT_SHORT
  {
    CalmHolds(acts, ip, m, n);
  }

  // ---- The bound is reached ----------------------------------------------------------------------------------------

  const HOST := "10.0.0.7"

  function AskAt0(): Act {
    Ask(HOST, 0)
  }

  function FailAt0(): Act {
    Answer(HOST, Rejected, 0)
  }

  /** Two single failures, then `m` logins that ask before any of them is answered, all at one instant. */
  function Wave(m: nat, answered: nat): seq<Act> {
    if answered > 0 then Wave(m, answered - 1) + [FailAt0()]
    else if m > 0 then Wave(m - 1, 0) + [AskAt0()]
    else [] + [AskAt0()] + [FailAt0()] + [AskAt0()] + [FailAt0()]
  }

  function WaveDesk(failures: nat, under: nat): Desk {
    Desk(Burst(failures), map[HOST := under])
  }

  lemma WaveStart()
    ensures Performed(Wave(0, 0)) == WaveDesk(2, 0)
  {
    var start: seq<Act> := [];
    PerformedSnoc(start, AskAt0());
    PerformedSnoc(start + [AskAt0()], FailAt0());
    PerformedSnoc(start + [AskAt0()] + [FailAt0()], AskAt0());
    PerformedSnoc(start + [AskAt0()] + [FailAt0()] + [AskAt0()], FailAt0());
  }

  lemma WaveAsks(under: nat)
    ensures Perform(WaveDesk(2, under), AskAt0()) == WaveDesk(2, under + 1)
  {
  }

  lemma WaveAnswers(failures: nat, under: nat)
    requires failures >= 2 && under > 0
    ensures Perform(WaveDesk(failures, under), FailAt0()) == WaveDesk(failures + 1, under - 1)
  {
  }

  lemma {:induction false} WaveRuns(m: nat, answered: nat)
    requires answered <= m
    ensures Performed(Wave(m, answered)) == WaveDesk(2 + answered, m - answered)
    decreases m, answered
  {
    hide Perform, WaveDesk, Performed;
    if answered > 0 {
      WaveRuns(m, answered - 1);
      PerformedSnoc(Wave(m, answered - 1), FailAt0());
      WaveAnswers(1 + answered, m - answered + 1);
    } else if m > 0 {
      WaveRuns(m - 1, 0);
      PerformedSnoc(Wave(m - 1, 0), AskAt0());
      WaveAsks(m - 1);
    } else {
      WaveStart();
    }
  }

  /** For every number of logins under way the count of the bound is reached. */
  lemma BoundIsReached(m: nat)
    ensures AttemptsOf(Performed(Wave(m, m)).entries, HOST) == m + 2
  {
    WaveRuns(m, m);
  }

  /** Eight under way after two single failures bring the hour's lock. */
  lemma EightReachTheHour()
    ensures Remaining(Performed(Wave(8, 8)).entries, HOST, 0) == Some(LOCKOUT_LONG)
  {
    WaveRuns(8, 8);
  }

  // ---- How many failures overlapping logins get through ------------------------------------------------------------

  /** Step `i` answers a login of the address that was let past. */
  ghost predicate Answers(acts: seq<Act>, ip: string, i: nat, verdict: Verdict) {
    && i < |acts| && acts[i].Answer? && acts[i].ip == ip && acts[i].verdict == verdict
    && Flying(Performed(acts[..i]), ip) > 0
  }

  /** Step `i` is the third failure of a count. */
  ghost predicate Locks3(acts: seq<Act>, ip: string, i: nat) {
    Answers(acts, ip, i, Rejected) && AttemptsOf(Performed(acts[..i + 1]).entries, ip) == MAX_ATTEMPTS_SHORT
  }

  datatype Tally = Tally(failures: nat, locks: nat, accepts: nat, sweeps: nat)

  ghost function TallyOf(acts: seq<Act>, ip: string, n: nat): Tally {
    if n == 0 then Tally(0, 0, 0, 0)
    else
      var t := TallyOf(acts, ip, n - 1);
      Tally(t.failures + Bit(Answers(acts, ip, n - 1, Rejected)), t.locks + Bit(Locks3(acts, ip, n - 1)),
            t.accepts + Bit(Answers(acts, ip, n - 1, Accepted)),
            t.sweeps + Bit(n <= |acts| && acts[n - 1].Sweep?))
  }

  /** What `locks` counts of full length may hold. */
  function Cost(m: nat, locks: int): int {
    (m + 2) * locks
  }

  lemma CostNext(m: nat, locks: int)
    ensures Cost(m, locks + 1) == Cost(m, locks) + m + 2
  {
  }

  lemma CostMonotone(m: nat, a: int, b: int)
    requires a <= b
    ensures Cost(m, a) <= Cost(m, b)
  {
    assert (m + 2) * b == (m + 2) * a + (m + 2) * (b - a);
  }

  /** The failures of the running count; its third one pays for all that `m` logins under way can bring it to. */
  function Balance(d: Desk, ip: string, m: nat): int {
    if ip in d.entries && d.entries[ip].lockedUntil.Some? then d.entries[ip].attempts - (m + 2)
    else AttemptsOf(d.entries, ip)
  }

  lemma BalanceRange(d: Desk, ip: string, m: nat, now: int)
    requires Calm(d, ip, m, now) && m >= 1
    ensures 1 - m <= Balance(d, ip, m) <= 2
  {
  }

  lemma BalanceStep(acts: seq<Act>, ip: string, m: nat, n: nat, now: int)
    requires n < |acts| && Calm(Performed(acts[..n]), ip, m, now) && now <= acts[n].at && !AtEnd(acts, ip, n)
    ensures var t, t' := TallyOf(acts, ip, n), TallyOf(acts, ip, n + 1);
            t'.failures - t.failures
            <= (if Locks3(acts, ip, n) then m + 2 else 0) + 2 * (t'.accepts - t.accepts) + 2 * (t'.sweeps - t.sweeps)
             + Balance(Performed(acts[..n + 1]), ip, m) - Balance(Performed(acts[..n]), ip, m)
  {
    PerformedNext(acts, n);
  }

  /** When the last step before `n` was, or the next one. */
  function ClockAt(acts: seq<Act>, n: nat): int
    requires acts != [] && n <= |acts|
  {
    if n == 0 then acts[0].at else acts[n - 1].at
  }

  lemma CalmAt(acts: seq<Act>, ip: string, m: nat, n: nat)
    requires acts != [] && InOrder(acts) && AtMost(acts, ip, m) && NoneAtEnd(acts, ip) && n <= |acts|
    ensures Calm(Performed(acts[..n]), ip, m, ClockAt(acts, n))
  {
    CalmHolds(acts, ip, m, n);
    IdleIsCalm(ip, m, acts[0].at);
  }

  /** The accounting of a window. */
  lemma {:induction false} WindowBalance(acts: seq<Act>, ip: string, m: nat, i: nat, n: nat)
    requires acts != [] && InOrder(acts) && AtMost(acts, ip, m) && NoneAtEnd(acts, ip) && i <= n <= |acts|
    ensures var t, t' := TallyOf(acts, ip, i), TallyOf(acts, ip, n);
            t'.failures - t.failures
            <= Cost(m, t'.locks - t.locks) + 2 * (t'.accepts - t.accepts) + 2 * (t'.sweeps - t.sweeps)
             + Balance(Performed(acts[..n]), ip, m) - Balance(Performed(acts[..i]), ip, m)
  {
    hide Performed, Balance, Calm, AtMost, Cost, Answers;
    if i < n {
      WindowBalance(acts, ip, m, i, n - 1);
      CalmAt(acts, ip, m, n - 1);
      BalanceStep(acts, ip, m, n - 1, ClockAt(acts, n - 1));
      CostNext(m, TallyOf(acts, ip, n - 1).locks - TallyOf(acts, ip, i).locks);
    } else {
      assert Cost(m, 0) == 0 by {
        NoCost(m);
      }
    }
  }

  lemma NoCost(m: nat)
    ensures Cost(m, 0) == 0
  {
  }

  /** Until five minutes after `v` the address is locked. */
  ghost predicate Holds(d: Desk, ip: string, clock: int, v: int) {
    v <= clock && (clock < v + LOCKOUT_SHORT ==> LockedThrough(d.entries, ip, v + LOCKOUT_SHORT))
  }

  ghost predicate IsAnswer(d: Desk, a: Act, ip: string, verdict: Verdict) {
    a.Answer? && a.ip == ip && a.verdict == verdict && Flying(d, ip) > 0
  }

  lemma HoldsStep(d: Desk, a: Act, ip: string, clock: int, v: int)
    requires Sound(d.entries, clock) && clock <= a.at && Holds(d, ip, clock, v)
    ensures !IsAnswer(d, a, ip, Accepted) ==> Holds(Perform(d, a), ip, a.at, v)
    ensures IsAnswer(d, a, ip, Rejected) && AttemptsOf(Perform(d, a).entries, ip) == MAX_ATTEMPTS_SHORT ==>
              v + LOCKOUT_SHORT <= a.at && Holds(Perform(d, a), ip, a.at, a.at)
  {
  }

  /** The third failures of a window, less its acceptances. */
  ghost function Net(acts: seq<Act>, ip: string, i: nat, n: nat): int {
    var t, t' := TallyOf(acts, ip, i), TallyOf(acts, ip, n);
    (t'.locks - t.locks) - (t'.accepts - t.accepts)
  }

  lemma NetNext(acts: seq<Act>, ip: string, i: nat, n: nat)
    ensures Net(acts, ip, i, n + 1)
         == Net(acts, ip, i, n) + Bit(Locks3(acts, ip, n)) - Bit(Answers(acts, ip, n, Accepted))
  {
  }

  /** They fit into the time up to `v`, five minutes each but the last. */
  ghost predicate Spread(acts: seq<Act>, ip: string, i: nat, n: nat, clock: int, v: int) {
    && i <= n <= |acts| && i < |acts|
    && (Net(acts, ip, i, n) - 1) * LOCKOUT_SHORT <= v - acts[i].at
    && Holds(Performed(acts[..n]), ip, clock, v)
  }

  lemma SpreadStep(acts: seq<Act>, ip: string, i: nat, n: nat, clock: int, v: int) returns (v': int)
    requires n < |acts| && Spread(acts, ip, i, n, clock, v)
    requires Sound(Performed(acts[..n]).entries, clock) && clock <= acts[n].at
    ensures Spread(acts, ip, i, n + 1, acts[n].at, v')
  {
    hide Perform, Performed, Net, Sound, LockedThrough;
    PerformedNext(acts, n);
    NetNext(acts, ip, i, n);
    HoldsStep(Performed(acts[..n]), acts[n], ip, clock, v);
    if Answers(acts, ip, n, Accepted) {
      v' := v - LOCKOUT_SHORT;
    } else if Locks3(acts, ip, n) {
      v' := acts[n].at;
    } else {
      v' := v;
    }
  }

  lemma {:induction false} SpreadHolds(acts: seq<Act>, ip: string, m: nat, i: nat, n: nat) returns (v: int)
    requires InOrder(acts) && AtMost(acts, ip, m) && NoneAtEnd(acts, ip) && i <= n <= |acts| && i < |acts|
    ensures Spread(acts, ip, i, n, if n == i then acts[i].at else acts[n - 1].at, v)
  {
    if i == n {
      v := acts[i].at - LOCKOUT_SHORT;
    } else {
      v := SpreadHolds(acts, ip, m, i, n - 1);
      CalmAt(acts, ip, m, n - 1);
      v := SpreadStep(acts, ip, i, n - 1, if n - 1 == i then acts[i].at else acts[n - 2].at, v);
    }
  }

  /**
   Main result: with at most `m` logins of an address under way, none of them asking or answered at the very
   instant a lock ends, in any window at most `m + 2` failures get through for each started five minutes and each
   acceptance, two more for each acceptance or cleanup, and `m + 1` more.
   */
  lemma OverlappingFailuresAreBounded(acts: seq<Act>, ip: string, m: nat, i: nat, n: nat)
    requires InOrder(acts) && AtMost(acts, ip, m) && NoneAtEnd(acts, ip) && i < n <= |acts| && m >= 1
    ensures var t, t', span := TallyOf(acts, ip, i), TallyOf(acts, ip, n), acts[n - 1].at - acts[i].at;
            t'.failures - t.failures
            <= (m + 2) * (span / LOCKOUT_SHORT + 1 + (t'.accepts - t.accepts))
             + 2 * (t'.accepts - t.accepts + t'.sweeps - t.sweeps) + m + 1
  {
    hide Performed, Balance, Calm, AtMost, TallyOf;
    var t, t', span := TallyOf(acts, ip, i), TallyOf(acts, ip, n), acts[n - 1].at - acts[i].at;
    WindowBalance(acts, ip, m, i, n);
    CalmAt(acts, ip, m, i);
    CalmAt(acts, ip, m, n);
    BalanceRange(Performed(acts[..i]), ip, m, ClockAt(acts, i));
    BalanceRange(Performed(acts[..n]), ip, m, ClockAt(acts, n));
    var v := SpreadHolds(acts, ip, m, i, n);
    WholePeriods(Net(acts, ip, i, n) - 1, span);
    CostMonotone(m, t'.locks - t.locks, span / LOCKOUT_SHORT + 1 + (t'.accepts - t.accepts));
  }
}
