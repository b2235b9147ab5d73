/**
 The login rate limiter. Instants and durations are integers of one unit (nanoseconds in the service); the
 zero time of an unlocked entry is None. Each operation reads the clock once.
 */
module RateLimiter {
  import opened Common

  const MINUTE := 60_000_000_000
  const MAX_ATTEMPTS_SHORT := 3
  const LOCKOUT_SHORT := 5 * MINUTE
  const MAX_ATTEMPTS_LONG := 10
  const LOCKOUT_LONG := 60 * MINUTE

  datatype Entry = Entry(attempts: int, lockedUntil: Option<int>)
  type Entries = map<string, Entry>

  // ---- Operations on the table -----------------------------------------------------------------------------

  /** The time left of an address's lock. */
  function Remaining(es: Entries, ip: string, now: int): Option<int> {
    if ip in es && es[ip].lockedUntil.Some? && now < es[ip].lockedUntil.value
    then Some(es[ip].lockedUntil.value - now)
    else None
  }

  predicate Blocked(es: Entries, ip: string, now: int) {
    Remaining(es, ip, now).Some?
  }

  /** A lock ends strictly before a failure that clears it: at its very last instant the count goes on. */
  function Current(es: Entries, ip: string, now: int): Entry {
    if ip !in es then Entry(0, None)
    else if es[ip].lockedUntil.Some? && now > es[ip].lockedUntil.value then Entry(0, None)
    else es[ip]
  }

  function AttemptsOf(es: Entries, ip: string): int {
    if ip in es then es[ip].attempts else 0
  }

  function Failed(es: Entries, ip: string, now: int): Entries {
    var e := Current(es, ip, now);
    var attempts := e.attempts + 1;
    var lockedUntil :=
      if attempts >= MAX_ATTEMPTS_LONG then Some(now + LOCKOUT_LONG)
      else if attempts >= MAX_ATTEMPTS_SHORT then Some(now + LOCKOUT_SHORT)
      else e.lockedUntil;
    es[ip := Entry(attempts, lockedUntil)]
  }

  function Cleared(es: Entries, ip: string): Entries {
    es - {ip}
  }

  predicate Stale(e: Entry, now: int) {
    (e.lockedUntil.None? || now > e.lockedUntil.value) && e.attempts < MAX_ATTEMPTS_SHORT
  }

  function Cleaned(es: Entries, now: int): Entries {
    map ip | ip in es && !Stale(es[ip], now) :: es[ip]
  }

  /** An entry holds a lock exactly from its third failure on, and no lock reaches past its own duration. */
  ghost predicate Sound(es: Entries, now: int) {
    forall ip :: ip in es ==>
      && es[ip].attempts >= 1
      && (es[ip].attempts >= MAX_ATTEMPTS_SHORT <==> es[ip].lockedUntil.Some?)
      && (es[ip].lockedUntil.Some? ==>
            es[ip].lockedUntil.value <= now
              + (if es[ip].attempts >= MAX_ATTEMPTS_LONG then LOCKOUT_LONG else LOCKOUT_SHORT))
  }

  // ---- The limiter -------------------------------------------------------------------------------------------

  class Limiter {
    var entries: Entries

    constructor ()
      ensures entries == map[]
    {
      entries := map[];
    }

    method IsBlocked(ip: string, now: int) returns (blocked: bool, remaining: int)
      ensures blocked == Blocked(entries, ip, now)
      ensures if blocked then Remaining(entries, ip, now) == Some(remaining) && remaining > 0 else remaining == 0
    {
      if ip !in entries {
        return false, 0;
      }
      var e := entries[ip];
      if e.lockedUntil.Some? && now < e.lockedUntil.value {
        return true, e.lockedUntil.value - now;
      }
      return false, 0;
    }

    method RecordFailure(ip: string, now: int)
      modifies this
      ensures entries == Failed(old(entries), ip, now)
    {
      var e := Entry(0, None);
      if ip in entries {
        e := entries[ip];
      }
      if e.lockedUntil.Some? && now > e.lockedUntil.value {
        e := Entry(0, None);
      }
      e := e.(attempts := e.attempts + 1);
      if e.attempts >= MAX_ATTEMPTS_LONG {
        e := e.(lockedUntil := Some(now + LOCKOUT_LONG));
      } else if e.attempts >= MAX_ATTEMPTS_SHORT {
        e := e.(lockedUntil := Some(now + LOCKOUT_SHORT));
      }
      entries := entries[ip := e];
    }

    method Reset(ip: string)
      modifies this
      ensures entries == Cleared(old(entries), ip)
    {
      entries := entries - {ip};
    }

    /** One tick of the background cleanup, over the addresses in any order. */
    method Cleanup(now: int)
      modifies this
      ensures entries == Cleaned(old(entries), now)
    {
      ghost var before := entries;
      var todo := entries.Keys;
      while todo != {}
        invariant todo <= entries.Keys <= before.Keys
        invariant forall ip :: ip in entries ==> entries[ip] == before[ip]
        invariant forall ip :: ip in before ==> (ip in entries <==> ip in todo || !Stale(before[ip], now))
        decreases todo
      {
        var ip :| ip in todo;
        todo := todo - {ip};
        var e := entries[ip];
        if (e.lockedUntil.None? || now > e.lockedUntil.value) && e.attempts < MAX_ATTEMPTS_SHORT {
          entries := entries - {ip};
        }
      }
    }
  }

  // ---- Every way to use the limiter --------------------------------------------------------------------------

  datatype Op = RecordFailure(ip: string, at: int) | ResetIp(ip: string, at: int) | Cleanup(at: int)

  function Apply(es: Entries, op: Op): Entries {
    match op
    case RecordFailure(ip, at) => Failed(es, ip, at)
    case ResetIp(ip, at) => Cleared(es, ip)
    case Cleanup(at) => Cleaned(es, at)
  }

  function Run(es: Entries, ops: seq<Op>): Entries {
    if ops == [] then es else Apply(Run(es, ops[..|ops| - 1]), ops[|ops| - 1])
  }

  /** The clock never runs backwards: from `start` through the operations to `end`. */
  ghost predicate Clocked(start: int, ops: seq<Op>, end: int) {
    && start <= end
    && (forall i :: 0 <= i < |ops| ==> start <= ops[i].at <= end)
    && (forall i, j :: 0 <= i < j < |ops| ==> ops[i].at <= ops[j].at)
  }

  lemma {:induction false} SoundHolds(es: Entries, start: int, ops: seq<Op>, end: int)
    requires Sound(es, start) && Clocked(start, ops, end)
    ensures Sound(Run(es, ops), end)
  {
    if ops != [] {
      var init, op := ops[..|ops| - 1], ops[|ops| - 1];
      SoundHolds(es, start, init, op.at);
      assert Sound(Run(es, ops), op.at);
    }
  }

  /** Cleaning up answers every question about blocking as before, at whatever time it is asked. */
  lemma CleanupKeepsAnswers(es: Entries, ip: string, at: int, now: int, clock: int)
    requires Sound(es, clock)
    ensures Remaining(Cleaned(es, at), ip, now) == Remaining(es, ip, now)
  {
  }

  /** The end of a lock, as something no later operation can bring forward. */
  ghost predicate LockedThrough(es: Entries, ip: string, end: int) {
    ip in es && es[ip].lockedUntil.Some? && es[ip].lockedUntil.value >= end
  }

  lemma {:induction false} LockPersists(es: Entries, ip: string, start: int, ops: seq<Op>, now: int, end: int)
    requires Sound(es, start) && Clocked(start, ops, now) && LockedThrough(es, ip, end) && now < end
    requires forall i :: 0 <= i < |ops| ==> !(ops[i].ResetIp? && ops[i].ip == ip)
    ensures LockedThrough(Run(es, ops), ip, end)
  {
    if ops != [] {
      var init, op := ops[..|ops| - 1], ops[|ops| - 1];
      LockPersists(es, ip, start, init, op.at, end);
      SoundHolds(es, start, init, op.at);
    }
  }

  /**
   Main result: an observed block never ends early. Failures, cleanups and resets of other addresses, in any
   number and order, leave the address blocked until the announced time has passed.
   */
  lemma BlockNeverEndsEarly(es: Entries, ip: string, start: int, remaining: int, ops: seq<Op>, now: int)
    requires Sound(es, start) && Remaining(es, ip, start) == Some(remaining)
    requires Clocked(start, ops, now) && now < start + remaining
    requires forall i :: 0 <= i < |ops| ==> !(ops[i].ResetIp? && ops[i].ip == ip)
    ensures Blocked(Run(es, ops), ip, now)
  {
    LockPersists(es, ip, start, ops, now, start + remaining);
  }

  // ---- Driven by logins ----------------------------------------------------------------------------------------

  /** What the credential check of a login finds once it gets past the limiter. */
  datatype Verdict = Rejected | Accepted | LookupFailed

  datatype Event = Attempt(ip: string, verdict: Verdict, at: int) | Tick(at: int)

  /** Only a rejection is counted, only an acceptance clears the count. */
  function Judged(es: Entries, ip: string, verdict: Verdict, now: int): Entries {
    match verdict
    case Rejected => Failed(es, ip, now)
    case Accepted => Cleared(es, ip)
    case LookupFailed => es
  }

  /** A login that is answered before the address makes another: it asks the limiter first. */
  function Login(es: Entries, ip: string, verdict: Verdict, now: int): Entries {
    if Blocked(es, ip, now) then es else Judged(es, ip, verdict, now)
  }

  function Happen(es: Entries, e: Event): Entries {
    match e
    case Attempt(ip, verdict, at) => Login(es, ip, verdict, at)
    case Tick(at) => Cleaned(es, at)
  }

  function After(events: seq<Event>): Entries {
    if events == [] then map[] else Happen(After(events[..|events| - 1]), events[|events| - 1])
  }

  /** Event `i` of the run is a failure the limiter counted for the address. */
  ghost predicate IsFailure(events: seq<Event>, ip: string, i: nat) {
    && i < |events| && events[i].Attempt? && events[i].ip == ip && events[i].verdict == Rejected
    && !Blocked(After(events[..i]), ip, events[i].at)
  }

  /** Event `i` set or renewed the address's lock. */
  ghost predicate IsLock(events: seq<Event>, ip: string, i: nat) {
    IsFailure(events, ip, i) && Blocked(After(events[..i + 1]), ip, events[i].at)
  }

  /** Event `i` is a login of the address that got past the limiter and was accepted, or a cleanup. */
  ghost predicate IsDiscard(events: seq<Event>, ip: string, i: nat) {
    && i < |events|
    && (events[i].Tick? ||
      (events[i].ip == ip && events[i].verdict == Accepted && !Blocked(After(events[..i]), ip, events[i].at)))
  }

  ghost function Failures(events: seq<Event>, ip: string, n: nat): nat {
    if n == 0 then 0 else Failures(events, ip, n - 1) + (if IsFailure(events, ip, n - 1) then 1 else 0)
  }

  ghost function Locks(events: seq<Event>, ip: string, n: nat): nat {
    if n == 0 then 0 else Locks(events, ip, n - 1) + (if IsLock(events, ip, n - 1) then 1 else 0)
  }

  ghost function Discards(events: seq<Event>, ip: string, n: nat): nat {
    if n == 0 then 0 else Discards(events, ip, n - 1) + (if IsDiscard(events, ip, n - 1) then 1 else 0)
  }

  ghost predicate InTime(events: seq<Event>) {
    forall i, j :: 0 <= i < j < |events| ==> events[i].at <= events[j].at
  }

  /** Failures of an address that are counted but have not led to a lock. */
  function Pending(es: Entries, ip: string): int {
    if ip in es && es[ip].lockedUntil.None? then es[ip].attempts else 0
  }

  /** Where a run stands after `n` events. */
  ghost predicate Standing(events: seq<Event>, ip: string, n: nat) {
    n <= |events| &&
    var es := After(events[..n]);
    && (n > 0 ==> Sound(es, events[n - 1].at))
    && (n == 0 ==> es == map[])
    && 0 <= Pending(es, ip) <= 2
  }

  lemma SoundStep(es: Entries, e: Event, clock: int)
    requires Sound(es, clock) && clock <= e.at
    ensures Sound(Happen(es, e), e.at)
  {
  }

  lemma {:induction false} StandingHolds(events: seq<Event>, ip: string, n: nat)
    requires InTime(events) && n <= |events|
    ensures Standing(events, ip, n)
  {
    if n > 0 {
      StandingHolds(events, ip, n - 1);
      assert events[..n][..n - 1] == events[..n - 1];
      SoundStep(After(events[..n - 1]), events[n - 1], if n == 1 then events[0].at else events[n - 2].at);
    }
  }

  // ---- The bound on failures ---------------------------------------------------------------------------------------

  /**
   One event: a counted failure becomes pending or leads to a lock together with the two pending ones, and a
   discard throws away at most the two pending ones.
   */
  lemma CountsStep(events: seq<Event>, ip: string, n: nat)
    requires InTime(events) && n < |events|
    ensures var before, after := Pending(After(events[..n]), ip), Pending(After(events[..n + 1]), ip);
            Failures(events, ip, n + 1) - Failures(events, ip, n)
            <= 3 * (Locks(events, ip, n + 1) - Locks(events, ip, n))
             + 2 * (Discards(events, ip, n + 1) - Discards(events, ip, n)) + after - before
  {
    StandingHolds(events, ip, n);
    assert events[..n + 1][..n] == events[..n];
  }

  /** The accounting of a window: its failures led to locks, were thrown away, or are pending at its end. */
  lemma {:induction false} WindowCounts(events: seq<Event>, ip: string, i: nat, n: nat)
    requires InTime(events) && i <= n <= |events|
    ensures Failures(events, ip, n) - Failures(events, ip, i)
            <= 3 * (Locks(events, ip, n) - Locks(events, ip, i))
             + 2 * (Discards(events, ip, n) - Discards(events, ip, i))
             + Pending(After(events[..n]), ip) - Pending(After(events[..i]), ip)
  {
    if i < n {
      WindowCounts(events, ip, i, n - 1);
      CountsStep(events, ip, n - 1);
    }
  }

  /** Any two locks of an address are at least five minutes apart. */
  lemma LocksAreApart(events: seq<Event>, ip: string, i: nat, j: nat)
    requires InTime(events) && i < j && IsLock(events, ip, i) && IsLock(events, ip, j)
    ensures events[j].at - events[i].at >= LOCKOUT_SHORT
  {
    LockReaches(events, ip, i, j);
  }

  lemma {:induction false} LockReaches(events: seq<Event>, ip: string, i: nat, n: nat)
    requires InTime(events) && i < n <= |events| && IsLock(events, ip, i)
    ensures events[n - 1].at < events[i].at + LOCKOUT_SHORT ==>
            LockedThrough(After(events[..n]), ip, events[i].at + LOCKOUT_SHORT)
  {
    StandingHolds(events, ip, n - 1);
    assert events[..n][..n - 1] == events[..n - 1];
    if n > i + 1 {
      LockReaches(events, ip, i, n - 1);
    }
  }

  /** Event `k` is the last lock of the window; the locks before it took five minutes each. */
  ghost predicate LastLock(events: seq<Event>, ip: string, i: nat, n: nat, k: nat) {
    && i <= k < n <= |events| && IsLock(events, ip, k)
    && (Locks(events, ip, n) - Locks(events, ip, i) - 1) * LOCKOUT_SHORT <= events[k].at - events[i].at
  }

  /** The window's locks but the last took five minutes each. */
  ghost predicate LocksFit(events: seq<Event>, ip: string, i: nat, n: nat) {
    Locks(events, ip, n) == Locks(events, ip, i) || exists k: nat :: LastLock(events, ip, i, n, k)
  }

  lemma NextLock(events: seq<Event>, ip: string, i: nat, k: nat, n: nat)
    requires InTime(events) && i <= n < |events| && LastLock(events, ip, i, n, k)
    ensures IsLock(events, ip, n) ==> LastLock(events, ip, i, n + 1, n)
    ensures !IsLock(events, ip, n) ==> LastLock(events, ip, i, n + 1, k)
  {
    if IsLock(events, ip, n) {
      LocksAreApart(events, ip, k, n);
    }
  }

  lemma {:induction false} WindowLocks(events: seq<Event>, ip: string, i: nat, n: nat)
    requires InTime(events) && i <= n <= |events|
    ensures LocksFit(events, ip, i, n)
  {
    if i < n {
      var m := n - 1;
      WindowLocks(events, ip, i, m);
      if Locks(events, ip, m) != Locks(events, ip, i) {
        var k: nat :| LastLock(events, ip, i, m, k);
        NextLock(events, ip, i, k, m);
      } else if IsLock(events, ip, m) {
        assert LastLock(events, ip, i, n, m);
      }
    }
  }

  lemma WholePeriods(periods: int, span: int)
    requires periods * LOCKOUT_SHORT <= span
    ensures periods <= span / LOCKOUT_SHORT
  {
  }

  lemma LocksInSpan(events: seq<Event>, ip: string, i: nat, n: nat)
    requires InTime(events) && i < n <= |events|
    ensures Locks(events, ip, n) - Locks(events, ip, i) <= (events[n - 1].at - events[i].at) / LOCKOUT_SHORT + 1
  {
    var span := events[n - 1].at - events[i].at;
    WindowLocks(events, ip, i, n);
    if Locks(events, ip, n) == Locks(events, ip, i) {
      WholePeriods(0, span);
    } else {
      var k: nat :| LastLock(events, ip, i, n, k);
      WholePeriods(Locks(events, ip, n) - Locks(events, ip, i) - 1, span);
    }
  }

  /**
   Main result: in any window of any run of logins and cleanups on an empty limiter, at most three failures of an
   address get through for each started five minutes, two more for each time a success or a cleanup threw a
   count away, and two more.
   */
  lemma FailuresAreBounded(events: seq<Event>, ip: string, i: nat, n: nat)
    requires InTime(events) && i < n <= |events|
    ensures var span := events[n - 1].at - events[i].at;
            Failures(events, ip, n) - Failures(events, ip, i)
            <= 3 * (span / LOCKOUT_SHORT + 1) + 2 * (Discards(events, ip, n) - Discards(events, ip, i) + 1)
  {
    WindowCounts(events, ip, i, n);
    StandingHolds(events, ip, i);
    StandingHolds(events, ip, n);
    LocksInSpan(events, ip, i, n);
  }

  /** What a cleanup or an accepted login can throw away. */
  lemma DiscardIsSmall(events: seq<Event>, ip: string, n: nat)
    requires InTime(events) && n < |events| && IsDiscard(events, ip, n)
    ensures 0 <= Pending(After(events[..n]), ip) <= 2
    ensures !Blocked(After(events[..n]), ip, events[n].at) ||
      After(events[..n + 1]) == Cleaned(After(events[..n]), events[n].at)
    ensures Remaining(After(events[..n + 1]), ip, events[n].at) == Remaining(After(events[..n]), ip, events[n].at)
  {
    StandingHolds(events, ip, n);
    assert events[..n + 1][..n] == events[..n];
  }

  // ---- Counting past three -----------------------------------------------------------------------------------------

  /** A failure once a lock is over starts a new count unless it comes at the very instant the lock ends. */
  lemma LastInstantCountsOn(es: Entries, ip: string, now: int, clock: int)
    requires Sound(es, clock) && ip in es && es[ip].lockedUntil.Some? && !Blocked(es, ip, now)
    ensures AttemptsOf(Failed(es, ip, now), ip) == 1 <==> now != es[ip].lockedUntil.value
    ensures now == es[ip].lockedUntil.value ==> AttemptsOf(Failed(es, ip, now), ip) == es[ip].attempts + 1
  {
  }

  /** The fourth failure, just as the first lock ends, and one nanosecond later. */
  lemma LastInstantInstance()
    ensures var es := map["10.0.0.7" := Entry(3, Some(LOCKOUT_SHORT))];
            && Failed(Failed(Failed(map[], "10.0.0.7", 0), "10.0.0.7", 0), "10.0.0.7", 0) == es
            && AttemptsOf(Failed(es, "10.0.0.7", LOCKOUT_SHORT), "10.0.0.7") == 4
            && AttemptsOf(Failed(es, "10.0.0.7", LOCKOUT_SHORT + 1), "10.0.0.7") == 1
  {
  }

  /** However it got past the limiter, a recorded failure is counted past three iff a lock is not over yet. */
  lemma FourthNeedsLock(es: Entries, ip: string, now: int, clock: int)
    requires Sound(es, clock)
    ensures AttemptsOf(Failed(es, ip, now), ip) > 3
            <==> ip in es && es[ip].lockedUntil.Some? && now <= es[ip].lockedUntil.value
  {
  }

  /** The table after `k` failures in a row at one instant. */
  function Burst(k: nat): Entries {
    if k == 0 then map[]
    else
      map["10.0.0.7" := Entry(k, if k >= MAX_ATTEMPTS_LONG then Some(LOCKOUT_LONG)
                                 else if k >= MAX_ATTEMPTS_SHORT then Some(LOCKOUT_SHORT) else None)]
  }

  lemma {:induction false} BurstRuns(k: nat)
    ensures Run(map[], seq(k, _ => RecordFailure("10.0.0.7", 0))) == Burst(k)
  {
    var ops := seq(k, _ => RecordFailure("10.0.0.7", 0));
    if k > 0 {
      BurstRuns(k - 1);
      assert ops[..k - 1] == seq(k - 1, _ => RecordFailure("10.0.0.7", 0));
    }
  }

  /** Ten failures recorded in a row, without asking in between, bring the hour's lock. */
  lemma TenInARow()
    ensures Remaining(Run(map[], seq(10, _ => RecordFailure("10.0.0.7", 0))), "10.0.0.7", 0) == Some(LOCKOUT_LONG)
  {
    BurstRuns(10);
  }

  /** A login answered at once gets past a count of three only at the last instant of the lock it led to. */
  lemma FourthNeedsLastInstant(es: Entries, ip: string, verdict: Verdict, now: int, clock: int)
    requires Sound(es, clock) && AttemptsOf(es, ip) <= 3
    ensures AttemptsOf(Login(es, ip, verdict, now), ip) > 3
            <==> verdict == Rejected && AttemptsOf(es, ip) == 3 && es[ip].lockedUntil == Some(now)
  {
  }

  /** Event `i` is a login of the address at the very instant its lock ends. */
  ghost predicate AtLockEnd(events: seq<Event>, ip: string, i: nat) {
    && i < |events| && events[i].Attempt? && events[i].ip == ip
    && ip in After(events[..i]) && After(events[..i])[ip].lockedUntil == Some(events[i].at)
  }

  /**
   Main result: with logins that are answered one at a time, and none at the very instant its address's lock ends,
   no address is ever counted past three failures, so the hour's lock that ten failures bring is never set.
   */
  lemma {:induction false} LongLockIsNeverSet(events: seq<Event>, ip: string, n: nat)
    requires InTime(events) && n <= |events|
    requires forall i :: 0 <= i < n ==> !AtLockEnd(events, ip, i)
    ensures AttemptsOf(After(events[..n]), ip) <= MAX_ATTEMPTS_SHORT
    ensures n > 0 && Blocked(After(events[..n]), ip, events[n - 1].at) ==>
            Remaining(After(events[..n]), ip, events[n - 1].at).value <= LOCKOUT_SHORT
  {
    StandingHolds(events, ip, n);
    if n > 0 {
      LongLockIsNeverSet(events, ip, n - 1);
      StandingHolds(events, ip, n - 1);
      assert events[..n][..n - 1] == events[..n - 1];
      assert !AtLockEnd(events, ip, n - 1);
    }
  }

  /** Logins that are all rejected: three at once, and one more as each lock ends. */
  function Punctual(k: nat): Event {
    Attempt("10.0.0.7", Rejected, if k < 3 then 0 else (k - 2) * LOCKOUT_SHORT)
  }

  function PunctualRun(n: nat): (events: seq<Event>)
    ensures |events| == n
  {
    seq(n, k requires k >= 0 => Punctual(k))
  }

  /** The limiter's table after `n` of them. */
  function PunctualEntries(n: nat): Entries {
    if n == 0 then map[]
    else map["10.0.0.7" := Entry(n, if n < 3 then None else Some((n - 2) * LOCKOUT_SHORT))]
  }

  lemma PunctualStep(n: nat)
    requires n < 9
    ensures Happen(PunctualEntries(n), Punctual(n)) == PunctualEntries(n + 1)
  {
  }

  lemma {:induction false} PunctualCounts(n: nat)
    requires n <= 9
    ensures After(PunctualRun(n)) == PunctualEntries(n)
  {
    hide Happen, PunctualEntries, Punctual;
    if n > 0 {
      PunctualCounts(n - 1);
      PunctualStep(n - 1);
      assert PunctualRun(n)[..n - 1] == PunctualRun(n - 1);
      assert PunctualRun(n)[n - 1] == Punctual(n - 1);
    } else {
      PunctualNone();
    }
  }

  lemma PunctualNone()
    ensures PunctualEntries(0) == map[]
  {
  }

  /** With a login at each of those instants the tenth failure does bring it. */
  lemma PunctualReachesTheHour()
    ensures Remaining(After(PunctualRun(10)), "10.0.0.7", 7 * LOCKOUT_SHORT) == Some(LOCKOUT_LONG)
  {
    PunctualCounts(9);
    assert PunctualRun(10)[..9] == PunctualRun(9);
    assert PunctualRun(10)[9] == Punctual(9);
  }

  // ---- What an address can rely on ---------------------------------------------------------------------------------

  /** Two failures never block, and the third blocks for five minutes to the nanosecond. */
  lemma ThirdFailureBlocks(es: Entries, ip: string, now: int, later: int, clock: int)
    requires Sound(es, clock) && (ip in es ==> es[ip].lockedUntil.None? || now > es[ip].lockedUntil.value)
    ensures var es' := Failed(es, ip, now);
            if ip in es && es[ip].lockedUntil.None? && es[ip].attempts == 2
            then Blocked(es', ip, later) <==> later < now + 300_000_000_000
            else !Blocked(es', ip, later) && AttemptsOf(es', ip) <= 2
    ensures var es' := Failed(es, ip, now);
            Blocked(es', ip, later) ==> Remaining(es', ip, later) == Some(now + 300_000_000_000 - later)
  {
  }

  /** From the tenth failure of a count on a lock is an hour's. */
  lemma TenthFailureBlocks(es: Entries, ip: string, now: int, later: int)
    requires ip in es && es[ip].lockedUntil.Some? && now <= es[ip].lockedUntil.value && es[ip].attempts >= 2
    ensures Remaining(Failed(es, ip, now), ip, now)
            == Some(if es[ip].attempts >= 9 then 3_600_000_000_000 else 300_000_000_000)
  {
  }

  /** An accepted login gives its address a fresh start, and touches no other. */
  lemma AcceptedStartsAfresh(es: Entries, ip: string, now: int, later: int)
    requires !Blocked(es, ip, now)
    ensures var es' := Login(es, ip, Accepted, now);
            && AttemptsOf(es', ip) == 0 && !Blocked(es', ip, later)
            && !Blocked(Failed(Failed(es', ip, now), ip, now), ip, later)
            && forall other :: other != ip ==>
                 AttemptsOf(es', other) == AttemptsOf(es, other) &&
                   Remaining(es', other, later) == Remaining(es, other, later)
  {
  }

  /** The cleanup keeps exactly the addresses that have been locked; everything else it forgets. */
  lemma CleanupKeepsLocked(es: Entries, now: int, clock: int)
    requires Sound(es, clock)
    ensures Cleaned(es, now).Keys == set ip | ip in es && es[ip].attempts >= 3
    ensures forall ip :: ip in Cleaned(es, now) ==> Cleaned(es, now)[ip] == es[ip]
  {
  }
}
