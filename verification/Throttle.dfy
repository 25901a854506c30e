/** The login throttle: failures in a five-minute window, and a one-minute block from the fifth on. */
module Throttle {
  import opened Results

  const SECOND: nat := 1_000_000_000
  const MINUTE: nat := 60 * SECOND

  /** Times are nanoseconds; a missing entry is the zero attempt. */
  datatype Attempt = Attempt(failures: nat, windowStart: nat, blockedUntil: Option<nat>)

  predicate Blocked(a: Option<Attempt>, now: nat) {
    a.Some? && a.value.blockedUntil.Some? && now < a.value.blockedUntil.value
  }

  predicate WindowOver(a: Attempt, now: nat) { a.windowStart + 5 * MINUTE < now }

  function AfterCheck(a: Option<Attempt>, now: nat): Option<Attempt> {
    if !Blocked(a, now) && a.Some? && WindowOver(a.value, now) then None else a
  }

  function AfterFailure(a: Option<Attempt>, now: nat): Attempt {
    var w := if a.None? || WindowOver(a.value, now) then Attempt(0, now, None) else a.value;
    if w.failures + 1 >= 5 then Attempt(w.failures + 1, w.windowStart, Some(now + MINUTE))
    else w.(failures := w.failures + 1)
  }

  function Lookup(m: map<string, Attempt>, key: string): Option<Attempt> {
    if key in m then Some(m[key]) else None
  }

  /** Conversion to int truncates toward zero. */
  function TruncatedSeconds(d: int): int {
    if d >= 0 then d / SECOND else -(-d / SECOND)
  }

  /** int(time.Until(t).Seconds()) + 1, shown as at least 1. */
  function RetryAfter(until: nat, now: nat): nat {
    var seconds := TruncatedSeconds(until - now) + 1;
    if seconds <= 0 then 1 else seconds
  }

  /** The delay is enough, and by less than a second too long; 61 seconds at most for a block of a minute. */
  lemma RetryIsEnough(until: nat, now: nat)
    ensures until <= now + RetryAfter(until, now) * SECOND
    ensures now < until ==> (RetryAfter(until, now) - 1) * SECOND <= until - now
    ensures until <= now + 60_000_000_000 ==> RetryAfter(until, now) <= 61
  {
  }

  /** A failure counts in the running window of five minutes or opens a new one; from the fifth on it blocks a minute. */
  lemma FailureMeans(a: Option<Attempt>, now: nat)
    ensures var b := AfterFailure(a, now);
      var opens := a.None? || a.value.windowStart + 300_000_000_000 < now;
      && b.failures == (if opens then 1 else a.value.failures + 1)
      && b.windowStart == (if opens then now else a.value.windowStart)
      && (b.failures >= 5 ==> b.blockedUntil == Some(now + 60_000_000_000))
      && (b.failures < 5 ==> b.blockedUntil == if opens then None else a.value.blockedUntil)
  {
  }

  // ----- the object -----

  datatype Verdict = WrongPassword | Accepted | Abandoned

  /** What a decided request does to the entry; an abandoned one was malformed or met an internal error. */
  function Decided(a: Option<Attempt>, verdict: Verdict, now: nat): Option<Attempt> {
    match verdict
    case WrongPassword => Some(AfterFailure(a, now))
    case Accepted => None
    case Abandoned => a
  }

  datatype Response = TooManyRequests(retryAfter: nat) | Unauthorized | LoggedIn | Unanswered

  class LoginThrottle {
    var logins: map<string, Attempt>

    constructor ()
      ensures logins == map[]
    {
      logins := map[];
    }

    /** The clock is read again, later, for the advertised delay; waiting that long is enough. */
    method LoginAllowed(key: string, now: nat, later: nat) returns (retryAfter: nat, allowed: bool)
      requires now <= later
      modifies this
      ensures allowed == !Blocked(Lookup(old(logins), key), now)
      ensures Lookup(logins, key) == AfterCheck(Lookup(old(logins), key), now)
      ensures key in old(logins) && now <= old(logins)[key].windowStart + 300_000_000_000 ==> logins == old(logins)
      ensures forall other :: other != key ==> Lookup(logins, other) == Lookup(old(logins), other)
      ensures !allowed ==> retryAfter >= 1 && !Blocked(Lookup(logins, key), later + retryAfter * SECOND)
      ensures !allowed ==> logins == old(logins)
      ensures !allowed ==>
        retryAfter == 1 || (retryAfter - 1) * SECOND <= Lookup(logins, key).value.blockedUntil.value - later
    {
      var attempt := Lookup(logins, key);
      if attempt.Some? && attempt.value.blockedUntil.Some? && now < attempt.value.blockedUntil.value {
        retryAfter := RetryAfter(attempt.value.blockedUntil.value, later);
        RetryIsEnough(attempt.value.blockedUntil.value, later);
        return retryAfter, false;
      }
      if attempt.Some? && WindowOver(attempt.value, now) {
        logins := map k | k in logins && k != key :: logins[k];
      }
      return 0, true;
    }

    method RecordLoginFailure(key: string, now: nat)
      modifies this
      ensures logins == old(logins)[key := AfterFailure(Lookup(old(logins), key), now)]
    {
      var attempt := Lookup(logins, key);
      var w := if attempt.None? || WindowOver(attempt.value, now) then Attempt(0, now, None) else attempt.value;
      w := w.(failures := w.failures + 1);
      if w.failures >= 5 {
        w := w.(blockedUntil := Some(now + MINUTE));
      }
      logins := logins[key := w];
    }

    method ClearLoginFailures(key: string)
      modifies this
      ensures Lookup(logins, key) == None
      ensures forall other :: other != key ==> Lookup(logins, other) == Lookup(old(logins), other)
    {
      logins := map k | k in logins && k != key :: logins[k];
    }

    /** The login handler, with what the clock and the check of the credentials say. */
    method HandleLogin(key: string, checkedAt: nat, decidedAt: nat, verdict: Verdict) returns (response: Response)
      requires checkedAt <= decidedAt
      modifies this
      ensures var before, after := Lookup(old(logins), key), Lookup(logins, key);
        after == if Blocked(before, checkedAt) then before else Decided(AfterCheck(before, checkedAt), verdict, decidedAt)
      ensures forall other :: other != key ==> Lookup(logins, other) == Lookup(old(logins), other)
      ensures response.TooManyRequests? <==> Blocked(Lookup(old(logins), key), checkedAt)
      ensures response.TooManyRequests? ==>
        logins == old(logins) && !Blocked(Lookup(logins, key), decidedAt + response.retryAfter * SECOND)
      ensures response.Unanswered? ==> Lookup(logins, key) == AfterCheck(Lookup(old(logins), key), checkedAt)
      ensures response.LoggedIn? ==> Lookup(logins, key) == None
      ensures response.Unauthorized? ==>
        Lookup(logins, key) == Some(AfterFailure(AfterCheck(Lookup(old(logins), key), checkedAt), decidedAt))
      ensures !response.TooManyRequests? ==>
        response == match verdict case WrongPassword => Unauthorized case Accepted => LoggedIn case Abandoned => Unanswered
    {
      var retryAfter, allowed := LoginAllowed(key, checkedAt, decidedAt);
      if !allowed { return TooManyRequests(retryAfter); }
      match verdict {
        case Abandoned => return Unanswered;
        case WrongPassword =>
          RecordLoginFailure(key, decidedAt);
          return Unauthorized;
        case Accepted =>
          ClearLoginFailures(key);
          return LoggedIn;
      }
    }
  }

  // ----- requests of one client, any number of them in flight -----

  /** The throttle is consulted in one step and the verdict recorded in a later one. */
  datatype Step = Check(now: nat) | Decide(now: nat, verdict: Verdict)

  /**
    The entry; requests between check and verdict; blocks begun in this window; and what was recorded:
    failures, expired windows, successes that cleared an entry, the first failure.
   */
  datatype State = State(
    entry: Option<Attempt>, pending: nat, blocks: nat,
    failures: nat, expired: nat, cleared: nat, first: Option<nat>, now: nat)

  const IDLE: State := State(None, 0, 0, 0, 0, 0, None, 0)

  /** The clock does not go back, and at most k requests are in flight. */
  predicate Enabled(k: nat, s: State, step: Step) {
    s.now <= step.now &&
    match step
    case Check(now) => s.pending < k || Blocked(s.entry, now)
    case Decide(_, _) => s.pending > 0
  }

  function AfterWrong(s: State, now: nat): State
    requires s.pending > 0
  {
    var over := s.entry.Some? && WindowOver(s.entry.value, now);
    var a := AfterFailure(s.entry, now);
    State(Some(a), s.pending - 1,
          if s.entry.None? || over then 0 else if a.failures >= 5 && !Blocked(s.entry, now) then s.blocks + 1 else s.blocks,
          s.failures + 1, if over then s.expired + 1 else s.expired, s.cleared,
          if s.first.None? then Some(now) else s.first, now)
  }

  function Next(k: nat, s: State, step: Step): State
    requires Enabled(k, s, step)
  {
    match step
    case Check(now) =>
      if Blocked(s.entry, now) then s.(now := now)
      else
        var kept := AfterCheck(s.entry, now);
        s.(entry := kept, pending := s.pending + 1, blocks := if kept.None? then 0 else s.blocks,
           expired := if s.entry.Some? && kept.None? then s.expired + 1 else s.expired, now := now)
    case Decide(now, Abandoned) => s.(pending := s.pending - 1, now := now)
    case Decide(now, Accepted) =>
      s.(entry := None, pending := s.pending - 1, blocks := 0,
         cleared := if s.entry.Some? then s.cleared + 1 else s.cleared, now := now)
    case Decide(now, WrongPassword) => AfterWrong(s, now)
  }

  predicate Path(k: nat, s: State, steps: seq<Step>, t: State)
    decreases |steps|
  {
    if steps == [] then s == t
    else Enabled(k, s, steps[0]) && Path(k, Next(k, s, steps[0]), steps[1..], t)
  }

  /** In each window: each block lets at most k failures more be recorded, and takes a minute of the window. */
  predicate EntryOk(k: nat, s: State, a: Attempt) {
    && 1 <= a.failures <= 4 + k * s.blocks && a.windowStart <= s.now
    && (a.failures < 5 ==> a.blockedUntil.None? && s.blocks == 0)
    && (a.failures >= 5 ==>
         && a.blockedUntil.Some? && 1 <= s.blocks
         && a.windowStart + s.blocks * MINUTE <= a.blockedUntil.value <= a.windowStart + 6 * MINUTE
         && a.blockedUntil.value <= s.now + MINUTE)
    && (Blocked(Some(a), s.now) ==> a.failures + s.pending <= 4 + k * s.blocks)
  }

  predicate CountsOk(k: nat, s: State) {
    && (s.first.None? ==> s.failures == 0 && s.entry.None? && s.expired == 0 && s.cleared == 0)
    && (s.first.Some? ==>
         && s.first.value <= s.now
         && s.first.value + s.expired * (5 * MINUTE) <= (if s.entry.Some? then s.entry.value.windowStart else s.now))
    && s.failures <= (4 + 6 * k) * (s.expired + s.cleared) + (if s.entry.Some? then s.entry.value.failures else 0)
  }

  predicate Inv(k: nat, s: State) {
    && s.pending <= k && (s.entry.None? ==> s.blocks == 0)
    && (s.entry.Some? ==> EntryOk(k, s, s.entry.value))
    && CountsOk(k, s)
  }

  lemma MultiplyUp(a: nat, b: nat, k: nat)
    requires a <= b
    ensures k * a <= k * b
  {
  }

  lemma AtMostSixBlocks(k: nat, s: State)
    requires s.entry.Some? && EntryOk(k, s, s.entry.value)
    ensures s.blocks <= 6 && s.entry.value.failures <= 4 + 6 * k
  {
    if s.blocks > 0 { MultiplyUp(s.blocks, 6, k); }
  }

  lemma OneMore(n: nat, k: nat)
    ensures k * (n + 1) == k * n + k
  {
  }

  lemma WrongKeepsEntry(k: nat, s: State, now: nat)
    requires Inv(k, s) && s.pending > 0 && s.now <= now
    ensures var t := AfterWrong(s, now); t.pending <= k && EntryOk(k, t, t.entry.value)
  {
    OneMore(s.blocks, k);
  }

  lemma WrongKeepsCounts(k: nat, s: State, now: nat)
    requires Inv(k, s) && s.pending > 0 && s.now <= now
    ensures CountsOk(k, AfterWrong(s, now))
  {
    if s.entry.Some? { AtMostSixBlocks(k, s); }
    OneMore(s.expired + s.cleared, 4 + 6 * k);
  }

  lemma CheckKeepsInv(k: nat, s: State, now: nat)
    requires Inv(k, s) && Enabled(k, s, Check(now))
    ensures Inv(k, Next(k, s, Check(now)))
  {
    if s.entry.Some? { AtMostSixBlocks(k, s); }
    OneMore(s.expired + s.cleared, 4 + 6 * k);
  }

  lemma DecideKeepsInv(k: nat, s: State, now: nat, verdict: Verdict)
    requires Inv(k, s) && Enabled(k, s, Decide(now, verdict))
    ensures Inv(k, Next(k, s, Decide(now, verdict)))
  {
    if verdict == WrongPassword {
      WrongKeepsEntry(k, s, now);
      WrongKeepsCounts(k, s, now);
    } else if s.entry.Some? {
      AtMostSixBlocks(k, s);
      OneMore(s.expired + s.cleared, 4 + 6 * k);
    }
  }

  lemma StepKeepsInv(k: nat, s: State, step: Step)
    requires Inv(k, s) && Enabled(k, s, step)
    ensures Inv(k, Next(k, s, step))
  {
    match step
    case Check(now) => CheckKeepsInv(k, s, now);
    case Decide(now, verdict) => DecideKeepsInv(k, s, now, verdict);
  }

  lemma {:induction false} PathKeepsInv(k: nat, s: State, steps: seq<Step>, t: State)
    requires Inv(k, s) && Path(k, s, steps, t)
    ensures Inv(k, t)
    decreases |steps|
  {
    if steps != [] {
      StepKeepsInv(k, s, steps[0]);
      PathKeepsInv(k, Next(k, s, steps[0]), steps[1..], t);
    }
  }

  // ----- the bounds -----

  /** With at most k requests in flight an entry never counts more than 4 + 6k failures. */
  lemma InFlightBound(k: nat, steps: seq<Step>, s: State)
    requires Path(k, IDLE, steps, s) && s.entry.Some?
    ensures s.entry.value.failures <= 4 + 6 * k
  {
    PathKeepsInv(k, IDLE, steps, s);
    AtMostSixBlocks(k, s);
  }

  lemma Scale(n: int, k: nat, b: nat, span: int)
    requires n <= k * b && b * MINUTE <= span
    ensures n * MINUTE <= k * span
  {
    assert n * MINUTE <= (k * b) * MINUTE;
    assert (k * b) * MINUTE == k * (b * MINUTE);
    MultiplyUp(b * MINUTE, span, k);
  }

  /**
    From the fifth failure on the block reaches at least one minute into the window for each k failures
    beyond the fourth; one request at a time, (failures - 4) minutes.
   */
  lemma BlockGrows(k: nat, steps: seq<Step>, s: State)
    requires Path(k, IDLE, steps, s) && s.entry.Some? && s.entry.value.failures >= 5
    ensures var a := s.entry.value;
      a.blockedUntil.Some? && (a.failures - 4) * MINUTE <= k * (a.blockedUntil.value - a.windowStart)
  {
    PathKeepsInv(k, IDLE, steps, s);
    var a := s.entry.value;
    Scale(a.failures - 4, k, s.blocks, a.blockedUntil.value - a.windowStart);
  }

  /** What a blocked client of any run is told is at most 61 seconds. */
  lemma AdvertisedDelay(k: nat, steps: seq<Step>, s: State, now: nat)
    requires Path(k, IDLE, steps, s) && s.now <= now && Blocked(s.entry, now)
    ensures 1 <= RetryAfter(s.entry.value.blockedUntil.value, now) <= 61
  {
    PathKeepsInv(k, IDLE, steps, s);
    RetryIsEnough(s.entry.value.blockedUntil.value, now);
  }

  lemma SerialisedBound(steps: seq<Step>, s: State)
    requires Path(1, IDLE, steps, s) && s.entry.Some?
    ensures var a := s.entry.value;
      && a.failures <= 10
      && (a.failures >= 5 ==> a.blockedUntil.Some? && a.windowStart + (a.failures - 4) * MINUTE <= a.blockedUntil.value)
  {
    InFlightBound(1, steps, s);
    if s.entry.value.failures >= 5 { BlockGrows(1, steps, s); }
  }

  lemma CancelFactor(a: int, b: int, d: nat)
    requires a * d < b * d
    ensures a < b
  {
  }

  lemma QuotientBound(n: nat, d: nat, t: int)
    requires d > 0 && n * d <= t
    ensures n <= t / d
  {
    var q := t / d;
    assert t == q * d + t % d;
    assert (q + 1) * d == q * d + d;
    CancelFactor(n, q + 1, d);
  }

  /**
    Within time T of the first failure at most (4 + 6k) * (T / 5min + 1) failures are recorded, and 4 + 6k
    more for each success.
   */
  lemma FailureBound(k: nat, steps: seq<Step>, s: State)
    requires Path(k, IDLE, steps, s) && s.first.Some?
    ensures s.first.value <= s.now
    ensures s.failures <= (4 + 6 * k) * ((s.now - s.first.value) / (5 * MINUTE) + 1 + s.cleared)
  {
    PathKeepsInv(k, IDLE, steps, s);
    if s.entry.Some? { AtMostSixBlocks(k, s); }
    QuotientBound(s.expired, 5 * MINUTE, s.now - s.first.value);
    OneMore(s.expired + s.cleared, 4 + 6 * k);
    MultiplyUp(s.expired + s.cleared + 1, (s.now - s.first.value) / (5 * MINUTE) + 1 + s.cleared, 4 + 6 * k);
  }

  /** One call of the handler is a check, followed by a verdict unless it was refused. */
  lemma HandlerIsPath(k: nat, s: State, checkedAt: nat, decidedAt: nat, verdict: Verdict) returns (steps: seq<Step>, t: State)
    requires s.pending < k && s.now <= checkedAt <= decidedAt
    ensures Path(k, s, steps, t) && t.pending == s.pending && t.now <= decidedAt
    ensures t.entry == if Blocked(s.entry, checkedAt) then s.entry
                       else Decided(AfterCheck(s.entry, checkedAt), verdict, decidedAt)
  {
    var check, decide := Check(checkedAt), Decide(decidedAt, verdict);
    var s1 := Next(k, s, check);
    if Blocked(s.entry, checkedAt) {
      steps, t := [check], s1;
      assert steps[1..] == [];
    } else {
      steps, t := [check, decide], Next(k, s1, decide);
      assert steps[1..] == [decide] && steps[1..][1..] == [];
    }
  }

  // ----- the bound is reached -----

  lemma {:induction false} PathsJoin(k: nat, s: State, a: seq<Step>, t: State, b: seq<Step>, u: State)
    requires Path(k, s, a, t) && Path(k, t, b, u)
    ensures Path(k, s, a + b, u)
    decreases |a|
  {
    if a == [] {
      assert a + b == b;
    } else {
      PathsJoin(k, Next(k, s, a[0]), a[1..], t, b, u);
      assert (a + b)[1..] == a[1..] + b;
    }
  }

  lemma Prepend(k: nat, s: State, step: Step, rest: seq<Step>, t: State)
    requires Enabled(k, s, step) && Path(k, Next(k, s, step), rest, t)
    ensures Path(k, s, [step] + rest, t)
  {
    assert ([step] + rest)[1..] == rest;
  }

  predicate Free(a: Option<Attempt>, now: nat) {
    !Blocked(a, now) && (a.Some? ==> !WindowOver(a.value, now))
  }

  /** n requests pass the check at one time. */
  lemma {:induction false} ManyChecks(k: nat, s: State, now: nat, n: nat) returns (steps: seq<Step>, t: State)
    requires s.pending + n <= k && s.now <= now && Free(s.entry, now)
    ensures Path(k, s, steps, t) && t.entry == s.entry && t.pending == s.pending + n && t.now <= now
    decreases n
  {
    if n == 0 {
      steps, t := [], s;
    } else {
      var s1 := Next(k, s, Check(now));
      steps, t := ManyChecks(k, s1, now, n - 1);
      Prepend(k, s, Check(now), steps, t);
      steps := [Check(now)] + steps;
    }
  }

  /** And then all of them fail. */
  lemma {:induction false} ManyFailures(k: nat, s: State, now: nat, n: nat) returns (steps: seq<Step>, t: State)
    requires n <= s.pending && s.now <= now && s.entry.Some?
    requires s.entry.value.failures >= 4 && !WindowOver(s.entry.value, now)
    ensures var a := s.entry.value;
      && Path(k, s, steps, t) && t.pending == s.pending - n && t.now <= now
      && t.entry == Some(if n == 0 then a else Attempt(a.failures + n, a.windowStart, Some(now + MINUTE)))
    decreases n
  {
    if n == 0 {
      steps, t := [], s;
    } else {
      var step := Decide(now, WrongPassword);
      var s1 := Next(k, s, step);
      steps, t := ManyFailures(k, s1, now, n - 1);
      Prepend(k, s, step, steps, t);
      steps := [step] + steps;
    }
  }

  /** k requests pass together as soon as the block is over, and fail. */
  lemma Round(k: nat, s: State, now: nat) returns (steps: seq<Step>, t: State)
    requires k > 0 && s.pending == 0 && s.now <= now && s.entry.Some? && s.entry.value.failures >= 4 && Free(s.entry, now)
    ensures Path(k, s, steps, t) && t.pending == 0 && t.now <= now
    ensures t.entry == Some(Attempt(s.entry.value.failures + k, s.entry.value.windowStart, Some(now + MINUTE)))
  {
    var checks, m := ManyChecks(k, s, now, k);
    var fails;
    fails, t := ManyFailures(k, m, now, k);
    PathsJoin(k, s, checks, m, fails, t);
    steps := checks + fails;
  }

  /** One request after the other, n of them, fail at time 0. */
  lemma {:induction false} FirstFailures(k: nat, n: nat) returns (steps: seq<Step>, t: State)
    requires k > 0 && n <= 4
    ensures Path(k, IDLE, steps, t) && t.pending == 0 && t.now == 0
    ensures t.entry == if n == 0 then None else Some(Attempt(n, 0, None))
    decreases n
  {
    if n == 0 {
      steps, t := [], IDLE;
    } else {
      var before, s := FirstFailures(k, n - 1);
      var more;
      more, t := HandlerIsPath(k, s, 0, 0, WrongPassword);
      PathsJoin(k, IDLE, before, s, more, t);
      steps := before + more;
    }
  }

  /** Rounds at minutes 0, 1, ..., n-1 of the window. */
  lemma {:induction false} Rounds(k: nat, n: nat) returns (steps: seq<Step>, t: State)
    requires k > 0 && n <= 6
    ensures Path(k, IDLE, steps, t) && t.pending == 0 && t.now <= (if n == 0 then 0 else n - 1) * MINUTE
    ensures t.entry == Some(Attempt(4 + n * k, 0, if n == 0 then None else Some(n * MINUTE)))
    decreases n
  {
    if n == 0 {
      steps, t := FirstFailures(k, 4);
    } else {
      var before, s := Rounds(k, n - 1);
      var more;
      more, t := Round(k, s, (n - 1) * MINUTE);
      PathsJoin(k, IDLE, before, s, more, t);
      steps := before + more;
      OneMore(n - 1, k);
    }
  }

  /** The bound is exact for every k: four failures, and then k together at each of the minutes 0 to 5. */
  lemma BoundIsReached(k: nat) returns (steps: seq<Step>, s: State)
    requires k > 0
    ensures Path(k, IDLE, steps, s) && s.entry.Some? && s.entry.value.failures == 4 + 6 * k
  {
    steps, s := Rounds(k, 6);
  }
}
