/**
 The reconnect manager of pkg/reconnect/manager.go: capped exponential backoff and a
 circuit breaker. Times and durations are nanoseconds; the new backoff is the product
 with the multiplier, truncated to a whole nanosecond as Go's conversion does.
 */
module Reconnect {
  import opened Prelude

  const SECOND: int := 1_000_000_000

  datatype Config = Config(
    minBackoff: int, maxBackoff: int, multiplier: real, maxRetries: int, heartbeatTimeout: int, resetAfter: int)

  /** Every zero stands for a default, maxRetries included. */
  function WithDefaults(c: Config): (d: Config)
    ensures d.minBackoff == 1_000_000_000 || (c.minBackoff != 0 && d.minBackoff == c.minBackoff)
    ensures d.maxBackoff == 300_000_000_000 || (c.maxBackoff != 0 && d.maxBackoff == c.maxBackoff)
    ensures d.multiplier == 2.0 || (c.multiplier != 0.0 && d.multiplier == c.multiplier)
    ensures d.maxRetries == 10 || (c.maxRetries != 0 && d.maxRetries == c.maxRetries)
    ensures d.heartbeatTimeout == 60_000_000_000 || (c.heartbeatTimeout != 0 && d.heartbeatTimeout == c.heartbeatTimeout)
    ensures d.resetAfter == 300_000_000_000 || (c.resetAfter != 0 && d.resetAfter == c.resetAfter)
    ensures c.minBackoff != 0 ==> d.minBackoff == c.minBackoff
    ensures c.maxBackoff != 0 ==> d.maxBackoff == c.maxBackoff
    ensures c.multiplier != 0.0 ==> d.multiplier == c.multiplier
    ensures c.maxRetries != 0 ==> d.maxRetries == c.maxRetries
    ensures c.heartbeatTimeout != 0 ==> d.heartbeatTimeout == c.heartbeatTimeout
    ensures c.resetAfter != 0 ==> d.resetAfter == c.resetAfter
  {
    Config(if c.minBackoff == 0 then SECOND else c.minBackoff,
           if c.maxBackoff == 0 then 300 * SECOND else c.maxBackoff,
           if c.multiplier == 0.0 then 2.0 else c.multiplier,
           if c.maxRetries == 0 then 10 else c.maxRetries,
           if c.heartbeatTimeout == 0 then 60 * SECOND else c.heartbeatTimeout,
           if c.resetAfter == 0 then 300 * SECOND else c.resetAfter)
  }

  /** The state under the lock. `lastMessage` is in whole seconds, 0 meaning never. */
  datatype Breaker = Breaker(backoff: int, failures: nat, reconnects: nat, open: bool, openedAt: int, lastMessage: int)

  function Fresh(c: Config): Breaker { Breaker(c.minBackoff, 0, 0, false, 0, 0) }

  function Times(x: real, k: real): real { x * k }

  function Grown(c: Config, backoff: int): int { MinInt(Truncate(Times(backoff as real, c.multiplier)), c.maxBackoff) }

  predicate Exhausted(c: Config, failures: int) { c.maxRetries > 0 && failures >= c.maxRetries }

  function Failed(c: Config, s: Breaker, now: int): Breaker {
    var t := s.(failures := s.failures + 1, backoff := Grown(c, s.backoff));
    if Exhausted(c, t.failures) then t.(open := true, openedAt := now) else t
  }

  function Succeeded(c: Config, s: Breaker, now: int): Breaker {
    Breaker(c.minBackoff, 0, s.reconnects + 1, false, if s.open then 0 else s.openedAt, now / SECOND)
  }

  function Reset(c: Config, s: Breaker): Breaker {
    if s.open then s.(open := false, openedAt := 0, failures := 0, backoff := c.minBackoff) else s
  }

  predicate MayRetry(c: Config, s: Breaker, now: int) {
    if s.open then now - s.openedAt >= c.resetAfter else !Exhausted(c, s.failures)
  }

  predicate Healthy(c: Config, s: Breaker, now: int) {
    !s.open && (s.lastMessage == 0 || now - s.lastMessage * SECOND <= c.heartbeatTimeout)
  }

  // ----- The object -----

  /** What ReconnectWithBackoff returns. */
  datatype Outcome = CircuitOpen | RetriesReached(failures: nat) | Cancelled | ConnectFailed | Connected

  /** The answers before the connection is tried: refused, cancelled while waiting, or go on. */
  datatype Admission = Refused(outcome: Outcome) | Admitted

  class Manager {
    const c: Config
    var currentBackoff: int
    var consecutiveFailures: nat
    var totalReconnects: nat
    var circuitOpen: bool
    var circuitOpenedAt: int
    var lastMessageTime: int

    function View(): Breaker
      reads this
    {
      Breaker(currentBackoff, consecutiveFailures, totalReconnects, circuitOpen, circuitOpenedAt, lastMessageTime)
    }

    constructor (config: Config)
      ensures c == WithDefaults(config) && View() == Fresh(c)
    {
      c := WithDefaults(config);
      currentBackoff := WithDefaults(config).minBackoff;
      consecutiveFailures, totalReconnects := 0, 0;
      circuitOpen, circuitOpenedAt, lastMessageTime := false, 0, 0;
    }

    method RecordMessageReceived(now: int)
      modifies this`lastMessageTime
      ensures View() == old(View()).(lastMessage := now / SECOND)
      ensures lastMessageTime * 1_000_000_000 <= now < (lastMessageTime + 1) * 1_000_000_000
    {
      lastMessageTime := now / SECOND;
    }

    method IsHealthy(now: int) returns (r: bool)
      ensures r == Healthy(c, View(), now)
      ensures r <==> !circuitOpen && (lastMessageTime == 0 || now <= lastMessageTime * 1_000_000_000 + c.heartbeatTimeout)
    {
      if circuitOpen { return false; }
      if lastMessageTime == 0 { return true; }
      r := now - lastMessageTime * SECOND <= c.heartbeatTimeout;
    }

    method ShouldRetry(now: int) returns (r: bool)
      ensures r == MayRetry(c, View(), now)
      ensures circuitOpen ==> (r <==> now >= circuitOpenedAt + c.resetAfter)
      ensures !circuitOpen ==> (r <==> c.maxRetries <= 0 || consecutiveFailures < c.maxRetries)
    {
      if circuitOpen { return !(now - circuitOpenedAt < c.resetAfter); }
      if c.maxRetries > 0 && consecutiveFailures >= c.maxRetries { return false; }
      return true;
    }

    method RecordFailure(now: int)
      modifies this
      ensures View() == Failed(c, old(View()), now)
      ensures consecutiveFailures == old(consecutiveFailures) + 1
      ensures if c.maxRetries > 0 && consecutiveFailures >= c.maxRetries then circuitOpen && circuitOpenedAt == now
              else circuitOpen == old(circuitOpen) && circuitOpenedAt == old(circuitOpenedAt)
      ensures lastMessageTime == old(lastMessageTime) && totalReconnects == old(totalReconnects)
    {
      consecutiveFailures := consecutiveFailures + 1;
      var newBackoff := Truncate(Times(currentBackoff as real, c.multiplier));
      if newBackoff > c.maxBackoff { newBackoff := c.maxBackoff; }
      currentBackoff := newBackoff;
      if c.maxRetries > 0 && consecutiveFailures >= c.maxRetries {
        circuitOpen := true;
        circuitOpenedAt := now;
      }
    }

    method RecordSuccess(now: int)
      modifies this
      ensures View() == Succeeded(c, old(View()), now)
      ensures consecutiveFailures == 0 && !circuitOpen && currentBackoff == c.minBackoff && totalReconnects == old(totalReconnects) + 1
      ensures circuitOpenedAt == if old(circuitOpen) then 0 else old(circuitOpenedAt)
      ensures lastMessageTime * 1_000_000_000 <= now < (lastMessageTime + 1) * 1_000_000_000
    {
      currentBackoff := c.minBackoff;
      consecutiveFailures := 0;
      totalReconnects := totalReconnects + 1;
      if circuitOpen {
        circuitOpen := false;
        circuitOpenedAt := 0;
      }
      lastMessageTime := now / SECOND;
    }

    method ResetCircuit()
      modifies this
      ensures View() == Reset(c, old(View()))
      ensures !circuitOpen && lastMessageTime == old(lastMessageTime) && totalReconnects == old(totalReconnects)
      ensures old(circuitOpen) ==> circuitOpenedAt == 0 && consecutiveFailures == 0 && currentBackoff == c.minBackoff
      ensures !old(circuitOpen) ==> unchanged(this)
    {
      if circuitOpen {
        circuitOpen := false;
        circuitOpenedAt := 0;
        consecutiveFailures := 0;
        currentBackoff := c.minBackoff;
      }
    }

    /** ReconnectWithBackoff up to the end of the wait; `cancelled` is how a wait would end. */
    method Admit(now: int, cancelled: bool) returns (r: Admission, wait: int)
      ensures r == Admits(c, View(), now, cancelled)
      ensures wait == if MayRetry(c, View(), now) then MaxInt(currentBackoff, 0) else 0
    {
      var retry := ShouldRetry(now);
      wait := 0;
      if !retry {
        if circuitOpen { return Refused(CircuitOpen), 0; }
        return Refused(RetriesReached(consecutiveFailures)), 0;
      }
      if currentBackoff > 0 {
        wait := currentBackoff;
        if cancelled { return Refused(Cancelled), wait; }
      }
      r := Admitted;
    }

    /** A whole ReconnectWithBackoff by a sequential caller: `ok` is what the connect function returns at `end`. */
    method ReconnectWithBackoff(a: Attempt) returns (r: Outcome)
      modifies this
      ensures r == OutcomeOf(c, old(View()), a) && View() == After(c, old(View()), a)
      ensures r == Connected ==> lastMessageTime * 1_000_000_000 <= a.end < (lastMessageTime + 1) * 1_000_000_000
      ensures r == ConnectFailed ==> consecutiveFailures == old(consecutiveFailures) + 1 && lastMessageTime == old(lastMessageTime)
      ensures !r.Connected? && !r.ConnectFailed? ==> unchanged(this)
    {
      var admission, wait := Admit(a.start, a.cancelled);
      if admission.Refused? { return admission.outcome; }
      if a.ok {
        RecordSuccess(a.end);
        r := Connected;
      } else {
        RecordFailure(a.end);
        r := ConnectFailed;
      }
    }
  }

  /** The error of a refusal, from the fields as they are read again after ShouldRetry returned. */
  function Refusal(s: Breaker): Outcome { if s.open then CircuitOpen else RetriesReached(s.failures) }

  function Admits(c: Config, s: Breaker, now: int, cancelled: bool): Admission {
    if !MayRetry(c, s, now) then Refused(Refusal(s))
    else if cancelled && s.backoff > 0 then Refused(Cancelled)
    else Admitted
  }

  datatype Attempt = Attempt(start: int, cancelled: bool, ok: bool, end: int)

  function OutcomeOf(c: Config, s: Breaker, a: Attempt): Outcome {
    match Admits(c, s, a.start, a.cancelled)
    case Refused(outcome) => outcome
    case Admitted => if a.ok then Connected else ConnectFailed
  }

  function After(c: Config, s: Breaker, a: Attempt): Breaker {
    match OutcomeOf(c, s, a)
    case Connected => Succeeded(c, s, a.end)
    case ConnectFailed => Failed(c, s, a.end)
    case _ => s
  }

  // ----- The backoff in closed form -----

  /** The backoff after n failures in a row. */
  function Backoff(c: Config, n: nat): int {
    if n == 0 then c.minBackoff else Grown(c, Backoff(c, n - 1))
  }

  function Power(x: real, n: nat): real { if n == 0 then 1.0 else x * Power(x, n - 1) }

  /** 1 + x + ... + x^(n-1): what n truncations can lose at most. */
  function Geometric(x: real, n: nat): real { if n == 0 then 0.0 else x * Geometric(x, n - 1) + 1.0 }

  lemma TimesGrows(x: real, y: real, k: real)
    requires k >= 0.0 && x <= y
    ensures Times(x, k) <= Times(y, k)
    ensures k >= 1.0 && x >= 0.0 ==> Times(x, k) >= x
  {
    var d := y - x;
    assert d * k >= 0.0;
    assert (x + d) * k == x * k + d * k;
    if k >= 1.0 && x >= 0.0 { assert x * (k - 1.0) >= 0.0; }
  }

  lemma TruncateBounds(x: real)
    requires x >= 0.0
    ensures 0 <= Truncate(x) && x - 1.0 < Truncate(x) as real <= x
  {
  }

  /** One failure multiplies a bound from above, and all but one nanosecond of a bound from below. */
  lemma GrownBounds(c: Config, b: int, low: real, high: real)
    requires c.multiplier >= 1.0 && 0 <= b <= c.maxBackoff
    requires Min(c.maxBackoff as real, low) <= b as real <= high
    ensures 0 <= Grown(c, b) <= c.maxBackoff
    ensures Grown(c, b) as real <= Times(high, c.multiplier)
    ensures Min(c.maxBackoff as real, Times(low, c.multiplier) - 1.0) <= Grown(c, b) as real
  {
    hide Times, Truncate;
    TimesGrows(b as real, high, c.multiplier);
    if low <= b as real { TimesGrows(low, b as real, c.multiplier); }
    Capped(c.maxBackoff, b, low, Times(b as real, c.multiplier), Times(low, c.multiplier), Times(high, c.multiplier));
  }

  lemma Capped(max: int, b: int, low: real, x: real, lowNext: real, highNext: real)
    requires 0 <= b <= max && b as real <= x <= highNext
    requires Min(max as real, low) <= b as real && (low <= b as real ==> lowNext <= x)
    ensures var g := MinInt(Truncate(x), max);
            0 <= g <= max && g as real <= highNext && Min(max as real, lowNext - 1.0) <= g as real
  {
    TruncateBounds(x);
    var t := Truncate(x);
    if low > b as real { assert t as real > (max - 1) as real; }
  }

  /** The backoff without cap and truncation. */
  function Ideal(c: Config, n: nat): real { c.minBackoff as real * Power(c.multiplier, n) }

  lemma IdealStep(c: Config, n: nat)
    ensures Ideal(c, n + 1) == Times(Ideal(c, n), c.multiplier)
    ensures Ideal(c, n + 1) - Geometric(c.multiplier, n + 1)
            == Times(Ideal(c, n) - Geometric(c.multiplier, n), c.multiplier) - 1.0
  {
    Distribute(c.multiplier, c.minBackoff as real, Power(c.multiplier, n), Geometric(c.multiplier, n));
  }

  lemma Distribute(k: real, m: real, p: real, g: real)
    ensures (m * p) * k == m * (k * p)
    ensures (m * p - g) * k == m * (k * p) - k * g
  {
  }

  lemma {:induction false} BackoffBounds(c: Config, n: nat)
    requires c.multiplier >= 1.0 && 0 <= c.minBackoff <= c.maxBackoff
    ensures 0 <= Backoff(c, n) <= c.maxBackoff
    ensures Min(c.maxBackoff as real, Ideal(c, n) - Geometric(c.multiplier, n)) <= Backoff(c, n) as real <= Ideal(c, n)
  {
    hide Grown, Ideal, Geometric, Times;
    if n == 0 {
      IdealStart(c);
    } else {
      BackoffBounds(c, n - 1);
      GrownBounds(c, Backoff(c, n - 1), Ideal(c, n - 1) - Geometric(c.multiplier, n - 1), Ideal(c, n - 1));
      IdealStep(c, n - 1);
    }
  }

  lemma IdealStart(c: Config)
    ensures Ideal(c, 0) == c.minBackoff as real && Geometric(c.multiplier, 0) == 0.0
  {
  }

  function IntPower(k: int, n: nat): int { if n == 0 then 1 else k * IntPower(k, n - 1) }

  /** With a whole multiplier nothing is truncated: the backoff is the capped power exactly. */
  lemma {:induction false} BackoffExact(c: Config, k: int, n: nat)
    requires k >= 1 && c.multiplier == k as real && 0 <= c.minBackoff <= c.maxBackoff
    ensures Backoff(c, n) == MinInt(c.maxBackoff, c.minBackoff * IntPower(k, n))
  {
    hide Grown;
    if n == 0 {
    } else {
      BackoffExact(c, k, n - 1);
      var b, ideal := Backoff(c, n - 1), c.minBackoff * IntPower(k, n - 1);
      GrownWhole(c, k, b);
      IntStep(k, c.maxBackoff, ideal, c.minBackoff, IntPower(k, n - 1));
    }
  }

  lemma GrownWhole(c: Config, k: int, b: int)
    requires c.multiplier == k as real
    ensures Grown(c, b) == MinInt(b * k, c.maxBackoff)
  {
    assert b as real * k as real == (b * k) as real;
  }

  lemma IntStep(k: int, max: int, ideal: int, m: int, p: int)
    requires k >= 1 && max >= 0 && ideal == m * p
    ensures MinInt(MinInt(max, ideal) * k, max) == MinInt(max, m * (k * p))
  {
    assert m * (k * p) == ideal * k;
    assert max * k >= max;
    if ideal >= max { assert ideal * k >= max * k; }
  }

  predicate Whole(x: real) { x.Floor as real == x }

  /** After n failures, cap included, nothing has been lost to truncation. */
  predicate Exact(c: Config, n: nat) { Backoff(c, n) as real == Min(c.maxBackoff as real, Ideal(c, n)) }

  lemma ExactStep(c: Config, n: nat)
    requires c.multiplier >= 1.0 && 0 <= c.minBackoff <= c.maxBackoff && Exact(c, n)
    requires Ideal(c, n + 1) <= c.maxBackoff as real ==> Whole(Ideal(c, n + 1))
    ensures Exact(c, n + 1)
  {
    hide Ideal, Times, Geometric;
    IdealStep(c, n);
    BackoffBounds(c, n);
    var b, ideal := Backoff(c, n) as real, Ideal(c, n);
    TimesGrows(b, ideal, c.multiplier);
    TruncateBounds(Times(b, c.multiplier));
  }

  /**
   For any multiplier the backoff is the capped power exactly, up to n failures, if and only if every
   uncapped value up to there that does not exceed the cap is a whole number of nanoseconds.
   */
  lemma {:induction false} BackoffExactIff(c: Config, n: nat)
    requires c.multiplier >= 1.0 && 0 <= c.minBackoff <= c.maxBackoff
    ensures (forall k: nat :: k <= n ==> Exact(c, k)) <==>
            (forall k: nat :: k <= n && Ideal(c, k) <= c.maxBackoff as real ==> Whole(Ideal(c, k)))
  {
    hide Ideal, Geometric, Backoff;
    if n == 0 {
      IdealStart(c);
      BackoffStart(c);
    } else {
      BackoffExactIff(c, n - 1);
      if Exact(c, n - 1) && (Ideal(c, n) <= c.maxBackoff as real ==> Whole(Ideal(c, n))) { ExactStep(c, n - 1); }
      assert Exact(c, n) && Ideal(c, n) <= c.maxBackoff as real ==> Whole(Ideal(c, n));
    }
  }

  lemma BackoffStart(c: Config)
    ensures Backoff(c, 0) == c.minBackoff
  {
  }

  // ----- Runs of a sequential caller -----

  datatype Event = Try(a: Attempt) | Success(at: int) | ManualReset(at: int)

  /** The breaker, the clock at the end of the last event, and when the current streak of failures began. */
  datatype Timed = Timed(s: Breaker, now: int, since: int)

  /** Events follow one another, and an attempt that goes through waits its backoff first. */
  predicate Timely(c: Config, x: Timed, e: Event) {
    match e
    case Try(a) =>
      && x.now <= a.start <= a.end
      && (Admits(c, x.s, a.start, a.cancelled).Admitted? ==> a.end >= a.start + MaxInt(x.s.backoff, 0))
    case Success(at) => x.now <= at
    case ManualReset(at) => x.now <= at
  }

  /** Does this event end a streak of failures? */
  predicate Clears(c: Config, x: Timed, e: Event) {
    match e
    case Try(a) => OutcomeOf(c, x.s, a) == Connected
    case Success(_) => true
    case ManualReset(_) => x.s.open
  }

  predicate Fails(c: Config, x: Timed, e: Event) { e.Try? && OutcomeOf(c, x.s, e.a) == ConnectFailed }

  function EndOf(e: Event): int {
    match e
    case Try(a) => a.end
    case Success(at) => at
    case ManualReset(at) => at
  }

  function Step(c: Config, x: Timed, e: Event): Timed {
    var s := match e
      case Try(a) => After(c, x.s, a)
      case Success(at) => Succeeded(c, x.s, at)
      case ManualReset(_) => Reset(c, x.s);
    Timed(s, EndOf(e), if Clears(c, x, e) then EndOf(e) else x.since)
  }

  function Run(c: Config, start: Timed, es: seq<Event>, n: nat): Timed
    requires n <= |es|
  {
    if n == 0 then start else Step(c, Run(c, start, es, n - 1), es[n - 1])
  }

  ghost predicate Happens(c: Config, start: Timed, es: seq<Event>) {
    forall i :: 0 <= i < |es| ==> Timely(c, Run(c, start, es, i), es[i])
  }

  /** All the waiting before the n-th failure of a streak. */
  function Waits(c: Config, n: nat): nat {
    if n == 0 then 0 else Waits(c, n - 1) + MaxInt(Backoff(c, n - 1), 0)
  }

  /** The least time that a streak of n failures takes: all its waiting, and a reset period for each failure past maxRetries. */
  function StreakTime(c: Config, n: nat): nat
    requires c.resetAfter >= 0
  {
    Waits(c, n) + if Exhausted(c, n) then (n - c.maxRetries) * c.resetAfter else 0
  }

  ghost predicate Inv(c: Config, x: Timed) {
    && (x.s.open <==> Exhausted(c, x.s.failures))
    && x.s.backoff == Backoff(c, x.s.failures)
    && x.since <= x.now
    && (x.s.open ==> x.s.openedAt <= x.now)
    && (c.resetAfter >= 0 ==>
          if x.s.open then x.s.openedAt >= x.since + StreakTime(c, x.s.failures) else x.now >= x.since + StreakTime(c, x.s.failures))
  }

  lemma StartInv(c: Config, now: int)
    requires c.maxRetries != 0
    ensures Inv(c, Timed(Fresh(c), now, now))
  {
  }

  lemma StreakGrows(c: Config, n: nat)
    requires c.resetAfter >= 0
    ensures StreakTime(c, n + 1) == StreakTime(c, n) + MaxInt(Backoff(c, n), 0) + if Exhausted(c, n) then c.resetAfter else 0
  {
    if Exhausted(c, n) {
      assert (n + 1 - c.maxRetries) * c.resetAfter == (n - c.maxRetries) * c.resetAfter + c.resetAfter;
    }
  }

  lemma StepKeepsInv(c: Config, x: Timed, e: Event)
    requires Inv(c, x) && Timely(c, x, e)
    ensures Inv(c, Step(c, x, e))
  {
    hide Grown, StreakTime;
    if c.resetAfter >= 0 {
      StreakGrows(c, x.s.failures);
      NoStreak(c);
    }
  }

  lemma NoStreak(c: Config)
    requires c.resetAfter >= 0
    ensures StreakTime(c, 0) == 0
  {
  }

  /**
   In every reachable state the circuit is open exactly when the retries are used up, the backoff is
   the closed form of the failures, and the n-th failure in a row has cost all its waiting and, past
   maxRetries, a reset period each.
   */
  lemma {:induction false} Reachable(c: Config, start: int, es: seq<Event>, n: nat)
    requires c.maxRetries != 0 && n <= |es| && Happens(c, Timed(Fresh(c), start, start), es)
    ensures var x := Run(c, Timed(Fresh(c), start, start), es, n);
            && Inv(c, x)
            && (x.s.open <==> c.maxRetries > 0 && x.s.failures >= c.maxRetries)
            && x.s.backoff == Backoff(c, x.s.failures)
            && (c.resetAfter >= 0 ==> x.now - x.since >= StreakTime(c, x.s.failures))
  {
    hide Step, Timely, StreakTime, Fresh;
    if n == 0 {
      StartInv(c, start);
    } else {
      Reachable(c, start, es, n - 1);
      StepKeepsInv(c, Run(c, Timed(Fresh(c), start, start), es, n - 1), es[n - 1]);
    }
  }

  /** n failing attempts, each made as soon as it is admitted and failing right after its wait. */
  function Streak(c: Config, start: int, n: nat): (es: seq<Event>)
    requires c.resetAfter >= 0
    ensures |es| == n
  {
    if n == 0 then []
    else
      var begin := start + StreakTime(c, n - 1) + if c.maxRetries > 0 && n - 1 >= c.maxRetries then c.resetAfter else 0;
      Streak(c, start, n - 1) + [Try(Attempt(begin, false, false, begin + MaxInt(Backoff(c, n - 1), 0)))]
  }

  lemma {:induction false} RunPrefix(c: Config, start: Timed, es: seq<Event>, more: seq<Event>, n: nat)
    requires n <= |es|
    ensures Run(c, start, es + more, n) == Run(c, start, es, n)
  {
    hide Step;
    if n == 0 {
    } else {
      RunPrefix(c, start, es, more, n - 1);
    }
  }

  /** The time that Reachable gives for a streak of n failures is the least possible: this run takes no longer. */
  lemma {:induction false} StreakAttained(c: Config, begin: int, n: nat)
    requires c.maxRetries != 0 && c.resetAfter >= 0
    ensures var start, es := Timed(Fresh(c), begin, begin), Streak(c, begin, n);
            && Happens(c, start, es)
            && var x := Run(c, start, es, n);
               x.s.failures == n && x.since == begin && x.now == begin + StreakTime(c, n) && (x.s.open ==> x.s.openedAt == x.now)
  {
    hide Grown, StreakTime, Step;
    var start := Timed(Fresh(c), begin, begin);
    if n == 0 {
      NoStreak(c);
    } else {
      StreakAttained(c, begin, n - 1);
      var before, es := Streak(c, begin, n - 1), Streak(c, begin, n);
      var last := es[n - 1];
      assert es == before + [last];
      forall i | 0 <= i < n ensures Run(c, start, es, i) == Run(c, start, before, i) { RunPrefix(c, start, before, [last], i); }
      var x := Run(c, start, before, n - 1);
      Reachable(c, begin, before, n - 1);
      StreakGrows(c, n - 1);
      NextFails(c, x, begin, n - 1, last);
      forall i | 0 <= i < n ensures Timely(c, Run(c, start, es, i), es[i]) {
        if i < n - 1 { assert es[i] == before[i]; }
      }
    }
  }

  lemma NextFails(c: Config, x: Timed, begin: int, n: nat, e: Event)
    requires c.resetAfter >= 0 && Inv(c, x) && x.s.failures == n && x.since == begin && x.now == begin + StreakTime(c, n)
    requires x.s.open ==> x.s.openedAt == x.now
    requires e.Try? && !e.a.cancelled && !e.a.ok && e.a.start == x.now + (if Exhausted(c, n) then c.resetAfter else 0)
    requires e.a.end == e.a.start + MaxInt(Backoff(c, n), 0)
    ensures Timely(c, x, e)
    ensures var y := Step(c, x, e);
            y.s.failures == n + 1 && y.since == begin && y.now == e.a.end && (y.s.open ==> y.s.openedAt == y.now)
  {
    hide Grown, StreakTime, Backoff;
  }

  /**
   What a sequential caller is told, for every attempt in every reachable state. It is never "max retries
   reached": a refusal is the open circuit within its reset period. Otherwise a cancelled context ends the wait
   if there is one, and without a wait it is not even looked at.
   */
  lemma RefusalIsOpenCircuit(c: Config, x: Timed, a: Attempt)
    requires Inv(c, x)
    ensures var refused := c.maxRetries > 0 && x.s.failures >= c.maxRetries && a.start < x.s.openedAt + c.resetAfter;
            var stopped := a.cancelled && Backoff(c, x.s.failures) > 0;
            && !OutcomeOf(c, x.s, a).RetriesReached?
            && (OutcomeOf(c, x.s, a) == CircuitOpen <==> refused)
            && (OutcomeOf(c, x.s, a) == Cancelled <==> !refused && stopped)
            && (OutcomeOf(c, x.s, a) == Connected <==> !refused && !stopped && a.ok)
            && (OutcomeOf(c, x.s, a) == ConnectFailed <==> !refused && !stopped && !a.ok)
            && (refused || stopped ==> After(c, x.s, a) == x.s)
  {
    hide Backoff, StreakTime;
  }

  // ----- Others at work between the check and the second read -----

  /** What other goroutines may record between the two. */
  datatype Meanwhile = AlsoFails(at: int) | AlsoSucceeds(at: int) | AlsoResets | AlsoReceives(at: int)

  function Shift(c: Config, s: Breaker, e: Meanwhile): Breaker {
    match e
    case AlsoFails(at) => Failed(c, s, at)
    case AlsoSucceeds(at) => Succeeded(c, s, at)
    case AlsoResets => Reset(c, s)
    case AlsoReceives(at) => s.(lastMessage := at / SECOND)
  }

  function Shifted(c: Config, s: Breaker, es: seq<Meanwhile>, n: nat): Breaker
    requires n <= |es|
  {
    if n == 0 then s else Shift(c, Shifted(c, s, es, n - 1), es[n - 1])
  }

  /** Event i clears the failures: a success, or a reset that finds the circuit open. */
  predicate ClearsAt(c: Config, s: Breaker, es: seq<Meanwhile>, i: nat)
    requires i < |es|
  {
    es[i].AlsoSucceeds? || (es[i].AlsoResets? && Shifted(c, s, es, i).open)
  }

  /** One past the last of the first n events that clears, or 0. */
  function ClearedBy(c: Config, s: Breaker, es: seq<Meanwhile>, n: nat): (k: nat)
    requires n <= |es|
    ensures k <= n && (k > 0 ==> ClearsAt(c, s, es, k - 1))
    ensures forall i :: k <= i < n ==> !ClearsAt(c, s, es, i)
  {
    if n == 0 then 0 else if ClearsAt(c, s, es, n - 1) then n else ClearedBy(c, s, es, n - 1)
  }

  /** The failures among events lo, ..., hi - 1. */
  function FailuresAmong(es: seq<Meanwhile>, lo: nat, hi: nat): nat
    requires hi <= |es|
    decreases hi
  {
    if hi <= lo then 0 else FailuresAmong(es, lo, hi - 1) + if es[hi - 1].AlsoFails? then 1 else 0
  }

  lemma {:induction false} FailuresSinceClear(c: Config, s: Breaker, es: seq<Meanwhile>, n: nat)
    requires n <= |es| && (s.open <==> Exhausted(c, s.failures))
    ensures var t, k := Shifted(c, s, es, n), ClearedBy(c, s, es, n);
            && (t.open <==> c.maxRetries > 0 && t.failures >= c.maxRetries)
            && t.failures == FailuresAmong(es, k, n) + (if k == 0 then s.failures else 0)
            && (s.backoff == Backoff(c, s.failures) ==> t.backoff == Backoff(c, t.failures))
  {
    hide Grown;
    if n == 0 {
    } else {
      FailuresSinceClear(c, s, es, n - 1);
    }
  }

  /** The time of the latest success or received message among the first n events. */
  function HeardAt(es: seq<Meanwhile>, n: nat): Option<int>
    requires n <= |es|
  {
    if n == 0 then None
    else
      match es[n - 1]
      case AlsoSucceeds(at) => Some(at)
      case AlsoReceives(at) => Some(at)
      case _ => HeardAt(es, n - 1)
  }

  /** Whatever failures, successes, resets and messages come: the heartbeat is the whole second of the latest success or message. */
  lemma {:induction false} HeartbeatIsLatest(c: Config, es: seq<Meanwhile>, n: nat)
    requires n <= |es|
    ensures var last, heard := Shifted(c, Fresh(c), es, n).lastMessage, HeardAt(es, n);
            if heard.None? then last == 0 else last * 1_000_000_000 <= heard.value < (last + 1) * 1_000_000_000
  {
    hide Grown;
    if n == 0 {
    } else {
      HeartbeatIsLatest(c, es, n - 1);
    }
  }

  /**
   So a manager is healthy if and only if the failures since they were last cleared leave the circuit closed,
   and nothing was heard yet, or what was heard last is not longer ago than the timeout, counted from the second
   it fell into. (The first second of 1970 counts as never.)
   */
  lemma HealthyIff(c: Config, es: seq<Meanwhile>, n: nat, now: int)
    requires n <= |es| && c.maxRetries != 0
    ensures var s, k, heard := Shifted(c, Fresh(c), es, n), ClearedBy(c, Fresh(c), es, n), HeardAt(es, n);
            Healthy(c, s, now) <==>
              && (c.maxRetries < 0 || FailuresAmong(es, k, n) < c.maxRetries)
              && (heard.None? || 0 <= heard.value < 1_000_000_000
                  || exists second :: second * 1_000_000_000 <= heard.value < (second + 1) * 1_000_000_000
                                      && now <= second * 1_000_000_000 + c.heartbeatTimeout)
  {
    hide Shifted, ClearedBy, Failed, Succeeded, Reset;
    FailuresSinceClear(c, Fresh(c), es, n);
    HeartbeatIsLatest(c, es, n);
  }

  /**
   Whatever others record between the check and the second read, a refused caller is told "max
   retries reached" exactly when one of them cleared the failures and fewer than maxRetries failures
   followed; and that is the number it is told.
   */
  lemma RetriesReachedOnlyByRace(c: Config, x: Timed, now: int, es: seq<Meanwhile>)
    requires Inv(c, x) && !MayRetry(c, x.s, now)
    ensures var k, told := ClearedBy(c, x.s, es, |es|), Refusal(Shifted(c, x.s, es, |es|));
            && (told.RetriesReached? <==> k > 0 && FailuresAmong(es, k, |es|) < c.maxRetries)
            && (told.RetriesReached? ==> told.failures == FailuresAmong(es, k, |es|))
            && (!told.RetriesReached? ==> told == CircuitOpen)
  {
    hide Shifted, ClearedBy, StreakTime;
    FailuresSinceClear(c, x.s, es, |es|);
  }

  /** When the failures happened, among events from the n-th on. */
  function FailureTimes(c: Config, start: Timed, es: seq<Event>, n: nat): seq<int>
    requires n <= |es|
    decreases |es| - n
  {
    if n == |es| then []
    else
      var x := Run(c, start, es, n);
      (if Fails(c, x, es[n]) then [EndOf(es[n])] else []) + FailureTimes(c, start, es, n + 1)
  }

  /**
   In a stretch without success or effective reset the failures are numbered on from those before it,
   and lie at least as far apart as that many failures of one streak.
   */
  ghost predicate Apart(c: Config, x: Timed, ts: seq<int>)
    requires c.resetAfter >= 0
  {
    ts != [] ==>
      && ts[|ts| - 1] - ts[0] >= StreakTime(c, x.s.failures + |ts|) - StreakTime(c, x.s.failures + 1)
      && ts[0] >= (if x.s.open then x.s.openedAt + c.resetAfter else x.now) + MaxInt(Backoff(c, x.s.failures), 0)
  }

  lemma {:induction false} SpanBound(c: Config, start: Timed, es: seq<Event>, n: nat)
    requires c.maxRetries > 0 && c.resetAfter >= 0 && n <= |es|
    requires Inv(c, start) && Happens(c, start, es)
    requires forall i :: n <= i < |es| ==> !Clears(c, Run(c, start, es, i), es[i])
    requires forall i :: 0 <= i <= n ==> Inv(c, Run(c, start, es, i))
    ensures Apart(c, Run(c, start, es, n), FailureTimes(c, start, es, n))
    decreases |es| - n
  {
    hide Inv, Step, Timely, Clears, Apart;
    var x := Run(c, start, es, n);
    if n == |es| {
      NothingApart(c, x);
    } else {
      StepKeepsInv(c, x, es[n]);
      SpanBound(c, start, es, n + 1);
      SpanStep(c, x, es[n], FailureTimes(c, start, es, n + 1));
    }
  }

  lemma NothingApart(c: Config, x: Timed)
    requires c.resetAfter >= 0
    ensures Apart(c, x, [])
  {
  }

  /** One event in front of a stretch that already meets the bound. */
  lemma SpanStep(c: Config, x: Timed, e: Event, later: seq<int>)
    requires c.maxRetries > 0 && c.resetAfter >= 0 && Inv(c, x) && Timely(c, x, e) && !Clears(c, x, e)
    requires Apart(c, Step(c, x, e), later)
    ensures Apart(c, x, (if Fails(c, x, e) then [EndOf(e)] else []) + later)
  {
    hide Grown, Backoff, StreakTime;
    if Fails(c, x, e) {
      StreakGrows(c, x.s.failures + 1);
    } else {
      assert [] + later == later;
    }
  }

  /** Waiting never runs backwards, and past maxRetries every failure costs a reset period. */
  lemma StreakCosts(c: Config, m: nat, n: nat)
    requires c.maxRetries > 0 && c.resetAfter >= 0 && 1 <= m <= n
    ensures StreakTime(c, n) - StreakTime(c, m) >= Waits(c, n) - Waits(c, m)
    ensures StreakTime(c, n) - StreakTime(c, m) - (Waits(c, n) - Waits(c, m)) >= (n - m + 1 - c.maxRetries) * c.resetAfter
  {
    var past, before := MaxInt(n - c.maxRetries, 0), MaxInt(m - c.maxRetries, 0);
    MonotoneProduct(before, past, c.resetAfter);
    MonotoneProduct(n - m + 1 - c.maxRetries, past - before, c.resetAfter);
    assert (past - before) * c.resetAfter == past * c.resetAfter - before * c.resetAfter;
  }

  lemma MonotoneProduct(x: int, y: int, k: int)
    requires x <= y && k >= 0
    ensures x * k <= y * k
  {
  }

  /**
   Failures at these times, f of their streak before them: as far apart as in one streak, so besides
   the waiting of each, all but maxRetries of them cost a full reset period. Their number is therefore
   at most maxRetries + span / resetAfter.
   */
  ghost predicate Sparse(c: Config, f: nat, ts: seq<int>)
    requires c.resetAfter >= 0
  {
    ts != [] ==>
      var span := ts[|ts| - 1] - ts[0];
      && span >= StreakTime(c, f + |ts|) - StreakTime(c, f + 1)
      && span >= Waits(c, f + |ts|) - Waits(c, f + 1) + (|ts| - c.maxRetries) * c.resetAfter
      && span >= (|ts| - c.maxRetries) * c.resetAfter
  }

  lemma ApartIsSparse(c: Config, x: Timed, ts: seq<int>)
    requires c.maxRetries > 0 && c.resetAfter >= 0 && Apart(c, x, ts)
    ensures Sparse(c, x.s.failures, ts)
  {
    hide StreakTime, Waits, Backoff;
    if ts != [] {
      StreakCosts(c, x.s.failures + 1, x.s.failures + |ts|);
      WaitsGrow(c, x.s.failures + 1, x.s.failures + |ts|);
      assert x.s.failures + |ts| - (x.s.failures + 1) + 1 - c.maxRetries == |ts| - c.maxRetries;
    }
  }

  /** In a stretch of any run with no success and no effective reset the failures are sparse. */
  lemma FailuresPerSpan(c: Config, begin: int, es: seq<Event>, n: nat)
    requires c.maxRetries > 0 && c.resetAfter >= 0 && n <= |es|
    requires var start := Timed(Fresh(c), begin, begin);
             Happens(c, start, es) && forall i :: n <= i < |es| ==> !Clears(c, Run(c, start, es, i), es[i])
    ensures var start := Timed(Fresh(c), begin, begin);
            Sparse(c, Run(c, start, es, n).s.failures, FailureTimes(c, start, es, n))
  {
    hide Inv, Step, Timely, Clears, Fresh, StreakTime, Waits, Apart, Sparse;
    var start := Timed(Fresh(c), begin, begin);
    StartInv(c, begin);
    forall i | 0 <= i <= n ensures Inv(c, Run(c, start, es, i)) { Reachable(c, begin, es, i); }
    SpanBound(c, start, es, n);
    ApartIsSparse(c, Run(c, start, es, n), FailureTimes(c, start, es, n));
  }

  lemma {:induction false} WaitsGrow(c: Config, m: nat, n: nat)
    requires m <= n
    ensures Waits(c, m) <= Waits(c, n)
  {
    if m == n {
    } else {
      WaitsGrow(c, m, n - 1);
    }
  }
}
