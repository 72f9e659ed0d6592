/**
 The token bucket of internal/adapters/ai/rate_limiter.go. Times are seconds on the
 clock that the lock-protected section reads. One run function serves the local
 bucket and the Redis script: a call marked `missing` finds no stored bucket and so
 starts from a full one.
 */
module TokenBucket {
  import opened Prelude

  datatype Config = Config(rate: real, burst: int)

  datatype Bucket = Bucket(tokens: real, last: real)

  datatype Call = Call(now: real, missing: bool)

  /** The burst a caller asked for, or a tenth of the minute rate, but never below one. */
  function Normalize(reqPerMinute: real, burst: int): (c: Config)
    ensures c.burst >= 1 && c.rate * 60.0 == reqPerMinute
    ensures burst >= 1 ==> c.burst == burst
    ensures burst <= 0 && reqPerMinute >= 10.0 ==>
              c.burst as real <= reqPerMinute / 10.0 < c.burst as real + 1.0
    ensures burst <= 0 && reqPerMinute < 10.0 ==> c.burst == 1
  {
    var b := if burst <= 0 then MaxInt(Truncate(reqPerMinute / 10.0), 1) else burst;
    Config(reqPerMinute / 60.0, b)
  }

  function Full(c: Config, at: real): Bucket { Bucket(c.burst as real, at) }

  /** Tokens earned between two moments; negative when the clock went back. */
  function Accrued(c: Config, since: real, now: real): real { c.rate * (now - since) }

  lemma AccruedSum(c: Config, x: real, y: real, z: real)
    ensures Accrued(c, x, z) == Accrued(c, x, y) + Accrued(c, y, z)
  {
    assert z - x == (y - x) + (z - y);
  }

  lemma AccruedIs(c: Config, since: real, now: real)
    ensures Accrued(c, since, now) == c.rate * (now - since)
  {
  }

  lemma NoTimeNoTokens(c: Config, now: real)
    ensures Accrued(c, now, now) == 0.0
  {
  }

  /** The most that any stretch of this length may grant. */
  function Allowance(c: Config, span: real): real { c.burst as real + c.rate * span }

  lemma AllowanceCovers(c: Config, since: real, now: real, span: real)
    requires c.rate >= 0.0 && now - since <= span
    ensures c.burst as real + Accrued(c, since, now) <= Allowance(c, span)
  {
  }

  /** Tokens after the refill and the cap, before the decision. */
  function Refill(c: Config, b: Bucket, now: real): real {
    Min(c.burst as real, b.tokens + Accrued(c, b.last, now))
  }

  function Spend(level: real, now: real): Bucket {
    Bucket(if level >= 1.0 then level - 1.0 else level, now)
  }

  /** The bucket after the first n calls. */
  function At(c: Config, b: Bucket, cs: seq<Call>, n: nat): Bucket
    requires n <= |cs|
    decreases n, 0
  {
    if n == 0 then b else Spend(Level(c, b, cs, n - 1), cs[n - 1].now)
  }

  /** The tokens that call n finds when it decides. */
  function Level(c: Config, b: Bucket, cs: seq<Call>, n: nat): real
    requires n < |cs|
    decreases n, 1
  {
    if cs[n].missing then c.burst as real else Refill(c, At(c, b, cs, n), cs[n].now)
  }

  predicate Granted(c: Config, b: Bucket, cs: seq<Call>, n: nat)
    requires n < |cs|
  {
    Level(c, b, cs, n) >= 1.0
  }

  /** How many of the calls lo, ..., hi - 1 were granted. */
  function Grants(c: Config, b: Bucket, cs: seq<Call>, lo: nat, hi: nat): nat
    requires hi <= |cs|
    decreases hi
  {
    if hi <= lo then 0
    else Grants(c, b, cs, lo, hi - 1) + (if Granted(c, b, cs, hi - 1) then 1 else 0)
  }

  // ----- The exact envelope -----

  /** No call after start, up to n, found its bucket gone. Start -1 is the initial bucket. */
  ghost predicate Reaches(cs: seq<Call>, start: int, n: nat)
    requires -1 <= start <= n < |cs|
  {
    forall i :: start < i <= n ==> !cs[i].missing
  }

  /** What would be left at call n if the bucket had been full at `start` and never capped since. */
  function Credit(c: Config, b: Bucket, cs: seq<Call>, start: int, n: nat): real
    requires -1 <= start <= n < |cs|
  {
    if start == -1 then b.tokens + Accrued(c, b.last, cs[n].now) - Grants(c, b, cs, 0, n) as real
    else c.burst as real + Accrued(c, cs[start].now, cs[n].now) - Grants(c, b, cs, start, n) as real
  }

  lemma CreditStep(c: Config, b: Bucket, cs: seq<Call>, start: int, n: nat)
    requires -1 <= start < n < |cs| && 0 < n
    ensures Credit(c, b, cs, start, n) == Credit(c, b, cs, start, n - 1)
              + Accrued(c, cs[n - 1].now, cs[n].now)
              - (if Granted(c, b, cs, n - 1) then 1.0 else 0.0)
  {
    hide Accrued;
    var t := if start == -1 then b.last else cs[start].now;
    AccruedSum(c, t, cs[n - 1].now, cs[n].now);
  }

  /** Without the cap, the level moves from one call to the next exactly as every credit does. */
  lemma EnvelopeStep(c: Config, b: Bucket, cs: seq<Call>, start: int, n: nat)
    requires -1 <= start < n < |cs| && 0 < n && !cs[n].missing
    ensures Level(c, b, cs, n) - Credit(c, b, cs, start, n) <= Level(c, b, cs, n - 1) - Credit(c, b, cs, start, n - 1)
    ensures Level(c, b, cs, n) == c.burst as real
            || Level(c, b, cs, n) - Credit(c, b, cs, start, n) == Level(c, b, cs, n - 1) - Credit(c, b, cs, start, n - 1)
  {
    hide Accrued;
    CreditStep(c, b, cs, start, n);
  }

  lemma {:induction false} EnvelopeWitness(c: Config, b: Bucket, cs: seq<Call>, n: nat) returns (best: int)
    requires n < |cs|
    ensures forall start | -1 <= start <= n && Reaches(cs, start, n) ::
              Level(c, b, cs, n) <= Credit(c, b, cs, start, n)
    ensures -1 <= best <= n && Reaches(cs, best, n) && Level(c, b, cs, n) == Credit(c, b, cs, best, n)
  {
    hide Accrued;
    CapCredit(c, b, cs, n);
    if cs[n].missing {
      best := n;
    } else if n == 0 {
      best := if Level(c, b, cs, 0) == c.burst as real then 0 else -1;
    } else {
      best := EnvelopeWitness(c, b, cs, n - 1);
      EnvelopeStep(c, b, cs, best, n);
      forall start | -1 <= start < n && Reaches(cs, start, n)
        ensures Level(c, b, cs, n) <= Credit(c, b, cs, start, n)
      {
        assert Reaches(cs, start, n - 1);
        EnvelopeStep(c, b, cs, start, n);
      }
      if Level(c, b, cs, n) == c.burst as real { best := n; }
    }
  }

  lemma CapCredit(c: Config, b: Bucket, cs: seq<Call>, n: nat)
    requires n < |cs|
    ensures Level(c, b, cs, n) <= c.burst as real == Credit(c, b, cs, n, n)
  {
  }

  /** Before each decision the bucket holds exactly the least credit over all earlier starts. */
  lemma Envelope(c: Config, b: Bucket, cs: seq<Call>, n: nat)
    requires n < |cs|
    ensures forall start | -1 <= start <= n && Reaches(cs, start, n) ::
              Level(c, b, cs, n) <= Credit(c, b, cs, start, n)
    ensures exists start :: -1 <= start <= n && Reaches(cs, start, n) && Level(c, b, cs, n) == Credit(c, b, cs, start, n)
  {
    var best := EnvelopeWitness(c, b, cs, n);
  }

  /** A call is refused if and only if granting it would overdraw some earlier start. */
  lemma RefusedIffOverdrawn(c: Config, b: Bucket, cs: seq<Call>, n: nat)
    requires n < |cs|
    ensures !Granted(c, b, cs, n) <==>
            exists start :: -1 <= start <= n && Reaches(cs, start, n) && Credit(c, b, cs, start, n) < 1.0
  {
    Envelope(c, b, cs, n);
  }

  // ----- Rate bounds on real windows, with skewed timestamps -----

  /** Grants among the first n calls whose execution time lies in [lo, hi]. */
  function WindowGrants(c: Config, b: Bucket, cs: seq<Call>, at: seq<real>, lo: real, hi: real, n: nat): nat
    requires n <= |cs| == |at|
    decreases n
  {
    if n == 0 then 0
    else WindowGrants(c, b, cs, at, lo, hi, n - 1)
         + (if Granted(c, b, cs, n - 1) && lo <= at[n - 1] <= hi then 1 else 0)
  }

  ghost predicate Ascending(at: seq<real>) {
    forall i, j :: 0 <= i < j < |at| ==> at[i] <= at[j]
  }

  /** Every timestamp is within delta of the moment its call executes. */
  ghost predicate Skewed(cs: seq<Call>, at: seq<real>, delta: real)
    requires |cs| == |at|
  {
    forall i :: 0 <= i < |cs| ==> at[i] - delta <= cs[i].now <= at[i] + delta
  }

  /** Only the first call inside the window may find the bucket gone. */
  ghost predicate KeptInside(cs: seq<Call>, at: seq<real>, lo: real, hi: real)
    requires |cs| == |at|
  {
    forall i, j :: 0 <= i < j < |cs| && lo <= at[i] && at[j] <= hi ==> !cs[j].missing
  }

  lemma {:induction false} WindowIsRange(c: Config, b: Bucket, cs: seq<Call>, at: seq<real>, lo: real, hi: real, n: nat)
    returns (first: nat)
    requires n <= |cs| == |at| && Ascending(at)
    requires n > 0 ==> at[n - 1] <= hi
    ensures first <= n
    ensures forall i :: 0 <= i < n ==> (i < first <==> at[i] < lo)
    ensures WindowGrants(c, b, cs, at, lo, hi, n) == Grants(c, b, cs, first, n)
  {
    first := 0;
    if n == 0 {
    } else {
      first := WindowIsRange(c, b, cs, at, lo, hi, n - 1);
      if first == n - 1 && at[n - 1] < lo { first := n; }
    }
  }

  /** In any window of length hi - lo there are at most burst + rate * (length + 2 delta) grants. */
  lemma {:induction false} WindowBound(c: Config, b: Bucket, cs: seq<Call>, at: seq<real>, delta: real, lo: real, hi: real, n: nat)
    requires n <= |cs| == |at| && Ascending(at) && Skewed(cs, at, delta)
    requires lo <= hi && delta >= 0.0 && c.rate >= 0.0 && c.burst >= 1
    requires KeptInside(cs, at, lo, hi)
    ensures WindowGrants(c, b, cs, at, lo, hi, n) as real <= Allowance(c, hi - lo + 2.0 * delta)
  {
    hide Accrued, Allowance;
    AllowanceCovers(c, lo, lo, hi - lo + 2.0 * delta);
    NoTimeNoTokens(c, lo);
    if n == 0 {
    } else {
      if Granted(c, b, cs, n - 1) && lo <= at[n - 1] <= hi {
        var first := WindowIsRange(c, b, cs, at, lo, hi, n);
        Envelope(c, b, cs, n - 1);
        forall i | first < i <= n - 1 ensures !cs[i].missing {
          assert lo <= at[first] && at[i] <= at[n - 1] <= hi;
        }
        assert Credit(c, b, cs, first, n - 1) >= 1.0;
        AllowanceCovers(c, cs[first].now, cs[n - 1].now, hi - lo + 2.0 * delta);
      } else {
        WindowBound(c, b, cs, at, delta, lo, hi, n - 1);
      }
    }
  }

  // ----- The bound is attained -----

  /** As many calls as the burst at time 0, and then one whenever a token has been earned. */
  function Steady(c: Config, m: nat): (cs: seq<Call>)
    requires c.rate > 0.0 && c.burst >= 1
    ensures |cs| == c.burst + m
  {
    seq(c.burst + m, i => Call(if i < c.burst then 0.0 else (i - c.burst + 1) as real / c.rate, false))
  }

  function ClockOf(cs: seq<Call>): (at: seq<real>)
    ensures |at| == |cs| && forall i :: 0 <= i < |cs| ==> at[i] == cs[i].now
  {
    seq(|cs|, i requires 0 <= i < |cs| => cs[i].now)
  }

  lemma TickEarns(c: Config, k: nat)
    requires c.rate > 0.0
    ensures Accrued(c, k as real / c.rate, (k + 1) as real / c.rate) == 1.0
    ensures 0.0 / c.rate == 0.0 && c.rate * (k as real / c.rate) == k as real
  {
    assert c.rate * (k as real / c.rate) == k as real;
    assert c.rate * ((k + 1) as real / c.rate) == (k + 1) as real;
    Spread(c.rate, k as real / c.rate, (k + 1) as real / c.rate);
  }

  lemma Spread(k: real, x: real, y: real)
    ensures k * (y - x) == k * y - k * x
  {
  }

  lemma TicksAscend(c: Config, j: nat, k: nat)
    requires c.rate > 0.0 && j <= k
    ensures 0.0 <= j as real / c.rate <= k as real / c.rate
  {
  }

  lemma {:induction false} SteadyLevels(c: Config, m: nat, n: nat)
    requires c.rate > 0.0 && c.burst >= 1 && n < c.burst + m
    ensures Level(c, Full(c, 0.0), Steady(c, m), n) == if n < c.burst then (c.burst - n) as real else 1.0
  {
    hide Accrued;
    NoTimeNoTokens(c, 0.0);
    if n == 0 {
    } else {
      SteadyLevels(c, m, n - 1);
      if n >= c.burst { TickEarns(c, n - c.burst); }
    }
  }

  lemma {:induction false} AllGranted(c: Config, b: Bucket, cs: seq<Call>, at: seq<real>, lo: real, hi: real, n: nat)
    requires n <= |cs| == |at| && forall i :: 0 <= i < n ==> Granted(c, b, cs, i) && lo <= at[i] <= hi
    ensures WindowGrants(c, b, cs, at, lo, hi, n) == n
  {
    if n == 0 {
    } else {
      AllGranted(c, b, cs, at, lo, hi, n - 1);
    }
  }

  /** The bound is tight for windows of every whole number of tokens: this history is granted exactly burst + rate * length. */
  lemma BoundAttained(c: Config, m: nat)
    requires c.rate > 0.0 && c.burst >= 1
    ensures var cs, span := Steady(c, m), m as real / c.rate;
            WindowGrants(c, Full(c, 0.0), cs, ClockOf(cs), 0.0, span, |cs|) as real == Allowance(c, span)
  {
    hide Accrued, Level;
    var cs, span := Steady(c, m), m as real / c.rate;
    forall i | 0 <= i < |cs| ensures Granted(c, Full(c, 0.0), cs, i) && 0.0 <= cs[i].now <= span {
      SteadyLevels(c, m, i);
      TicksAscend(c, 0, m);
      if i >= c.burst { TicksAscend(c, i - c.burst + 1, m); }
    }
    AllGranted(c, Full(c, 0.0), cs, ClockOf(cs), 0.0, span, |cs|);
    TickEarns(c, m);
  }

  // ----- Refused calls leave no trace -----

  /** Two buckets that refill to the same level at every later moment, short of the cap. */
  ghost predicate Aligned(c: Config, x: Bucket, y: Bucket) {
    x.tokens == y.tokens + Accrued(c, y.last, x.last)
  }

  lemma AlignedRefill(c: Config, x: Bucket, y: Bucket, now: real)
    requires Aligned(c, x, y)
    ensures Refill(c, x, now) == Refill(c, y, now)
  {
    hide Accrued;
    AccruedSum(c, y.last, x.last, now);
  }

  /** Aligned buckets that meet the same call stay aligned, and so do a refused and a deleted call. */
  lemma AlignedStep(c: Config, x: Bucket, y: Bucket, now: real)
    requires Aligned(c, x, y) && c.burst >= 1
    ensures Refill(c, x, now) < 1.0 ==> Aligned(c, Spend(Refill(c, x, now), now), y)
    ensures Aligned(c, Spend(Refill(c, x, now), now), Spend(Refill(c, y, now), now))
  {
    hide Accrued;
    AlignedRefill(c, x, y, now);
    AccruedSum(c, y.last, x.last, now);
    NoTimeNoTokens(c, now);
  }

  lemma {:induction false} PrefixStable(c: Config, b: Bucket, cs: seq<Call>, more: seq<Call>, n: nat)
    requires n <= |cs|
    ensures At(c, b, cs + more, n) == At(c, b, cs, n)
    ensures n < |cs| ==> Level(c, b, cs + more, n) == Level(c, b, cs, n)
    ensures n < |cs| ==> Granted(c, b, cs + more, n) == Granted(c, b, cs, n)
  {
    if n == 0 {
    } else {
      PrefixStable(c, b, cs, more, n - 1);
    }
  }

  function Answers(c: Config, b: Bucket, cs: seq<Call>): (r: seq<bool>)
    ensures |r| == |cs|
  {
    seq(|cs|, i requires 0 <= i < |cs| => Granted(c, b, cs, i))
  }

  /**
   Deleting any refused calls from a history changes neither the other answers nor the later levels,
   as long as the remaining calls find their bucket missing exactly where they did before.
   */
  lemma {:induction false} RefusalsInvisible(c: Config, b: Bucket, cs: seq<Call>, keep: seq<bool>)
    requires c.burst >= 1 && |keep| == |cs|
    requires forall i :: 0 <= i < |cs| ==> keep[i] || !Granted(c, b, cs, i)
    ensures Answers(c, b, Select(cs, keep)) == Select(Answers(c, b, cs), keep)
    ensures Aligned(c, At(c, b, cs, |cs|), At(c, b, Select(cs, keep), |Select(cs, keep)|))
    decreases |cs|
  {
    hide Accrued;
    NoTimeNoTokens(c, b.last);
    if cs == [] {
    } else {
      var n := |cs| - 1;
      var init, last := cs[..n], cs[n];
      var kept := keep[..n];
      assert cs == init + [last];
      forall i | 0 <= i < n ensures Level(c, b, cs, i) == Level(c, b, init, i) { PrefixStable(c, b, init, [last], i); }
      PrefixStable(c, b, init, [last], n);
      assert Answers(c, b, cs)[..n] == Answers(c, b, init);
      RefusalsInvisible(c, b, init, kept);
      var sel := Select(init, kept);
      AlignedStep(c, At(c, b, init, n), At(c, b, sel, |sel|), last.now);
      AlignedRefill(c, At(c, b, init, n), At(c, b, sel, |sel|), last.now);
      NoTimeNoTokens(c, last.now);
      if keep[n] {
        SelectedLast(cs, keep);
        AnswersSnoc(c, b, sel, last);
      }
    }
  }

  lemma SelectedLast(cs: seq<Call>, keep: seq<bool>)
    requires |cs| == |keep| > 0 && keep[|cs| - 1]
    ensures Select(cs, keep) == Select(cs[..|cs| - 1], keep[..|cs| - 1]) + [cs[|cs| - 1]]
  {
  }

  lemma AnswersSnoc(c: Config, b: Bucket, cs: seq<Call>, last: Call)
    ensures Answers(c, b, cs + [last]) == Answers(c, b, cs) + [Granted(c, b, cs + [last], |cs|)]
    ensures Level(c, b, cs + [last], |cs|) == if last.missing then c.burst as real else Refill(c, At(c, b, cs, |cs|), last.now)
  {
    forall i | 0 <= i <= |cs| ensures At(c, b, cs + [last], i) == At(c, b, cs, i) { PrefixStable(c, b, cs, [last], i); }
    forall i | 0 <= i < |cs| ensures Level(c, b, cs + [last], i) == Level(c, b, cs, i) { PrefixStable(c, b, cs, [last], i); }
  }

  // ----- The limiter object -----

  /** A retry loop ends with a token, with a cancelled context, or is still asleep. */
  datatype Outcome = Acquired | Cancelled | Waiting

  function Calls(clock: seq<real>): (cs: seq<Call>)
    ensures |cs| == |clock|
  {
    seq(|clock|, i requires 0 <= i < |clock| => Call(clock[i], false))
  }

  /** What one more call answers, as a step of the bucket and as a verdict over all starts. */
  lemma CallAppended(c: Config, b: Bucket, cs: seq<Call>, now: real)
    requires forall i :: 0 <= i < |cs| ==> !cs[i].missing
    ensures var all, n := cs + [Call(now, false)], |cs|;
            var level := Refill(c, At(c, b, cs, n), now);
            && At(c, b, all, n + 1) == Spend(level, now)
            && (Granted(c, b, all, n) <==> level >= 1.0)
            && (Granted(c, b, all, n) <==> forall start :: -1 <= start <= n ==> Credit(c, b, all, start, n) >= 1.0)
  {
    hide Accrued, Credit;
    var all, n := cs + [Call(now, false)], |cs|;
    PrefixStable(c, b, cs, [Call(now, false)], n);
    RefusedIffOverdrawn(c, b, all, n);
    assert forall start | -1 <= start <= n :: Reaches(all, start, n);
  }

  class TokenBucketLimiter {
    const c: Config
    var tokens: real
    var lastUpdate: real
    ghost var born: real
    ghost var calls: seq<Call>

    /** The fields are the run of every call since construction. */
    ghost predicate Valid()
      reads this
    {
      && c.burst >= 1
      && (forall i :: 0 <= i < |calls| ==> !calls[i].missing)
      && Bucket(tokens, lastUpdate) == At(c, Full(c, born), calls, |calls|)
    }

    constructor (reqPerMinute: real, burst: int, now: real)
      ensures Valid() && calls == [] && born == now
      ensures c == Normalize(reqPerMinute, burst)
    {
      c := Normalize(reqPerMinute, burst);
      tokens := Normalize(reqPerMinute, burst).burst as real;
      lastUpdate := now;
      born := now;
      calls := [];
    }

    method Allow(now: real) returns (ok: bool)
      requires Valid()
      modifies this`tokens, this`lastUpdate, this`calls
      ensures Valid() && calls == old(calls) + [Call(now, false)]
      ensures ok == Granted(c, Full(c, born), calls, |old(calls)|)
      ensures ok <==> forall start :: -1 <= start <= |old(calls)| ==>
                        Credit(c, Full(c, born), calls, start, |old(calls)|) >= 1.0
    {
      hide Accrued, Credit, At, Level, Granted, Grants;
      CallAppended(c, Full(c, born), calls, now);
      ghost var level := Refill(c, Bucket(tokens, lastUpdate), now);
      calls := calls + [Call(now, false)];
      tokens := tokens + Accrued(c, lastUpdate, now);
      if tokens > c.burst as real {
        tokens := c.burst as real;
      }
      assert tokens == level;
      lastUpdate := now;
      if tokens >= 1.0 {
        tokens := tokens - 1.0;
        ok := true;
      } else {
        ok := false;
      }
    }

    /**
     Attempt i reads clock[i]; cancelled[i] says that the sleep after it ended by
     cancellation. The loop takes one token when it succeeds and none otherwise.
     */
    method Wait(clock: seq<real>, cancelled: seq<bool>) returns (outcome: Outcome, attempts: nat)
      requires Valid() && |clock| == |cancelled|
      modifies this`tokens, this`lastUpdate, this`calls
      ensures Valid() && attempts <= |clock|
      ensures calls == old(calls) + Calls(clock[..attempts])
      ensures forall i :: |old(calls)| <= i < |calls| ==>
                (Granted(c, Full(c, born), calls, i) <==> outcome.Acquired? && i == |calls| - 1)
      ensures Grants(c, Full(c, born), calls, |old(calls)|, |calls|) == if outcome.Acquired? then 1 else 0
      ensures outcome.Acquired? ==> attempts > 0 && forall i :: 0 <= i < attempts - 1 ==> !cancelled[i]
      ensures outcome.Cancelled? ==> attempts > 0 && cancelled[attempts - 1] && forall i :: 0 <= i < attempts - 1 ==> !cancelled[i]
      ensures outcome.Waiting? ==> attempts == |clock| && forall i :: 0 <= i < attempts ==> !cancelled[i]
    {
      hide Accrued, Credit, Refill, Level, At, Granted, Spend;
      attempts := 0;
      ghost var b := Full(c, born);
      ghost var n := |calls|;
      while attempts < |clock|
        invariant Valid() && attempts <= |clock|
        invariant calls == old(calls) + Calls(clock[..attempts])
        invariant forall i :: n <= i < |calls| ==> !Granted(c, b, calls, i)
        invariant Grants(c, b, calls, n, |calls|) == 0
        invariant forall i :: 0 <= i < attempts ==> !cancelled[i]
      {
        ghost var before := calls;
        var ok := Allow(clock[attempts]);
        assert calls == before + [Call(clock[attempts], false)];
        GrantsStable(c, b, before, [Call(clock[attempts], false)], n, |before|);
        forall i | n <= i < |before| ensures !Granted(c, b, calls, i) { PrefixStable(c, b, before, [Call(clock[attempts], false)], i); }
        assert Calls(clock[..attempts + 1]) == Calls(clock[..attempts]) + [Call(clock[attempts], false)];
        attempts := attempts + 1;
        if ok { return Acquired, attempts; }
        if cancelled[attempts - 1] { return Cancelled, attempts; }
      }
      outcome := Waiting;
    }
  }

  lemma {:induction false} GrantsStable(c: Config, b: Bucket, cs: seq<Call>, more: seq<Call>, lo: nat, n: nat)
    requires n <= |cs|
    ensures Grants(c, b, cs + more, lo, n) == Grants(c, b, cs, lo, n)
  {
    if n <= lo {
    } else {
      GrantsStable(c, b, cs, more, lo, n - 1);
      PrefixStable(c, b, cs, more, n - 1);
    }
  }

  // ----- How long a lone caller sleeps -----

  const NANOS: real := 1000000000.0

  /** The sleep between attempts, in seconds: whole nanoseconds, the fraction dropped. */
  function Sleep(c: Config): real
    requires c.rate > 0.0
  {
    Truncate(NANOS / c.rate) as real / NANOS
  }

  /** What one sleep earns. */
  function Earned(c: Config): real
    requires c.rate > 0.0
  {
    c.rate * Sleep(c)
  }

  lemma {:induction false} TokensInRange(c: Config, b: Bucket, cs: seq<Call>, n: nat)
    requires n <= |cs| && c.rate >= 0.0 && c.burst >= 1 && 0.0 <= b.tokens <= c.burst as real
    requires n > 0 ==> b.last <= cs[0].now
    requires forall i, j :: 0 <= i < j < n ==> cs[i].now <= cs[j].now
    ensures 0.0 <= At(c, b, cs, n).tokens <= c.burst as real
  {
    hide Accrued;
    if n == 0 {
    } else {
      TokensInRange(c, b, cs, n - 1);
      AccruedAtLeast(c, At(c, b, cs, n - 1).last, cs[n - 1].now, 0.0);
    }
  }

  lemma HalfCovered(w: real)
    requires w >= 1.0
    ensures w.Floor >= 1 && 2.0 * w.Floor as real >= w
  {
    var f := w.Floor;
    assert f >= 1 && w < f as real + 1.0;
    assert f as real >= 1.0;
  }

  /** Dropping the fraction costs at most half of the sleep. */
  lemma TwoSleepsCoverOneToken(c: Config)
    requires 0.0 < c.rate <= 1_000_000_000.0
    ensures 2.0 * Earned(c) >= 1.0
  {
    var w := NANOS / c.rate;
    if w < 1.0 { StrictScale(c.rate, w, 1.0); }
    HalfCovered(w);
    Inverse(c.rate, w, NANOS);
    Scale(c.rate, w / NANOS, 2.0 * Sleep(c));
    Double(c.rate, Sleep(c));
  }

  /** The sleep earns at most one token, and a whole one exactly when it is a whole number of nanoseconds. */
  lemma SleepEarns(c: Config)
    requires c.rate > 0.0
    ensures Sleep(c) >= 0.0 && 0.0 <= Earned(c) <= 1.0
    ensures Earned(c) == 1.0 <==> WholeSleep(c)
    ensures c.rate > NANOS ==> Earned(c) == 0.0
  {
    var w := NANOS / c.rate;
    Positive(NANOS, c.rate);
    assert w.Floor as real <= w && Truncate(w) == w.Floor;
    Inverse(c.rate, w, NANOS);
    Scale(c.rate, 0.0, Sleep(c));
    Scale(c.rate, Sleep(c), w / NANOS);
    if !WholeSleep(c) { StrictScale(c.rate, Sleep(c), w / NANOS); }
    if c.rate > NANOS { BelowOne(NANOS, c.rate); }
  }

  lemma Positive(n: real, k: real)
    requires n > 0.0 && k > 0.0
    ensures n / k > 0.0
  {
  }

  lemma Double(k: real, x: real)
    ensures k * (2.0 * x) == 2.0 * (k * x)
  {
  }

  lemma SleepAccrues(c: Config, since: real, now: real)
    requires c.rate > 0.0 && now - since >= Sleep(c)
    ensures Accrued(c, since, now) >= Earned(c)
    ensures now - since == Sleep(c) ==> Accrued(c, since, now) == Earned(c)
  {
    hide Sleep;
    Scale(c.rate, Sleep(c), now - since);
  }

  lemma BelowOne(n: real, k: real)
    requires 0.0 < n < k
    ensures 0.0 < n / k < 1.0 && (n / k).Floor == 0
  {
    var q := n / k;
    assert k * q == n;
    Positive(n, k);
    if q >= 1.0 { Scale(k, 1.0, q); }
  }

  /** Does the time between two tokens have no fraction of a nanosecond to drop? */
  predicate WholeSleep(c: Config)
    requires c.rate > 0.0
  {
    (1_000_000_000.0 / c.rate).Floor as real == 1_000_000_000.0 / c.rate
  }

  lemma AccruedAtLeast(c: Config, since: real, now: real, span: real)
    requires c.rate >= 0.0 && now - since >= span
    ensures Accrued(c, since, now) >= c.rate * span
  {
    Scale(c.rate, span, now - since);
  }

  lemma Scale(k: real, x: real, y: real)
    requires k >= 0.0 && x <= y
    ensures k * x <= k * y
  {
  }

  lemma Inverse(k: real, w: real, n: real)
    requires k > 0.0 && n > 0.0 && w == n / k
    ensures k * (w / n) == 1.0
  {
    assert w / n == 1.0 / k;
  }

  lemma StrictScale(k: real, x: real, y: real)
    requires k > 0.0 && x < y
    ensures k * x < k * y
  {
  }

  /** A caller that is alone makes up to three attempts and sleeps at least Sleep(c) between them. */
  ghost predicate Lone(c: Config, b: Bucket, cs: seq<Call>)
    requires c.rate > 0.0
  {
    && 0.0 <= b.tokens && |cs| == 3 && (forall i :: 0 <= i < 3 ==> !cs[i].missing)
    && b.last <= cs[0].now && cs[1].now - cs[0].now >= Sleep(c) && cs[2].now - cs[1].now >= Sleep(c)
  }

  ghost predicate OneSleepSuffices(c: Config)
    requires c.rate > 0.0
  {
    forall b, cs | Lone(c, b, cs) :: Granted(c, b, cs, 0) || Granted(c, b, cs, 1)
  }

  ghost predicate TwoSleepsSuffice(c: Config)
    requires c.rate > 0.0
  {
    forall b, cs | Lone(c, b, cs) :: Granted(c, b, cs, 0) || Granted(c, b, cs, 1) || Granted(c, b, cs, 2)
  }

  /** After each refusal the caller's next attempt finds at least what its sleeps have earned. */
  lemma LoneLevels(c: Config, b: Bucket, cs: seq<Call>)
    requires c.rate > 0.0 && c.burst >= 1 && Lone(c, b, cs)
    ensures !Granted(c, b, cs, 0) ==> Level(c, b, cs, 1) >= Earned(c)
    ensures !Granted(c, b, cs, 0) && !Granted(c, b, cs, 1) ==> Level(c, b, cs, 2) >= Min(1.0, 2.0 * Earned(c))
  {
    hide Accrued, Sleep, Earned;
    SleepEarns(c);
    AccruedAtLeast(c, b.last, cs[0].now, 0.0);
    SleepAccrues(c, cs[0].now, cs[1].now);
    SleepAccrues(c, cs[1].now, cs[2].now);
    assert At(c, b, cs, 0) == b;
    assert Level(c, b, cs, 0) >= 0.0;
    assert At(c, b, cs, 1) == Spend(Level(c, b, cs, 0), cs[0].now);
    assert At(c, b, cs, 2) == Spend(Level(c, b, cs, 1), cs[1].now);
  }

  /** An empty bucket, and a caller that sleeps exactly as long as it must. */
  function Punctual(c: Config): (cs: seq<Call>)
    requires c.rate > 0.0
    ensures Sleep(c) >= 0.0 && c.burst >= 1 ==> Lone(c, Bucket(0.0, 0.0), cs)
  {
    [Call(0.0, false), Call(Sleep(c), false), Call(Sleep(c) + Sleep(c), false)]
  }

  lemma PunctualLevels(c: Config)
    requires c.rate > 0.0 && c.burst >= 1
    ensures var b, cs := Bucket(0.0, 0.0), Punctual(c);
            && Lone(c, b, cs) && Level(c, b, cs, 0) == 0.0 && Level(c, b, cs, 1) == Earned(c)
            && (Earned(c) == 0.0 ==> Level(c, b, cs, 2) == 0.0)
  {
    hide Accrued, Sleep, Earned;
    SleepEarns(c);
    var b, cs := Bucket(0.0, 0.0), Punctual(c);
    NoTimeNoTokens(c, 0.0);
    SleepAccrues(c, 0.0, Sleep(c));
    SleepAccrues(c, Sleep(c), Sleep(c) + Sleep(c));
    assert At(c, b, cs, 0) == b;
    assert At(c, b, cs, 1) == Spend(Level(c, b, cs, 0), 0.0);
    assert At(c, b, cs, 2) == Spend(Level(c, b, cs, 1), Sleep(c));
  }

  /** The empty bucket is no invention: as many calls as the burst, at one moment, leave it. */
  lemma {:induction false} DrainEmpties(c: Config, at: real, n: nat)
    requires n <= c.burst
    ensures At(c, Full(c, at), seq(n, _ => Call(at, false)), n) == Bucket((c.burst - n) as real, at)
  {
    hide Accrued;
    if n == 0 {
    } else {
      var cs := seq(n - 1, _ => Call(at, false));
      DrainEmpties(c, at, n - 1);
      assert seq(n, _ => Call(at, false)) == cs + [Call(at, false)];
      PrefixStable(c, Full(c, at), cs, [Call(at, false)], n - 1);
      NoTimeNoTokens(c, at);
    }
  }

  /**
   With no other caller, one sleep always suffices exactly when no fraction of a nanosecond is
   dropped, and two exactly up to a rate of one per nanosecond. From an emptied bucket a punctual
   caller does need the second sleep otherwise.
   */
  lemma LoneWaiterSleepsTwice(c: Config)
    requires c.rate > 0.0 && c.burst >= 1
    ensures OneSleepSuffices(c) <==> WholeSleep(c)
    ensures TwoSleepsSuffice(c) <==> c.rate <= 1_000_000_000.0
  {
    hide Sleep, Level, WholeSleep, Earned;
    SleepEarns(c);
    PunctualLevels(c);
    var b, cs := Bucket(0.0, 0.0), Punctual(c);
    if WholeSleep(c) {
      forall b, cs | Lone(c, b, cs) ensures Granted(c, b, cs, 0) || Granted(c, b, cs, 1) { LoneLevels(c, b, cs); }
    } else {
      assert Lone(c, b, cs) && !Granted(c, b, cs, 0) && !Granted(c, b, cs, 1);
    }
    if c.rate <= NANOS {
      TwoSleepsCoverOneToken(c);
      forall b, cs | Lone(c, b, cs) ensures Granted(c, b, cs, 0) || Granted(c, b, cs, 1) || Granted(c, b, cs, 2) {
        LoneLevels(c, b, cs);
      }
    } else {
      assert Lone(c, b, cs) && !Granted(c, b, cs, 0) && !Granted(c, b, cs, 1) && !Granted(c, b, cs, 2);
    }
  }
}
