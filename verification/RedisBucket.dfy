/**
 The shared bucket of internal/adapters/ai/rate_limiter_redis.go. Each run of the Lua
 script is atomic; `now` is the timestamp of the pod that sent it, `at` the moment at
 which Redis runs it. Redis may drop the key once `EXPIRY` seconds have passed.
 */
module RedisBucket {
  import opened Prelude
  import opened TokenBucket

  const EXPIRY: real := 3600.0

  /** The hash behind the key, and the time from which Redis may forget it. */
  datatype Stored = Stored(bucket: Bucket, expireAt: real)

  /** A key expires only after EXPIRY idle seconds. */
  ghost predicate ExpiresLate(cs: seq<Call>, at: seq<real>)
    requires |cs| == |at|
  {
    forall i :: 0 < i < |cs| && cs[i].missing ==> at[i] >= at[i - 1] + EXPIRY
  }

  class SharedBucket {
    const c: Config
    var entry: Option<Stored>
    ghost var origin: Bucket
    ghost var calls: seq<Call>
    ghost var at: seq<real>

    /** The stored hash is the run of every script so far, whatever bucket is imagined before the first. */
    ghost predicate Valid()
      reads this
    {
      && c.burst >= 1 && |at| == |calls|
      && (entry.Some? ==> |calls| > 0)
      && (|calls| > 0 ==> calls[0].missing)
      && (entry.Some? ==> entry.value.bucket == At(c, origin, calls, |calls|) && entry.value.expireAt == at[|at| - 1] + EXPIRY)
      && ExpiresLate(calls, at)
      && (entry.None? ==> calls == [])
    }

    constructor (reqPerMinute: real, burst: int)
      ensures Valid() && entry == None && calls == [] && c == Normalize(reqPerMinute, burst)
    {
      c := Normalize(reqPerMinute, burst);
      entry := None;
      origin := Bucket(0.0, 0.0);
      calls, at := [], [];
    }

    /** `expired`: the key had outlived its time to live and was gone when the script ran. */
    method RunScript(now: real, moment: real, expired: bool) returns (reply: int)
      requires Valid()
      requires expired ==> entry.Some? && moment >= entry.value.expireAt
      modifies this`entry, this`calls, this`at
      ensures Valid() && entry.Some?
      ensures calls == old(calls) + [Call(now, expired || old(entry).None?)] && at == old(at) + [moment]
      ensures reply == if Granted(c, origin, calls, |old(calls)|) then 1 else 0
      ensures entry.value.expireAt == moment + 3600.0
    {
      hide Accrued, Credit;
      ghost var call := Call(now, expired || entry.None?);
      PrefixStable(c, origin, calls, [call], |calls|);
      ghost var n := |calls|;
      calls := calls + [call];
      assert At(c, origin, calls, n + 1) == Spend(Level(c, origin, calls, n), now);
      at := at + [moment];

      var tokens, lastUpdate;
      if entry.None? || expired {
        tokens, lastUpdate := c.burst as real, now;
      } else {
        tokens, lastUpdate := entry.value.bucket.tokens, entry.value.bucket.last;
      }
      NoTimeNoTokens(c, now);
      assert Refill(c, Full(c, now), now) == c.burst as real;
      tokens := Refill(c, Bucket(tokens, lastUpdate), now);
      if tokens >= 1.0 {
        tokens := tokens - 1.0;
        entry := Some(Stored(Bucket(tokens, now), moment + EXPIRY));
        reply := 1;
      } else {
        entry := Some(Stored(Bucket(tokens, now), moment + EXPIRY));
        reply := 0;
      }
    }
  }

  // ----- Many pods, skewed clocks -----

  /** The calls from a start that reaches a granted one earn no more than the time between them allows. */
  lemma StretchBound(c: Config, b: Bucket, cs: seq<Call>, at: seq<real>, delta: real, start: nat, n: nat)
    requires start < n <= |cs| == |at| && Skewed(cs, at, delta) && c.rate >= 0.0
    requires Reaches(cs, start, n - 1) && Granted(c, b, cs, n - 1)
    ensures Grants(c, b, cs, start, n) as real <= Allowance(c, at[n - 1] - at[start] + 2.0 * delta)
  {
    hide Accrued, Allowance;
    Envelope(c, b, cs, n - 1);
    assert Credit(c, b, cs, start, n - 1) >= 1.0;
    AllowanceCovers(c, cs[start].now, cs[n - 1].now, at[n - 1] - at[start] + 2.0 * delta);
  }

  /** Two stretches with enough idle time between them earn no more than one that spans both. */
  lemma StretchesJoin(c: Config, idle: real, x: real, y: real, z: real)
    requires c.rate >= 0.0 && c.burst as real <= c.rate * idle && x + y + idle <= z
    ensures Allowance(c, x) + Allowance(c, y) <= Allowance(c, z)
  {
    Scale(c.rate, x + y + idle, z);
    assert c.rate * (x + y + idle) == c.rate * x + c.rate * y + c.rate * idle;
  }

  lemma AllowanceGrows(c: Config, x: real, y: real)
    requires c.rate >= 0.0 && x <= y
    ensures Allowance(c, x) <= Allowance(c, y)
    ensures x >= 0.0 && c.burst >= 1 ==> Allowance(c, x) >= 0.0
  {
    Scale(c.rate, x, y);
    if x >= 0.0 { Scale(c.rate, 0.0, x); }
  }

  /** The last call among first, ..., n - 1 that found the bucket gone, or else the first of them. */
  function LastStart(cs: seq<Call>, first: nat, n: nat): (m: nat)
    requires first < n <= |cs|
    ensures first <= m < n && Reaches(cs, m, n - 1) && (m == first || cs[m].missing)
    decreases n
  {
    if n - 1 == first || cs[n - 1].missing then n - 1 else LastStart(cs, first, n - 1)
  }

  lemma {:induction false} GrantsSplit(c: Config, b: Bucket, cs: seq<Call>, lo: nat, mid: nat, hi: nat)
    requires lo <= mid <= hi <= |cs|
    ensures Grants(c, b, cs, lo, hi) == Grants(c, b, cs, lo, mid) + Grants(c, b, cs, mid, hi)
  {
    if hi == mid {
    } else {
      GrantsSplit(c, b, cs, lo, mid, hi - 1);
    }
  }

  /** Too short a window to hold an expiry, or long enough an expiry to earn the burst back even on skewed clocks. */
  predicate Covered(c: Config, delta: real, span: real) {
    span < 3600.0 || c.burst as real <= c.rate * (3600.0 - 2.0 * delta)
  }

  /**
   For every interleaving of skewed pods, any window shorter than the expiry holds at most
   burst + rate * (length + 2 delta) grants, and any window at all does if burst <= rate * (EXPIRY - 2 delta).
   */
  lemma {:induction false} SharedWindowBound(c: Config, b: Bucket, cs: seq<Call>, at: seq<real>, delta: real, lo: real, hi: real, n: nat)
    requires n <= |cs| == |at| && Ascending(at) && Skewed(cs, at, delta) && ExpiresLate(cs, at)
    requires lo <= hi && delta >= 0.0 && c.rate >= 0.0 && c.burst >= 1 && Covered(c, delta, hi - lo)
    ensures WindowGrants(c, b, cs, at, lo, hi, n) as real <= Allowance(c, hi - lo + 2.0 * delta)
    decreases n
  {
    hide Accrued, Allowance, Level, At, Granted, Grants, Skewed, Reaches, Credit, Covered;
    AllowanceGrows(c, hi - lo + 2.0 * delta, hi - lo + 2.0 * delta);
    if n == 0 {
    } else if !Granted(c, b, cs, n - 1) || !(lo <= at[n - 1] <= hi) {
      SharedWindowBound(c, b, cs, at, delta, lo, hi, n - 1);
    } else {
      var first := WindowIsRange(c, b, cs, at, lo, hi, n);
      var m := LastStart(cs, first, n);
      StretchBound(c, b, cs, at, delta, m, n);
      if m == first {
        AllowanceGrows(c, at[n - 1] - at[m] + 2.0 * delta, hi - lo + 2.0 * delta);
      } else {
        ShorterIsCovered(c, delta, hi - lo, at[m - 1] - lo);
        SharedWindowBound(c, b, cs, at, delta, lo, at[m - 1], m);
        WindowSplits(c, b, cs, at, lo, first, m, n);
        StretchesJoin(c, EXPIRY - 2.0 * delta, at[m - 1] - lo + 2.0 * delta, at[n - 1] - at[m] + 2.0 * delta, hi - lo + 2.0 * delta);
      }
    }
  }

  /** A window that an expiry fits into is covered only by a long enough expiry, which then covers every window. */
  lemma ShorterIsCovered(c: Config, delta: real, span: real, part: real)
    requires Covered(c, delta, span) && span >= EXPIRY
    ensures Covered(c, delta, part) && c.burst as real <= c.rate * (EXPIRY - 2.0 * delta)
  {
  }

  /** The grants of a range are those of the window up to the call before m and those from m on. */
  lemma WindowSplits(c: Config, b: Bucket, cs: seq<Call>, at: seq<real>, lo: real, first: nat, m: nat, n: nat)
    requires first < m < n <= |cs| == |at| && Ascending(at)
    requires forall i :: 0 <= i < n ==> (i < first <==> at[i] < lo)
    ensures Grants(c, b, cs, first, n) == WindowGrants(c, b, cs, at, lo, at[m - 1], m) + Grants(c, b, cs, m, n)
  {
    hide Granted, Grants, Level, At;
    var before := WindowIsRange(c, b, cs, at, lo, at[m - 1], m);
    assert at[first] >= lo && before <= first;
    assert at[before] >= lo && first <= before;
    GrantsSplit(c, b, cs, first, m, n);
  }

  // ----- When the script and the local bucket answer alike -----

  /** One non-decreasing clock for pods, Redis and the local limiter built at `born`. */
  ghost predicate OneClock(born: real, cs: seq<Call>) {
    && (|cs| > 0 ==> cs[0].missing && born <= cs[0].now)
    && (forall i, j :: 0 <= i < j < |cs| ==> cs[i].now <= cs[j].now)
    && (forall i :: 0 < i < |cs| && cs[i].missing ==> cs[i].now >= cs[i - 1].now + EXPIRY)
  }

  /** The same times as the local limiter sees them: its bucket is never missing. */
  function Local(cs: seq<Call>): (r: seq<Call>)
    ensures |r| == |cs|
  {
    seq(|cs|, i requires 0 <= i < |cs| => Call(cs[i].now, false))
  }

  lemma FullAgain(c: Config, b: Bucket, now: real, idle: real)
    requires c.rate >= 0.0 && b.tokens >= 0.0 && now - b.last >= idle && c.burst as real <= idle * c.rate
    ensures Refill(c, b, now) == c.burst as real
  {
    hide Accrued;
    AccruedAtLeast(c, b.last, now, idle);
  }

  lemma {:induction false} SameRun(c: Config, born: real, b: Bucket, cs: seq<Call>, n: nat)
    requires n < |cs| && OneClock(born, cs) && c.rate >= 0.0 && c.burst >= 1
    requires c.burst as real <= EXPIRY * c.rate
    ensures Level(c, Full(c, born), Local(cs), n) == Level(c, b, cs, n)
  {
    hide Accrued;
    var go := Local(cs);
    if n == 0 {
      AccruedAtLeast(c, born, cs[0].now, 0.0);
    } else {
      SameRun(c, born, b, cs, n - 1);
      TokensInRange(c, Full(c, born), go, n);
      if cs[n].missing {
        FullAgain(c, At(c, Full(c, born), go, n), cs[n].now, EXPIRY);
      }
    }
  }

  /** The script may stand in for the local bucket: every history gets the same answers. */
  ghost predicate Interchangeable(c: Config) {
    forall born: real, b: Bucket, cs: seq<Call>, n: nat | n < |cs| && OneClock(born, cs) ::
      Granted(c, Full(c, born), Local(cs), n) <==> Granted(c, b, cs, n)
  }

  /** Drain a full bucket at time 0, and drain it again when the key has just expired. */
  function DrainTwice(burst: nat): (cs: seq<Call>)
    requires burst >= 1
    ensures |cs| == 2 * burst && OneClock(0.0, cs)
  {
    seq(2 * burst, i => Call(if i < burst then 0.0 else EXPIRY, i == 0 || i == burst))
  }

  /** The position of call n within its own drain. */
  function Round(burst: nat, n: nat): nat { if n < burst then n else n - burst }

  lemma {:induction false} DrainedByOne(c: Config, b: Bucket, n: nat)
    requires c.burst >= 1 && n < 2 * c.burst
    ensures Level(c, b, DrainTwice(c.burst), n) == (c.burst - Round(c.burst, n)) as real
  {
    hide Accrued;
    var cs := DrainTwice(c.burst);
    if Round(c.burst, n) == 0 {
    } else {
      DrainedByOne(c, b, n - 1);
      NoTimeNoTokens(c, cs[n].now);
    }
  }

  lemma {:induction false} SomeRefused(c: Config, b: Bucket, cs: seq<Call>, n: nat) returns (i: nat)
    requires n <= |cs| && Grants(c, b, cs, 0, n) < n
    ensures i < n && !Granted(c, b, cs, i)
  {
    if Granted(c, b, cs, n - 1) { i := SomeRefused(c, b, cs, n - 1); } else { i := n - 1; }
  }

  /** When an idle hour does not refill the burst, the local bucket refuses some call of the two drains. */
  lemma LocalDrainFails(c: Config) returns (i: nat)
    requires c.burst >= 1 && c.burst as real > EXPIRY * c.rate
    ensures i < 2 * c.burst && !Granted(c, Full(c, 0.0), Local(DrainTwice(c.burst)), i)
  {
    hide Accrued, Level, Granted, Grants, Credit;
    var b, go, last := Full(c, 0.0), Local(DrainTwice(c.burst)), 2 * c.burst - 1;
    AccruedIs(c, go[0].now, go[last].now);
    Envelope(c, b, go, last);
    assert Reaches(go, 0, last);
    GrantedMeans(c, b, go, last);
    CreditFrom(c, b, go, 0, last);
    if Granted(c, b, go, last) { i := SomeRefused(c, b, go, last); } else { i := last; }
  }

  lemma CreditFrom(c: Config, b: Bucket, cs: seq<Call>, start: nat, n: nat)
    requires start <= n < |cs|
    ensures Credit(c, b, cs, start, n) == c.burst as real + Accrued(c, cs[start].now, cs[n].now) - Grants(c, b, cs, start, n) as real
  {
  }

  lemma GrantedMeans(c: Config, b: Bucket, cs: seq<Call>, n: nat)
    requires n < |cs|
    ensures Granted(c, b, cs, n) <==> Level(c, b, cs, n) >= 1.0
  {
  }

  /** The second drain tells the two apart: the script grants it in full. */
  lemma DrainSeparates(c: Config)
    requires c.burst >= 1 && c.burst as real > EXPIRY * c.rate
    ensures !Interchangeable(c)
  {
    hide Accrued, Level, DrainTwice, Local, OneClock;
    var cs, b := DrainTwice(c.burst), Full(c, 0.0);
    var i := LocalDrainFails(c);
    DrainedByOne(c, b, i);
    assert Granted(c, b, cs, i);
  }

  /** The two limiters agree on all histories exactly when an idle hour refills the whole burst. */
  lemma InterchangeableIff(c: Config)
    requires c.rate >= 0.0 && c.burst >= 1
    ensures Interchangeable(c) <==> c.burst as real <= 3600.0 * c.rate
  {
    if c.burst as real <= EXPIRY * c.rate {
      forall born: real, b: Bucket, cs: seq<Call>, n: nat | n < |cs| && OneClock(born, cs)
        ensures Granted(c, Full(c, born), Local(cs), n) <==> Granted(c, b, cs, n)
      {
        SameRun(c, born, b, cs, n);
      }
    } else {
      DrainSeparates(c);
    }
  }

  // ----- Refused scripts leave no trace, unless they keep the key alive -----

  /**
   `part` is what is left of the history `full` when some refused calls are deleted. The key may
   now expire where a deleted call had kept it alive.
   */
  ghost predicate Thins(c: Config, born: real, b: Bucket, full: seq<Call>, keep: seq<bool>, part: seq<Call>) {
    && |keep| == |full| && OneClock(born, full) && OneClock(born, part)
    && Local(part) == Select(Local(full), keep)
    && forall i :: 0 <= i < |full| ==> keep[i] || !Granted(c, b, full, i)
  }

  lemma SameAnswers(c: Config, born: real, b: Bucket, cs: seq<Call>)
    requires OneClock(born, cs) && c.rate >= 0.0 && c.burst >= 1 && c.burst as real <= EXPIRY * c.rate
    ensures Answers(c, Full(c, born), Local(cs)) == Answers(c, b, cs)
  {
    hide Level, OneClock;
    forall i | 0 <= i < |cs| ensures Level(c, Full(c, born), Local(cs), i) == Level(c, b, cs, i) { SameRun(c, born, b, cs, i); }
  }

  lemma SharedRefusalsInvisible(c: Config, born: real, b: Bucket, full: seq<Call>, keep: seq<bool>, part: seq<Call>)
    requires Thins(c, born, b, full, keep, part)
    requires c.rate >= 0.0 && c.burst >= 1 && c.burst as real <= EXPIRY * c.rate
    ensures Answers(c, b, part) == Select(Answers(c, b, full), keep)
  {
    hide Level, OneClock, Granted, Select;
    SameAnswers(c, born, b, full);
    SameAnswers(c, born, b, part);
    forall i | 0 <= i < |full| ensures keep[i] || !Granted(c, Full(c, born), Local(full), i) {
      assert Answers(c, Full(c, born), Local(full))[i] == Answers(c, b, full)[i];
    }
    RefusalsInvisible(c, Full(c, born), Local(full), keep);
  }

  ghost predicate RefusalsLeaveNoTrace(c: Config) {
    forall born, b, full, keep, part | Thins(c, born, b, full, keep, part) ::
      Answers(c, b, part) == Select(Answers(c, b, full), keep)
  }

  /** Soon enough for a drained bucket to have earned less than one token. */
  function ProbeTime(c: Config): real
    requires c.rate >= 0.0
  {
    1.0 / (c.rate + 1.0)
  }

  lemma ProbeIsEarly(c: Config)
    requires c.rate >= 0.0
    ensures 0.0 < ProbeTime(c) <= 1.0 && Accrued(c, 0.0, ProbeTime(c)) < 1.0
  {
    hide Accrued, ProbeTime;
    ProbeTimeIs(c);
    OfOne(c.rate, ProbeTime(c));
    AccruedIs(c, 0.0, ProbeTime(c));
    assert ProbeTime(c) - 0.0 == ProbeTime(c);
  }

  lemma ProbeTimeIs(c: Config)
    requires c.rate >= 0.0
    ensures ProbeTime(c) > 0.0 && (c.rate + 1.0) * ProbeTime(c) == 1.0
  {
    Positive(1.0, c.rate + 1.0);
  }

  lemma OfOne(r: real, t: real)
    requires r >= 0.0 && t > 0.0 && (r + 1.0) * t == 1.0
    ensures t <= 1.0 && r * t < 1.0
  {
    assert (r + 1.0) * t == r * t + t;
    Scale(t, 0.0, r);
  }

  function FirstDrain(burst: nat): seq<Call> { seq(burst, i => Call(0.0, i == 0)) }

  function SecondDrain(burst: nat): seq<Call> { seq(burst, _ => Call(EXPIRY, false)) }

  /** Drain at time 0, ask once more shortly after, and drain again when the key would have expired without that call. */
  function Probed(c: Config): (cs: seq<Call>)
    requires c.rate >= 0.0 && c.burst >= 1
    ensures |cs| == 2 * c.burst + 1 && OneClock(0.0, cs)
  {
    ProbeIsEarly(c);
    FirstDrain(c.burst) + [Call(ProbeTime(c), false)] + SecondDrain(c.burst)
  }

  /** Keep everything but the k-th. */
  function AllBut(n: nat, k: nat): (keep: seq<bool>)
    ensures |keep| == n
  {
    seq(n, i => i != k)
  }

  lemma {:induction false} KeepAll<T>(s: seq<T>, keep: seq<bool>)
    requires |s| == |keep| && forall i :: 0 <= i < |s| ==> keep[i]
    ensures Select(s, keep) == s
  {
    if s == [] {
    } else {
      KeepAll(s[..|s| - 1], keep[..|s| - 1]);
    }
  }

  lemma {:induction false} DropOne<T>(s: seq<T>, k: nat)
    requires k < |s|
    ensures Select(s, AllBut(|s|, k)) == s[..k] + s[k + 1..]
  {
    var n := |s| - 1;
    var keep := AllBut(|s|, k);
    if k == n {
      KeepAll(s[..n], keep[..n]);
    } else {
      DropOne(s[..n], k);
      assert keep[..n] == AllBut(n, k);
      assert s[..n][..k] == s[..k] && s[k + 1..] == s[..n][k + 1..] + [s[n]];
    }
  }

  /** Finding no bucket at first is the same as finding a full one. */
  lemma {:induction false} FirstMissing(c: Config, cs: seq<Call>, n: nat)
    requires n < |cs| && forall i :: 0 < i < |cs| ==> !cs[i].missing
    ensures var b := Full(c, cs[0].now); Level(c, b, cs, n) == Level(c, b, Local(cs), n)
  {
    hide Accrued;
    NoTimeNoTokens(c, cs[0].now);
    if n == 0 {
    } else {
      FirstMissing(c, cs, n - 1);
    }
  }

  lemma ProbeRefused(c: Config, b: Bucket)
    requires c.rate >= 0.0 && c.burst >= 1
    ensures !Granted(c, b, Probed(c), c.burst)
  {
    hide Accrued, ProbeTime, Level, OneClock;
    var k, twice, first := c.burst, DrainTwice(c.burst), FirstDrain(c.burst);
    var rest := [Call(ProbeTime(c), false)] + SecondDrain(k);
    assert twice == first + twice[k..];
    assert Probed(c) == first + rest;
    PrefixStable(c, b, first, twice[k..], k);
    PrefixStable(c, b, first, rest, k);
    DrainedByOne(c, b, k - 1);
    assert At(c, b, twice, k) == Spend(Level(c, b, twice, k - 1), 0.0) == Bucket(0.0, 0.0);
    NextLevel(c, b, first + rest, k);
    ProbeIsEarly(c);
  }

  lemma NextLevel(c: Config, b: Bucket, cs: seq<Call>, n: nat)
    requires n < |cs| && !cs[n].missing
    ensures Level(c, b, cs, n) <= At(c, b, cs, n).tokens + Accrued(c, At(c, b, cs, n).last, cs[n].now)
  {
    hide Accrued;
  }

  /** The two drains without the probe, the key still alive. */
  function Unprobed(burst: nat): (cs: seq<Call>)
    requires burst >= 1
    ensures |cs| == 2 * burst && Local(cs) == Local(DrainTwice(burst))
    ensures cs[0].now == 0.0 && forall i :: 0 < i < |cs| ==> !cs[i].missing
  {
    FirstDrain(burst) + SecondDrain(burst)
  }

  lemma ProbeDropped(c: Config)
    requires c.rate >= 0.0 && c.burst >= 1
    ensures Select(Probed(c), AllBut(2 * c.burst + 1, c.burst)) == Unprobed(c.burst)
    ensures Select(Local(Probed(c)), AllBut(2 * c.burst + 1, c.burst)) == Local(DrainTwice(c.burst))
  {
    hide Select, OneClock, ProbeTime;
    var k, full := c.burst, Probed(c);
    DropOne(full, k);
    DropOne(Local(full), k);
    assert full[..k] + full[k + 1..] == Unprobed(k);
    assert Local(full)[..k] + Local(full)[k + 1..] == Local(Unprobed(k));
  }

  /** Deleting the probe lets the key expire, and the second drain is granted in full. */
  lemma ProbeLeavesTrace(c: Config)
    requires c.rate >= 0.0 && c.burst >= 1 && c.burst as real > EXPIRY * c.rate
    ensures !RefusalsLeaveNoTrace(c)
  {
    hide Accrued, Level, Select, OneClock, Answers, Probed, DrainTwice, Unprobed, Local;
    var k, b, full, part := c.burst, Full(c, 0.0), Probed(c), DrainTwice(c.burst);
    var keep := AllBut(2 * k + 1, k);
    ProbeDropped(c);
    ProbeRefused(c, b);
    assert Thins(c, 0.0, b, full, keep, part);
    RefusalsInvisible(c, b, full, keep);
    var i := LocalDrainFails(c);
    FirstMissing(c, Unprobed(k), i);
    DrainedByOne(c, b, i);
    AnswersTell(c, b, Unprobed(k), part, i);
  }

  lemma AnswersTell(c: Config, b: Bucket, x: seq<Call>, y: seq<Call>, i: nat)
    requires i < |x| == |y| && Level(c, b, x, i) < 1.0 <= Level(c, b, y, i)
    ensures Answers(c, b, x) != Answers(c, b, y)
  {
    assert Answers(c, b, x)[i] != Answers(c, b, y)[i];
  }

  /**
   Deleting refused scripts changes no later answer of any history exactly when an idle hour refills
   the whole burst: otherwise even a refused call matters, because it keeps the drained key alive.
   */
  lemma RefusalsLeaveNoTraceIff(c: Config)
    requires c.rate >= 0.0 && c.burst >= 1
    ensures RefusalsLeaveNoTrace(c) <==> c.burst as real <= 3600.0 * c.rate
  {
    hide OneClock, Granted, Local, Select, Answers;
    if c.burst as real <= EXPIRY * c.rate {
      forall born, b, full, keep, part | Thins(c, born, b, full, keep, part)
        ensures Answers(c, b, part) == Select(Answers(c, b, full), keep)
      {
        SharedRefusalsInvisible(c, born, b, full, keep, part);
      }
    } else {
      ProbeLeavesTrace(c);
    }
  }
}
