/**
 The per-user command limiter of pkg/telegram/middleware.go. Times are seconds on one
 non-decreasing clock; concurrent handlers racing on the map are not modelled.
 */
module CommandLimiter {
  import opened Prelude

  const MINUTE: real := 60.0

  datatype Command = Command(user: int, now: real)

  /** The entries of the log that are younger than a minute, in order. */
  function Recent(log: seq<real>, now: real): (r: seq<real>)
    ensures |r| <= |log|
  {
    if log == [] then []
    else
      var rest := Recent(log[..|log| - 1], now);
      if log[|log| - 1] > now - MINUTE then rest + [log[|log| - 1]] else rest
  }

  // ----- The reference: nothing is ever pruned -----

  /** All accepted times of a user among the first n commands. */
  function AcceptedTimes(max: int, cs: seq<Command>, user: int, n: nat): seq<real>
    requires n <= |cs|
    decreases n, 0
  {
    if n == 0 then []
    else
      var rest := AcceptedTimes(max, cs, user, n - 1);
      if cs[n - 1].user == user && Accepted(max, cs, n - 1) then rest + [cs[n - 1].now] else rest
  }

  predicate Accepted(max: int, cs: seq<Command>, n: nat)
    requires n < |cs|
    decreases n, 1
  {
    |Recent(AcceptedTimes(max, cs, cs[n].user, n), cs[n].now)| < max
  }

  ghost predicate Clocked(cs: seq<Command>) {
    forall i, j :: 0 <= i < j < |cs| ==> cs[i].now <= cs[j].now
  }

  lemma {:induction false} RecentTwice(log: seq<real>, earlier: real, now: real)
    requires earlier <= now
    ensures Recent(Recent(log, earlier), now) == Recent(log, now)
  {
    if log == [] {
    } else {
      RecentTwice(log[..|log| - 1], earlier, now);
      var rest := Recent(log[..|log| - 1], earlier);
      assert (rest + [log[|log| - 1]])[..|rest|] == rest;
    }
  }

  lemma RecentSnoc(log: seq<real>, t: real, now: real)
    ensures Recent(log + [t], now) == if t > now - MINUTE then Recent(log, now) + [t] else Recent(log, now)
  {
    assert (log + [t])[..|log|] == log;
  }

  lemma {:induction false} PrefixTimes(max: int, cs: seq<Command>, more: seq<Command>, user: int, n: nat)
    requires n <= |cs|
    ensures AcceptedTimes(max, cs + more, user, n) == AcceptedTimes(max, cs, user, n)
    decreases n
  {
    if n == 0 {
    } else {
      PrefixTimes(max, cs, more, user, n - 1);
      PrefixTimes(max, cs, more, cs[n - 1].user, n - 1);
    }
  }

  lemma PrefixStable(max: int, cs: seq<Command>, more: seq<Command>, user: int, n: nat)
    requires n <= |cs|
    ensures AcceptedTimes(max, cs + more, user, n) == AcceptedTimes(max, cs, user, n)
    ensures n < |cs| ==> Accepted(max, cs + more, n) == Accepted(max, cs, n)
  {
    PrefixTimes(max, cs, more, user, n);
    if n < |cs| { PrefixTimes(max, cs, more, cs[n].user, n); }
  }

  // ----- The pruning log -----

  class RateLimit {
    const maxPerMinute: int
    var requests: map<int, seq<real>>
    ghost var seen: seq<Command>

    function Log(user: int): seq<real>
      reads this
    {
      if user in requests then requests[user] else []
    }

    /** At no later moment can the pruned log be told from the full history. */
    ghost predicate Valid()
      reads this
    {
      && Clocked(seen)
      && forall user, t :: (seen == [] || seen[|seen| - 1].now <= t) ==>
            Recent(Log(user), t) == Recent(AcceptedTimes(maxPerMinute, seen, user, |seen|), t)
    }

    constructor (maxPerMinute: int)
      ensures Valid() && seen == [] && this.maxPerMinute == maxPerMinute
    {
      this.maxPerMinute := maxPerMinute;
      requests := map[];
      seen := [];
    }

    static method Prune(timestamps: seq<real>, now: real) returns (valid: seq<real>)
      ensures valid == Recent(timestamps, now)
    {
      valid := [];
      for i := 0 to |timestamps|
        invariant valid == Recent(timestamps[..i], now)
      {
        assert timestamps[..i + 1][..i] == timestamps[..i];
        if timestamps[i] > now - MINUTE { valid := valid + [timestamps[i]]; }
      }
      assert timestamps[..|timestamps|] == timestamps;
    }

    method Handle(user: int, now: real) returns (ok: bool)
      requires Valid()
      requires seen == [] || seen[|seen| - 1].now <= now
      modifies this
      ensures Valid() && seen == old(seen) + [Command(user, now)]
      ensures ok == Accepted(maxPerMinute, seen, |old(seen)|)
      ensures Log(user) == Recent(AcceptedTimes(maxPerMinute, seen, user, |seen|), now)
      ensures forall other :: other != user ==> Log(other) == old(Log(other))
    {
      hide Recent, AcceptedTimes, Accepted;
      ghost var history, before, call := seen, Log(user), Command(user, now);
      HistoryStep(maxPerMinute, history, call);
      EmptyLog(now);
      if user in requests {
        var valid := Prune(requests[user], now);
        requests := requests[user := valid];
      }
      var count := if user in requests then |requests[user]| else 0;
      assert Log(user) == Recent(before, now);
      ok := count < maxPerMinute;
      if ok {
        requests := requests[user := (if user in requests then requests[user] else []) + [now]];
      }
      seen := seen + [call];
      assert ok == Accepted(maxPerMinute, seen, |history|);
      ExactAfter(maxPerMinute, history, call, before, now);
      forall other, t | now <= t
        ensures Recent(Log(other), t) == Recent(AcceptedTimes(maxPerMinute, seen, other, |seen|), t)
      {
        if other == user {
          ExactAfter(maxPerMinute, history, call, before, t);
        } else {
          HistoryOf(maxPerMinute, history, call, other);
          assert Log(other) == old(Log(other));
        }
      }
    }
  }

  lemma EmptyLog(now: real)
    ensures Recent([], now) == []
  {
  }

  /** A log that was exact before a command, pruned and extended as Handle does, is exact after it. */
  lemma ExactAfter(max: int, cs: seq<Command>, call: Command, log: seq<real>, t: real)
    requires call.now <= t
    requires Recent(log, call.now) == Recent(AcceptedTimes(max, cs, call.user, |cs|), call.now)
    ensures var all := cs + [call];
            var next := if Accepted(max, all, |cs|) then Recent(log, call.now) + [call.now] else Recent(log, call.now);
            && Recent(next, t) == Recent(AcceptedTimes(max, all, call.user, |cs| + 1), t)
            && next == Recent(AcceptedTimes(max, all, call.user, |cs| + 1), call.now)
  {
    hide Accepted;
    var full := AcceptedTimes(max, cs, call.user, |cs|);
    HistoryStep(max, cs, call);
    RecentTwice(full, call.now, t);
    RecentSnoc(full, call.now, t);
    RecentSnoc(full, call.now, call.now);
    RecentSnoc(Recent(full, call.now), call.now, t);
  }

  lemma HistoryOf(max: int, cs: seq<Command>, call: Command, user: int)
    ensures var all := cs + [call];
            AcceptedTimes(max, all, user, |cs| + 1)
              == if call.user == user && Accepted(max, all, |cs|) then AcceptedTimes(max, cs, user, |cs|) + [call.now]
                 else AcceptedTimes(max, cs, user, |cs|)
  {
    PrefixStable(max, cs, [call], user, |cs|);
  }

  lemma HistoryStep(max: int, cs: seq<Command>, call: Command)
    ensures var all := cs + [call];
            && (Accepted(max, all, |cs|) <==> |Recent(AcceptedTimes(max, cs, call.user, |cs|), call.now)| < max)
            && AcceptedTimes(max, all, call.user, |cs| + 1)
                 == if Accepted(max, all, |cs|) then AcceptedTimes(max, cs, call.user, |cs|) + [call.now]
                    else AcceptedTimes(max, cs, call.user, |cs|)
  {
    PrefixStable(max, cs, [call], call.user, |cs|);
    HistoryOf(max, cs, call, call.user);
  }

  // ----- The window theorems -----

  /** Commands of the user accepted in (lo, hi] among the first n. */
  function AcceptedWithin(max: int, cs: seq<Command>, user: int, lo: real, hi: real, n: nat): nat
    requires n <= |cs|
  {
    if n == 0 then 0
    else AcceptedWithin(max, cs, user, lo, hi, n - 1)
         + (if cs[n - 1].user == user && Accepted(max, cs, n - 1) && lo < cs[n - 1].now <= hi then 1 else 0)
  }

  lemma {:induction false} WithinIsRecent(max: int, cs: seq<Command>, user: int, lo: real, hi: real, now: real, n: nat)
    requires n <= |cs| && now - MINUTE <= lo
    ensures AcceptedWithin(max, cs, user, lo, hi, n) <= |Recent(AcceptedTimes(max, cs, user, n), now)|
    ensures lo == now - MINUTE && (forall i :: 0 <= i < n ==> cs[i].now <= hi) ==>
              AcceptedWithin(max, cs, user, lo, hi, n) == |Recent(AcceptedTimes(max, cs, user, n), now)|
  {
    if n == 0 {
    } else {
      WithinIsRecent(max, cs, user, lo, hi, now, n - 1);
      RecentSnoc(AcceptedTimes(max, cs, user, n - 1), cs[n - 1].now, now);
    }
  }

  /** A command is refused exactly when its user already has maxPerMinute accepted in the past minute. */
  lemma RefusedIffMinuteFull(max: int, cs: seq<Command>, n: nat)
    requires n < |cs| && Clocked(cs)
    ensures !Accepted(max, cs, n) <==> AcceptedWithin(max, cs, cs[n].user, cs[n].now - 60.0, cs[n].now, n) >= max
  {
    WithinIsRecent(max, cs, cs[n].user, cs[n].now - MINUTE, cs[n].now, cs[n].now, n);
  }

  /** No minute, wherever it starts, holds more than maxPerMinute accepted commands of one user. */
  lemma {:induction false} MinuteBound(max: int, cs: seq<Command>, user: int, lo: real, hi: real, n: nat)
    requires n <= |cs| && hi <= lo + 60.0
    ensures AcceptedWithin(max, cs, user, lo, hi, n) <= MaxInt(max, 0)
  {
    if n == 0 {
    } else {
      MinuteBound(max, cs, user, lo, hi, n - 1);
      if cs[n - 1].now <= hi { WithinIsRecent(max, cs, user, lo, hi, cs[n - 1].now, n - 1); }
    }
  }

  /** The commands of one user, and the answers they got, among the first n of everybody. */
  function Own(cs: seq<Command>, user: int, n: nat): (r: seq<Command>)
    requires n <= |cs|
    ensures |r| <= n
  {
    if n == 0 then []
    else if cs[n - 1].user == user then Own(cs, user, n - 1) + [cs[n - 1]] else Own(cs, user, n - 1)
  }

  function OwnAnswers(max: int, cs: seq<Command>, user: int, n: nat): (r: seq<bool>)
    requires n <= |cs|
  {
    if n == 0 then []
    else if cs[n - 1].user == user then OwnAnswers(max, cs, user, n - 1) + [Accepted(max, cs, n - 1)]
    else OwnAnswers(max, cs, user, n - 1)
  }

  /** Users do not affect one another: alone, a user would get the very same answers. */
  lemma {:induction false} UsersIndependent(max: int, cs: seq<Command>, user: int, n: nat)
    requires n <= |cs|
    ensures var own := Own(cs, user, n);
            && OwnAnswers(max, own, user, |own|) == OwnAnswers(max, cs, user, n)
            && AcceptedTimes(max, own, user, |own|) == AcceptedTimes(max, cs, user, n)
  {
    if n == 0 {
    } else {
      UsersIndependent(max, cs, user, n - 1);
      var own := Own(cs, user, n - 1);
      if cs[n - 1].user == user {
        HistoryStep(max, own, cs[n - 1]);
        OwnAnswersStable(max, own, [cs[n - 1]], user, |own|);
      }
    }
  }

  lemma {:induction false} OwnAnswersStable(max: int, cs: seq<Command>, more: seq<Command>, user: int, n: nat)
    requires n <= |cs|
    ensures OwnAnswers(max, cs + more, user, n) == OwnAnswers(max, cs, user, n)
  {
    if n == 0 {
    } else {
      OwnAnswersStable(max, cs, more, user, n - 1);
      PrefixStable(max, cs, more, user, n - 1);
    }
  }
}
