/**
 The market-data connection of internal/adapters/websocket/market_data_manager.go, which
 drives the reconnect manager from its health check. What the WebSocket client answers is
 an input; a Stop that overlaps a running health check is not modelled.
 */
module MarketDataManager {
  import opened Prelude
  import opened Reconnect

  /** What the environment does during one health check. */
  datatype Check = Check(now: int, clientConnected: bool, cancelled: bool, connectOk: bool, startOk: bool, end: int)

  class Supervisor {
    const breaker: Manager
    var connected: bool
    var lastHealthCheck: int
    var totalReconnects: nat
    /** How many connections the initial Start made: none or one. */
    ghost var initial: nat

    /** Between health checks, a streak of failures means disconnected; and the two counters agree. */
    ghost predicate Valid()
      reads this, breaker
    {
      && breaker.c.maxRetries != 0
      && (breaker.consecutiveFailures > 0 ==> !connected)
      && (breaker.circuitOpen <==> Exhausted(breaker.c, breaker.consecutiveFailures))
      && breaker.totalReconnects == initial + 2 * totalReconnects && initial <= 1
    }

    constructor (config: Config)
      ensures Valid() && fresh(breaker) && !connected && totalReconnects == 0 && initial == 0
      ensures breaker.c == WithDefaults(if config.minBackoff == 0
                                        then Config(2 * SECOND, 120 * SECOND, 2.0, 5, 45 * SECOND, 180 * SECOND) else config)
    {
      var settings := if config.minBackoff == 0
        then Config(2 * SECOND, 120 * SECOND, 2.0, 5, 45 * SECOND, 180 * SECOND) else config;
      var manager := new Manager(settings);
      breaker := manager;
      connected, lastHealthCheck, totalReconnects, initial := false, 0, 0, 0;
    }

    /** Connect the client and start it; both must succeed before anything is recorded. */
    method Connect(connectOk: bool, startOk: bool, now: int) returns (ok: bool)
      modifies this`connected, breaker
      ensures ok == (connectOk && startOk)
      ensures ok ==> connected && breaker.View() == Succeeded(breaker.c, old(breaker.View()), now)
      ensures ok ==> breaker.lastMessageTime * 1_000_000_000 <= now < (breaker.lastMessageTime + 1) * 1_000_000_000
      ensures !ok ==> connected == old(connected) && breaker.View() == old(breaker.View())
    {
      if !connectOk { return false; }
      if !startOk { return false; }
      connected := true;
      breaker.RecordSuccess(now);
      ok := true;
    }

    /** Start tries once and carries on whatever comes of it. */
    method Start(connectOk: bool, startOk: bool, now: int)
      requires Valid() && initial == 0
      modifies this, breaker
      ensures Valid() && totalReconnects == old(totalReconnects)
      ensures connected == (old(connected) || (connectOk && startOk))
      ensures initial == if connectOk && startOk then 1 else 0
    {
      var ok := Connect(connectOk, startOk, now);
      if ok { initial := 1; }
    }

    /** The function given to the reconnect manager: it stops the old connection first. */
    method Reconnect(connectOk: bool, startOk: bool, now: int) returns (ok: bool)
      modifies this`connected, this`totalReconnects, breaker
      ensures ok == connected == (connectOk && startOk)
      ensures breaker.View() == if ok then Succeeded(breaker.c, old(breaker.View()), now) else old(breaker.View())
      ensures totalReconnects == old(totalReconnects) + if ok then 1 else 0
    {
      connected := false;
      ok := Connect(connectOk, startOk, now);
      if ok { totalReconnects := totalReconnects + 1; }
    }

    /**
     A healthy connection is left alone. Otherwise one attempt goes through the breaker, and a success
     is recorded twice: by Connect, and again by ReconnectWithBackoff.
     */
    method PerformHealthCheck(k: Check) returns (r: Option<Outcome>)
      requires Valid()
      modifies this, breaker
      ensures Valid() && lastHealthCheck == k.now && initial == old(initial)
      ensures r == None <==> k.clientConnected && Healthy(breaker.c, old(breaker.View()), k.now)
      ensures r == None ==> connected == old(connected) && breaker.View() == old(breaker.View())
      ensures r.Some? ==>
                r.value == OutcomeOf(breaker.c, old(breaker.View()), Attempt(k.now, k.cancelled, k.connectOk && k.startOk, k.end))
      ensures r == Some(Connected) ==> connected && breaker.consecutiveFailures == 0 && totalReconnects == old(totalReconnects) + 1
      ensures r == Some(ConnectFailed) ==>
                !connected && breaker.View() == Failed(breaker.c, old(breaker.View()), k.end) && totalReconnects == old(totalReconnects)
      ensures r in {Some(CircuitOpen), Some(Cancelled)} ==> connected == old(connected) && breaker.View() == old(breaker.View())
      ensures r.Some? ==> !r.value.RetriesReached?
    {
      hide Grown;
      lastHealthCheck := k.now;
      var healthy := breaker.IsHealthy(k.now);
      if k.clientConnected && healthy { return None; }
      var admission, wait := breaker.Admit(k.now, k.cancelled);
      if admission.Refused? { return Some(admission.outcome); }
      var ok := this.Reconnect(k.connectOk, k.startOk, k.end);
      if ok {
        breaker.RecordSuccess(k.end);
        r := Some(Connected);
      } else {
        breaker.RecordFailure(k.end);
        r := Some(ConnectFailed);
      }
    }

    method Stop()
      requires Valid()
      modifies this`connected
      ensures Valid() && !connected
    {
      connected := false;
    }
  }
}
