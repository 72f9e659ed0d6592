/**
 The fan-out of internal/consumers/opportunity_consumer.go: one event starts workflows for
 the interested strategies, a semaphore bounds how many run, and the handler waits for all
 of them, but not for ever. Goroutines are workers on values; each step is one action on
 the semaphore, the wait group, the contexts or the handler. A timer may fire at any moment.
 */
module OpportunityConsumer {
  import opened Prelude

  type Symbol = int

  /** allocations is None when the stored JSON does not parse. */
  datatype Strategy = Strategy(id: int, userId: int, allocations: Option<set<Symbol>>)

  datatype User = User(id: int, active: bool, circuitBreakerOn: bool)

  predicate Wants(s: Strategy, symbol: Symbol) { s.allocations.Some? && symbol in s.allocations.value }

  /** What GetByID must return for a workflow to start. */
  predicate Eligible(lookup: Option<User>) { lookup.Some? && lookup.value.active && lookup.value.circuitBreakerOn }

  /** How many workflows may run at once. */
  function Concurrency(configured: int): (n: nat)
    ensures n > 0 && (configured > 0 ==> n == configured) && (configured <= 0 ==> n == 5)
  {
    if configured <= 0 then 5 else configured
  }

  function Interested(all: seq<Strategy>, symbol: Symbol): seq<Strategy> {
    if all == [] then []
    else
      var rest := Interested(all[..|all| - 1], symbol);
      if Wants(all[|all| - 1], symbol) then rest + [all[|all| - 1]] else rest
  }

  /** Filtering keeps each strategy as often as it was there if its allocations parse and name the symbol, and never otherwise. */
  lemma {:induction false} InterestedExact(all: seq<Strategy>, symbol: Symbol, s: Strategy)
    ensures multiset(Interested(all, symbol))[s]
            == if s.allocations.Some? && symbol in s.allocations.value then multiset(all)[s] else 0
  {
    if all == [] {
    } else {
      var n := |all| - 1;
      InterestedExact(all[..n], symbol, s);
      assert all == all[..n] + [all[n]];
    }
  }

  /** And in the same order: filtering a list is filtering its parts. */
  lemma {:induction false} InterestedInOrder(all: seq<Strategy>, more: seq<Strategy>, symbol: Symbol)
    ensures Interested(all + more, symbol) == Interested(all, symbol) + Interested(more, symbol)
    decreases |more|
  {
    if more == [] {
      assert all + more == all;
    } else {
      var n := |more| - 1;
      InterestedInOrder(all, more[..n], symbol);
      assert (all + more)[..|all| + n] == all + more[..n];
    }
  }

  method FilterInterested(all: seq<Strategy>, symbol: Symbol) returns (interested: seq<Strategy>)
    ensures interested == Interested(all, symbol)
  {
    interested := [];
    for i := 0 to |all|
      invariant interested == Interested(all[..i], symbol)
    {
      assert all[..i + 1][..i] == all[..i];
      match all[i].allocations
      case None => continue;
      case Some(allocations) =>
        if symbol in allocations { interested := interested + [all[i]]; }
    }
    assert all[..|all|] == all;
  }

  // ----- One event -----

  /** A workflow goroutine: before the semaphore, holding it, between its two deferred calls, gone. */
  datatype Phase = Waiting | Running | Released | Gone

  datatype Worker = Worker(position: nat, user: User, phase: Phase)

  /**
   `Launching(k)`: the loop is about to check for a shutdown before position k. `Looking(k)`: it has
   passed that check and looks up the user. `Leaked`: returned after the second timeout.
   */
  datatype Handler = Launching(next: nat) | Looking(next: nat) | Draining | Forced | Clean | Leaked

  /** `held` counts the elements of the semaphore channel, `pending` is the wait group. */
  datatype Event = Event(
    symbol: Symbol, interested: seq<Strategy>, workers: seq<Worker>, held: nat, pending: int,
    shutdown: bool, cancelled: bool, handler: Handler)

  datatype Action =
    | PassCheck
    | Launch(lookup: Option<User>)
    | SeeShutdown
    | EndLaunching
    | Acquire(worker: nat)
    | GiveUp(worker: nat)
    | Finish(worker: nat)
    | Leave(worker: nat)
    | ShutDown
    | WorkflowDeadline
    | AllDone
    | WaitTimesOut
    | ForceTimesOut

  function Arrived(all: seq<Strategy>, symbol: Symbol): Event {
    Event(symbol, Interested(all, symbol), [], 0, 0, false, false, Launching(0))
  }

  predicate At(e: Event, w: nat, phase: Phase) { w < |e.workers| && e.workers[w].phase == phase }

  predicate Enabled(max: nat, e: Event, a: Action) {
    match a
    case PassCheck => e.handler.Launching? && e.handler.next < |e.interested| && !e.shutdown
    case Launch(lookup) =>
      && e.handler.Looking? && e.handler.next < |e.interested|
      && (lookup.Some? ==> lookup.value.id == e.interested[e.handler.next].userId)
    case SeeShutdown => e.handler.Launching? && e.handler.next < |e.interested| && e.shutdown
    case EndLaunching => e.handler.Launching? && e.handler.next >= |e.interested|
    case Acquire(w) => At(e, w, Waiting) && e.held < max
    case GiveUp(w) => At(e, w, Waiting) && e.cancelled
    case Finish(w) => At(e, w, Running)
    case Leave(w) => At(e, w, Released)
    case ShutDown => true
    case WorkflowDeadline => true
    case AllDone => e.handler in {Draining, Forced} && e.pending == 0
    case WaitTimesOut => e.handler == Draining
    case ForceTimesOut => e.handler == Forced
  }

  function To(e: Event, w: nat, phase: Phase): seq<Worker>
    requires w < |e.workers|
  {
    e.workers[w := e.workers[w].(phase := phase)]
  }

  function Apply(max: nat, e: Event, a: Action): Event
    requires Enabled(max, e, a)
  {
    match a
    case PassCheck => e.(handler := Looking(e.handler.next))
    case Launch(lookup) =>
      var next := Launching(e.handler.next + 1);
      if Eligible(lookup) then
        e.(workers := e.workers + [Worker(e.handler.next, lookup.value, Waiting)], pending := e.pending + 1, handler := next)
      else e.(handler := next)
    case SeeShutdown => e.(handler := Draining)
    case EndLaunching => e.(handler := Draining)
    case Acquire(w) => e.(workers := To(e, w, Running), held := e.held + 1)
    case GiveUp(w) => e.(workers := To(e, w, Gone), pending := e.pending - 1)
    case Finish(w) => e.(workers := To(e, w, Released), held := MaxInt(e.held - 1, 0))
    case Leave(w) => e.(workers := To(e, w, Gone), pending := e.pending - 1)
    case ShutDown => e.(shutdown := true, cancelled := true)
    case WorkflowDeadline => e.(cancelled := true)
    case AllDone => e.(handler := Clean, cancelled := true)
    case WaitTimesOut => e.(handler := Forced, cancelled := true)
    case ForceTimesOut => e.(handler := Leaked)
  }

  /** How many workers are in this phase. */
  function InPhase(workers: seq<Worker>, phase: Phase): (n: nat)
    ensures n <= |workers|
  {
    if workers == [] then 0
    else InPhase(workers[..|workers| - 1], phase) + (if workers[|workers| - 1].phase == phase then 1 else 0)
  }

  lemma {:induction false} InPhaseMoved(workers: seq<Worker>, w: nat, next: Phase, phase: Phase)
    requires w < |workers|
    ensures InPhase(workers[w := workers[w].(phase := next)], phase)
            == InPhase(workers, phase) - (if workers[w].phase == phase then 1 else 0) + (if next == phase then 1 else 0)
  {
    var n := |workers| - 1;
    var moved := workers[w := workers[w].(phase := next)];
    if w < n {
      assert moved[..n] == workers[..n][w := workers[w].(phase := next)];
      InPhaseMoved(workers[..n], w, next, phase);
    } else {
      assert moved[..n] == workers[..n];
    }
  }

  lemma InPhaseLaunched(workers: seq<Worker>, x: Worker, phase: Phase)
    ensures InPhase(workers + [x], phase) == InPhase(workers, phase) + if x.phase == phase then 1 else 0
  {
    assert (workers + [x])[..|workers|] == workers;
  }

  lemma {:induction false} NobodyLeft(workers: seq<Worker>)
    requires InPhase(workers, Gone) == |workers|
    ensures forall w :: 0 <= w < |workers| ==> workers[w].phase == Gone
  {
    if workers == [] {
    } else {
      NobodyLeft(workers[..|workers| - 1]);
    }
  }

  /**
   Workers stand for distinct positions below the bound, in order, each with the user of that position's
   strategy, who is active and has the circuit breaker on.
   */
  ghost predicate Placed(interested: seq<Strategy>, workers: seq<Worker>, bound: int) {
    && (forall i, j :: 0 <= i < j < |workers| ==> workers[i].position < workers[j].position)
    && (forall i :: 0 <= i < |workers| ==>
          && workers[i].position < bound && workers[i].position < |interested|
          && workers[i].user.active && workers[i].user.circuitBreakerOn
          && workers[i].user.id == interested[workers[i].position].userId)
  }

  /** How many positions the loop has dealt with. */
  function Passed(e: Event): int {
    if e.handler.Launching? || e.handler.Looking? then MinInt(e.handler.next, |e.interested|) else |e.interested|
  }

  /** At most one workflow for each interested position, and only for positions that the loop has passed. */
  ghost predicate Started(e: Event) {
    Placed(e.interested, e.workers, Passed(e))
  }

  /** The semaphore holds one element for each running workflow, the wait group one for each that is not gone. */
  ghost predicate Counted(max: nat, e: Event) {
    && e.held == InPhase(e.workers, Running) <= max
    && e.pending == |e.workers| - InPhase(e.workers, Gone)
    && (e.handler == Clean ==> e.pending == 0)
  }

  /** Every interested strategy has allocations that parse and name the symbol. */
  ghost predicate Chosen(e: Event) {
    forall i :: 0 <= i < |e.interested| ==> e.interested[i].allocations.Some? && e.symbol in e.interested[i].allocations.value
  }

  /** The workflows' context is cancelled by a shutdown, by the first timeout and by the return. */
  ghost predicate Told(e: Event) { e.shutdown || e.handler in {Forced, Clean, Leaked} ==> e.cancelled }

  /** The loop looks up users of interested strategies only. */
  predicate Inside(e: Event) { e.handler.Looking? ==> e.handler.next < |e.interested| }

  ghost predicate Inv(max: nat, e: Event) { Chosen(e) && Started(e) && Counted(max, e) && Told(e) && Inside(e) }

  lemma PlacedMoved(interested: seq<Strategy>, workers: seq<Worker>, w: nat, phase: Phase, bound: int, wider: int)
    requires Placed(interested, workers, bound) && bound <= wider
    ensures Placed(interested, workers, wider)
    ensures w < |workers| ==> Placed(interested, workers[w := workers[w].(phase := phase)], wider)
  {
  }

  lemma PlacedLaunched(interested: seq<Strategy>, workers: seq<Worker>, bound: nat, user: User)
    requires Placed(interested, workers, bound) && Eligible(Some(user))
    requires bound < |interested| && user.id == interested[bound].userId
    ensures Placed(interested, workers + [Worker(bound, user, Waiting)], bound + 1)
  {
  }

  lemma ActionKeepsStarted(max: nat, e: Event, a: Action)
    requires Started(e) && Enabled(max, e, a)
    ensures Started(Apply(max, e, a))
  {
    hide Placed;
    var bound := Passed(e);
    match a
    case PassCheck =>
    case Launch(lookup) =>
      PlacedMoved(e.interested, e.workers, 0, Waiting, bound, bound + 1);
      if Eligible(lookup) { PlacedLaunched(e.interested, e.workers, bound, lookup.value); }
    case Acquire(w) => PlacedMoved(e.interested, e.workers, w, Running, bound, bound);
    case GiveUp(w) => PlacedMoved(e.interested, e.workers, w, Gone, bound, bound);
    case Finish(w) => PlacedMoved(e.interested, e.workers, w, Released, bound, bound);
    case Leave(w) => PlacedMoved(e.interested, e.workers, w, Gone, bound, bound);
    case _ => PlacedMoved(e.interested, e.workers, 0, Waiting, bound, |e.interested|);
  }

  lemma ActionKeepsCounted(max: nat, e: Event, a: Action)
    requires Counted(max, e) && Enabled(max, e, a)
    ensures Counted(max, Apply(max, e, a))
  {
    hide InPhase, Eligible;
    match a
    case Launch(lookup) =>
      if Eligible(lookup) {
        var x := Apply(max, e, a).workers[|e.workers|];
        InPhaseLaunched(e.workers, x, Running);
        InPhaseLaunched(e.workers, x, Gone);
        NotClean(e);
      }
    case Acquire(w) => InPhaseMoved(e.workers, w, Running, Running); InPhaseMoved(e.workers, w, Running, Gone);
    case GiveUp(w) => InPhaseMoved(e.workers, w, Gone, Running); InPhaseMoved(e.workers, w, Gone, Gone); StillThere(e, w);
    case Finish(w) => InPhaseMoved(e.workers, w, Released, Running); InPhaseMoved(e.workers, w, Released, Gone); HoldsOne(e, w);
    case Leave(w) => InPhaseMoved(e.workers, w, Gone, Running); InPhaseMoved(e.workers, w, Gone, Gone); StillThere(e, w);
    case _ =>
  }

  lemma NotClean(e: Event)
    requires e.handler.Looking?
    ensures e.handler != Clean
  {
  }

  /** Who runs holds an element of the semaphore, so taking one out never blocks. */
  lemma HoldsOne(e: Event, w: nat)
    requires w < |e.workers| && e.workers[w].phase == Running
    ensures InPhase(e.workers, Running) > 0
  {
    InPhaseMoved(e.workers, w, Gone, Running);
  }

  lemma ActionKeepsInv(max: nat, e: Event, a: Action)
    requires Inv(max, e) && Enabled(max, e, a)
    ensures Inv(max, Apply(max, e, a))
    ensures e.handler in {Clean, Leaked} ==> Apply(max, e, a).handler == e.handler
  {
    hide Started, Counted;
    ActionKeepsStarted(max, e, a);
    ActionKeepsCounted(max, e, a);
  }

  /** A worker that is not gone keeps the wait group above zero. */
  lemma StillThere(e: Event, w: nat)
    requires w < |e.workers| && e.workers[w].phase != Gone && e.pending == |e.workers| - InPhase(e.workers, Gone)
    ensures e.pending > 0
  {
    hide InPhase;
    if InPhase(e.workers, Gone) == |e.workers| { NobodyLeft(e.workers); }
  }

  /** A return through `done` leaves no workflow running, waiting, or able to start. */
  lemma CleanReturnLeavesNobody(max: nat, e: Event)
    requires Inv(max, e) && e.handler == Clean
    ensures forall w :: 0 <= w < |e.workers| ==> e.workers[w].phase == Gone
    ensures forall a: Action :: a.PassCheck? || a.Launch? || a.Acquire? || a.Finish? ==> !Enabled(max, e, a)
  {
    NobodyLeft(e.workers);
  }

  // ----- A run of events, handled one after another -----

  datatype Step = Arrives(all: seq<Strategy>, symbol: Symbol) | Acts(event: nat, action: Action)

  predicate Ready(max: nat, es: seq<Event>, s: Step) {
    match s
    case Arrives(_, _) => es == [] || es[|es| - 1].handler in {Clean, Leaked}
    case Acts(i, a) => i < |es| && Enabled(max, es[i], a)
  }

  function Next(max: nat, es: seq<Event>, s: Step): seq<Event>
    requires Ready(max, es, s)
  {
    match s
    case Arrives(all, symbol) => es + [Arrived(all, symbol)]
    case Acts(i, a) => es[i := Apply(max, es[i], a)]
  }

  /** The events after the first n steps, as far as the steps could be taken. */
  function Run(max: nat, steps: seq<Step>, n: nat): seq<Event>
    requires n <= |steps|
  {
    if n == 0 then []
    else
      var es := Run(max, steps, n - 1);
      if Ready(max, es, steps[n - 1]) then Next(max, es, steps[n - 1]) else es
  }

  function RunningIn(es: seq<Event>): nat {
    if es == [] then 0 else RunningIn(es[..|es| - 1]) + InPhase(es[|es| - 1].workers, Running)
  }

  function Leaks(es: seq<Event>): nat {
    if es == [] then 0 else Leaks(es[..|es| - 1]) + (if es[|es| - 1].handler == Leaked then 1 else 0)
  }

  /** The running workers, as pairs of event and worker, and the events given up after both timeouts. */
  ghost function RunningOnes(es: seq<Event>): set<(int, int)> {
    set i, w | 0 <= i < |es| && 0 <= w < |es[i].workers| && es[i].workers[w].phase == Running :: (i, w)
  }

  ghost function LeakedOnes(es: seq<Event>): set<int> { set i | 0 <= i < |es| && es[i].handler == Leaked }

  ghost function RunningOf(i: int, workers: seq<Worker>): set<(int, int)> {
    set w | 0 <= w < |workers| && workers[w].phase == Running :: (i, w)
  }

  lemma {:induction false} CountsPhase(i: int, workers: seq<Worker>)
    ensures |RunningOf(i, workers)| == InPhase(workers, Running)
  {
    if workers == [] {
      assert RunningOf(i, workers) == {};
    } else {
      var n := |workers| - 1;
      CountsPhase(i, workers[..n]);
      assert RunningOf(i, workers) == RunningOf(i, workers[..n]) + if workers[n].phase == Running then {(i, n)} else {};
    }
  }

  lemma RunningSnoc(es: seq<Event>)
    requires es != []
    ensures var n := |es| - 1;
            RunningOnes(es) == RunningOnes(es[..n]) + RunningOf(n, es[n].workers) && RunningOnes(es[..n]) !! RunningOf(n, es[n].workers)
  {
  }

  lemma {:induction false} CountsRunning(es: seq<Event>)
    ensures |RunningOnes(es)| == RunningIn(es)
  {
    hide InPhase, RunningOf;
    if es == [] {
      assert RunningOnes(es) == {};
    } else {
      hide RunningOnes;
      CountsRunning(es[..|es| - 1]);
      CountsPhase(|es| - 1, es[|es| - 1].workers);
      RunningSnoc(es);
    }
  }

  lemma {:induction false} CountsLeaks(es: seq<Event>)
    ensures |LeakedOnes(es)| == Leaks(es)
  {
    if es == [] {
      assert LeakedOnes(es) == {};
    } else {
      var n := |es| - 1;
      CountsLeaks(es[..n]);
      assert LeakedOnes(es) == LeakedOnes(es[..n]) + if es[n].handler == Leaked then {n} else {};
    }
  }

  ghost predicate RunInv(max: nat, es: seq<Event>) {
    && (forall i :: 0 <= i < |es| ==> Inv(max, es[i]))
    && (forall i :: 0 <= i < |es| - 1 ==> es[i].handler in {Clean, Leaked})
  }

  lemma {:induction false} OldEventsBounded(max: nat, es: seq<Event>)
    requires forall i :: 0 <= i < |es| ==> Inv(max, es[i]) && es[i].handler in {Clean, Leaked}
    ensures RunningIn(es) <= max * Leaks(es)
  {
    hide Inv, InPhase;
    if es == [] {
    } else {
      var n := |es| - 1;
      OldEventsBounded(max, es[..n]);
      EventBounded(max, es[n]);
      var before := Leaks(es[..n]);
      assert max * (before + 1) == max * before + max;
    }
  }

  lemma EventBounded(max: nat, e: Event)
    requires Inv(max, e)
    ensures InPhase(e.workers, Running) <= max
    ensures e.handler == Clean ==> InPhase(e.workers, Running) == 0
  {
    if e.handler == Clean { AllGoneNoneRunning(e.workers); }
  }

  lemma {:induction false} AllGoneNoneRunning(workers: seq<Worker>)
    requires InPhase(workers, Gone) == |workers|
    ensures InPhase(workers, Running) == 0
  {
    if workers == [] {
    } else {
      AllGoneNoneRunning(workers[..|workers| - 1]);
    }
  }

  lemma NextKeepsInv(max: nat, es: seq<Event>, s: Step)
    requires RunInv(max, es) && Ready(max, es, s)
    ensures RunInv(max, Next(max, es, s))
  {
    hide Inv, Enabled, Apply;
    match s
    case Arrives(all, symbol) => ArrivedInv(max, all, symbol);
    case Acts(i, a) => ActionKeepsInv(max, es[i], a);
  }

  lemma {:induction false} RunKeepsInv(max: nat, steps: seq<Step>, n: nat)
    requires n <= |steps|
    ensures RunInv(max, Run(max, steps, n))
  {
    hide Ready, Next, Inv;
    if n == 0 {
    } else {
      RunKeepsInv(max, steps, n - 1);
      var es := Run(max, steps, n - 1);
      if Ready(max, es, steps[n - 1]) { NextKeepsInv(max, es, steps[n - 1]); }
    }
  }

  lemma ArrivedInv(max: nat, all: seq<Strategy>, symbol: Symbol)
    ensures Inv(max, Arrived(all, symbol))
  {
    AllWant(all, symbol);
  }

  lemma {:induction false} AllWant(all: seq<Strategy>, symbol: Symbol)
    ensures forall i :: 0 <= i < |Interested(all, symbol)| ==>
              Interested(all, symbol)[i].allocations.Some? && symbol in Interested(all, symbol)[i].allocations.value
  {
    if all == [] {
    } else {
      AllWant(all[..|all| - 1], symbol);
    }
  }

  /**
   In every run: each event has at most max workflows running, started at most once for each
   interested strategy, all of which name the symbol, and only for its own user if eligible; and all
   events together have at most max * (1 + the number of events abandoned after their second timeout).
   */
  lemma FanOutIsBounded(max: nat, steps: seq<Step>, n: nat)
    requires n <= |steps|
    ensures var es := Run(max, steps, n);
            && (forall i :: 0 <= i < |es| ==> Chosen(es[i]) && Started(es[i]) && InPhase(es[i].workers, Running) <= max)
            && |RunningOnes(es)| <= max * (1 + |LeakedOnes(es)|)
  {
    hide RunningOnes, LeakedOnes, RunningIn, Leaks;
    RunKeepsInv(max, steps, n);
    var es := Run(max, steps, n);
    RunningBound(max, es);
    CountsRunning(es);
    CountsLeaks(es);
  }

  // ----- What each step of a run moves -----

  /** A worker takes the semaphore while there is room, gives it back, leaves; or gives up, once the context is cancelled. */
  predicate WorkerMoves(max: nat, e: Event, before: Phase, after: Phase) {
    || after == before
    || (before == Waiting && after == Running && e.held < max)
    || (before == Waiting && after == Gone && e.cancelled)
    || (before == Running && after == Released)
    || (before == Released && after == Gone)
  }

  /** The loop goes through the positions until the end or a shutdown; the wait ends when all are done or at its timeouts. */
  predicate HandlerMoves(e: Event, before: Handler, after: Handler) {
    || after == before
    || (before.Launching? && after == Looking(before.next) && before.next < |e.interested| && !e.shutdown)
    || (before.Looking? && after == Launching(before.next + 1))
    || (before.Launching? && after == Draining && (e.shutdown || before.next >= |e.interested|))
    || (before == Draining && after == Forced)
    || (before in {Draining, Forced} && after == Clean && e.pending == 0)
    || (before == Forced && after == Leaked)
  }

  /** Whoever has a user with both flags is added, and nobody else ever is. */
  ghost predicate WorkersKept(e: Event, t: Event, a: Action) {
    if a.Launch? && a.lookup.Some? && a.lookup.value.active && a.lookup.value.circuitBreakerOn then
      e.handler.Looking? && t.workers == e.workers + [Worker(e.handler.next, a.lookup.value, Waiting)]
    else |t.workers| == |e.workers|
  }

  lemma ActionMoves(max: nat, e: Event, a: Action)
    requires Enabled(max, e, a)
    ensures var t := Apply(max, e, a);
            && t.symbol == e.symbol && t.interested == e.interested && WorkersKept(e, t, a)
            && HandlerMoves(e, e.handler, t.handler)
            && (forall w :: 0 <= w < |e.workers| ==>
                  && t.workers[w].position == e.workers[w].position && t.workers[w].user == e.workers[w].user
                  && WorkerMoves(max, e, e.workers[w].phase, t.workers[w].phase))
            && (t.shutdown <==> e.shutdown || a.ShutDown?)
            && (t.cancelled <==> e.cancelled || a.ShutDown? || a.WorkflowDeadline? || a.AllDone? || a.WaitTimesOut?)
  {
  }

  /**
   In every run: a step touches one event and is one of these moves. In particular a launch starts exactly one
   workflow when the user is found active and with the circuit breaker on, and none otherwise.
   */
  lemma StepMoves(max: nat, steps: seq<Step>, n: nat, i: nat)
    requires n < |steps| && i < |Run(max, steps, n)|
    ensures var es, next := Run(max, steps, n), Run(max, steps, n + 1);
            && |es| <= |next|
            && var e, t := es[i], next[i];
               && t.symbol == e.symbol && t.interested == e.interested
               && HandlerMoves(e, e.handler, t.handler)
               && |e.workers| <= |t.workers|
               && (forall w :: 0 <= w < |e.workers| ==>
                     && t.workers[w].position == e.workers[w].position && t.workers[w].user == e.workers[w].user
                     && WorkerMoves(max, e, e.workers[w].phase, t.workers[w].phase))
               && (t != e ==> steps[n].Acts? && steps[n].event == i && Enabled(max, e, steps[n].action))
               && (steps[n].Acts? && steps[n].event == i && Enabled(max, e, steps[n].action) ==> WorkersKept(e, t, steps[n].action))
               && (|t.workers| > |e.workers| ==>
                     && steps[n].Acts? && steps[n].action.Launch? && steps[n].action.lookup.Some?
                     && steps[n].action.lookup.value.active && steps[n].action.lookup.value.circuitBreakerOn)
  {
    hide Enabled, Apply;
    var es, s := Run(max, steps, n), steps[n];
    if s.Acts? && s.event == i && Ready(max, es, s) { ActionMoves(max, es[i], s.action); }
  }

  /**
   Events are handled one after another: the next one is taken up exactly when the last handler has returned,
   either way; and it starts out with no workflow, before the first of the strategies that name its symbol.
   */
  lemma EventBegins(max: nat, steps: seq<Step>, n: nat, s: Strategy)
    requires n < |steps| && steps[n].Arrives?
    ensures var es, next, all, symbol := Run(max, steps, n), Run(max, steps, n + 1), steps[n].all, steps[n].symbol;
            if es == [] || es[|es| - 1].handler == Clean || es[|es| - 1].handler == Leaked then
              && |next| == |es| + 1 && next[..|es|] == es
              && var e := next[|es|];
                 && e.symbol == symbol && e.handler == Launching(0)
                 && e.workers == [] && e.held == e.pending == 0 && !e.shutdown && !e.cancelled
                 && multiset(e.interested)[s]
                      == if s.allocations.Some? && symbol in s.allocations.value then multiset(all)[s] else 0
            else next == es
  {
    InterestedExact(steps[n].all, steps[n].symbol, s);
  }

  // ----- Every event can be finished -----

  /** The event after these actions, if each can be taken. */
  function Acted(max: nat, e: Event, actions: seq<Action>): Option<Event>
    decreases |actions|
  {
    if actions == [] then Some(e)
    else if Enabled(max, e, actions[0]) then Acted(max, Apply(max, e, actions[0]), actions[1..]) else None
  }

  lemma {:induction false} ActedTogether(max: nat, e: Event, a: seq<Action>, b: seq<Action>)
    requires Acted(max, e, a).Some?
    ensures Acted(max, e, a + b) == Acted(max, Acted(max, e, a).value, b)
    decreases |a|
  {
    hide Enabled, Apply;
    if a == [] {
      assert a + b == b;
    } else {
      ActedTogether(max, Apply(max, e, a[0]), a[1..], b);
      assert (a + b)[0] == a[0] && (a + b)[1..] == a[1..] + b;
    }
  }

  /** The moves that the workers still have ahead of them. */
  function Ahead(workers: seq<Worker>): nat {
    if workers == [] then 0
    else
      Ahead(workers[..|workers| - 1])
      + match workers[|workers| - 1].phase case Waiting => 3 case Running => 2 case Released => 1 case Gone => 0
  }

  lemma {:induction false} AheadMoved(workers: seq<Worker>, w: nat, next: Phase)
    requires w < |workers|
    requires (workers[w].phase, next) in {(Waiting, Running), (Running, Released), (Released, Gone), (Waiting, Gone)}
    ensures Ahead(workers[w := workers[w].(phase := next)]) < Ahead(workers)
  {
    var n := |workers| - 1;
    var moved := workers[w := workers[w].(phase := next)];
    if w < n {
      assert moved[..n] == workers[..n][w := workers[w].(phase := next)];
      AheadMoved(workers[..n], w, next);
    } else {
      assert moved[..n] == workers[..n];
    }
  }

  lemma {:induction false} FindPhase(workers: seq<Worker>, phase: Phase) returns (w: nat)
    requires InPhase(workers, phase) > 0
    ensures w < |workers| && workers[w].phase == phase
  {
    var n := |workers| - 1;
    if workers[n].phase == phase { w := n; } else { w := FindPhase(workers[..n], phase); }
  }

  lemma {:induction false} PhasesAddUp(workers: seq<Worker>)
    ensures InPhase(workers, Waiting) + InPhase(workers, Running) + InPhase(workers, Released) + InPhase(workers, Gone) == |workers|
  {
    if workers == [] {
    } else {
      PhasesAddUp(workers[..|workers| - 1]);
    }
  }

  /** The next move of some worker, one that runs first; nobody starts to run once the context is cancelled. */
  lemma NextMove(max: nat, e: Event) returns (a: Action)
    requires max > 0 && Counted(max, e) && e.pending > 0
    ensures (if e.cancelled then a.GiveUp? else a.Acquire?) || a.Finish? || a.Leave?
    ensures Enabled(max, e, a) && Apply(max, e, a).cancelled == e.cancelled
    ensures Ahead(Apply(max, e, a).workers) < Ahead(e.workers) && Apply(max, e, a).handler == e.handler
  {
    hide InPhase, Ahead;
    PhasesAddUp(e.workers);
    if InPhase(e.workers, Running) > 0 {
      var w := FindPhase(e.workers, Running);
      AheadMoved(e.workers, w, Released);
      a := Finish(w);
    } else if InPhase(e.workers, Released) > 0 {
      var w := FindPhase(e.workers, Released);
      AheadMoved(e.workers, w, Gone);
      a := Leave(w);
    } else {
      var w := FindPhase(e.workers, Waiting);
      AheadMoved(e.workers, w, if e.cancelled then Gone else Running);
      a := if e.cancelled then GiveUp(w) else Acquire(w);
    }
  }

  /** The workers can all come to their end: by running, or by giving up once they are cancelled. */
  lemma {:induction false} WorkersCanFinish(max: nat, e: Event) returns (actions: seq<Action>)
    requires max > 0 && Inv(max, e)
    ensures forall i :: 0 <= i < |actions| ==>
              (if e.cancelled then actions[i].GiveUp? else actions[i].Acquire?) || actions[i].Finish? || actions[i].Leave?
    ensures var r := Acted(max, e, actions);
            r.Some? && Inv(max, r.value) && r.value.pending == 0 && r.value.handler == e.handler
    decreases Ahead(e.workers)
  {
    hide Enabled, Apply, Ahead, Chosen, Started, Told;
    PendingIsNatural(max, e);
    if e.pending == 0 {
      actions := [];
    } else {
      var a := NextMove(max, e);
      ActionKeepsInv(max, e, a);
      var rest := WorkersCanFinish(max, Apply(max, e, a));
      actions := [a] + rest;
      assert actions[1..] == rest;
    }
  }

  lemma PendingIsNatural(max: nat, e: Event)
    requires Inv(max, e)
    ensures e.pending >= 0 && Counted(max, e)
  {
  }

  /** The loop can go through all its positions, whether or not their users are found. */
  lemma {:induction false} LoopCanEnd(max: nat, e: Event) returns (actions: seq<Action>)
    requires Inv(max, e) && (e.handler.Launching? || e.handler.Looking?)
    ensures forall i :: 0 <= i < |actions| ==> !actions[i].Acquire? && !actions[i].GiveUp?
    ensures var r := Acted(max, e, actions);
            r.Some? && Inv(max, r.value) && r.value.handler == Draining && r.value.cancelled == e.cancelled
    decreases Passes(e)
  {
    hide Inv;
    var a :=
      if e.handler.Looking? then Launch(None)
      else if e.handler.next >= |e.interested| then EndLaunching
      else if e.shutdown then SeeShutdown else PassCheck;
    InvInside(max, e);
    ActionKeepsInv(max, e, a);
    var next := Apply(max, e, a);
    if next.handler == Draining {
      actions := [a];
      assert actions[1..] == [];
    } else {
      var rest := LoopCanEnd(max, next);
      actions := [a] + rest;
      assert actions[1..] == rest;
    }
  }

  lemma InvInside(max: nat, e: Event)
    requires Inv(max, e)
    ensures Inside(e)
  {
  }

  /** How much of the loop is left. */
  function Passes(e: Event): nat {
    match e.handler
    case Launching(k) => 2 * MaxInt(|e.interested| - k, 0) + 1
    case Looking(k) => 2 * MaxInt(|e.interested| - k, 0)
    case _ => 0
  }

  /**
   From every reachable state of an event there is a way to a clean return with every workflow gone: nothing is
   ever stuck on the semaphore or the wait group. Once the context is cancelled, no workflow has to run for it.
   */
  lemma EventCanFinish(max: nat, e: Event) returns (actions: seq<Action>)
    requires max > 0 && Inv(max, e) && e.handler !in {Clean, Leaked}
    ensures var r := Acted(max, e, actions);
            && r.Some? && r.value.handler == Clean
            && (e.cancelled ==> forall i :: 0 <= i < |actions| ==> !actions[i].Acquire?)
            && (!e.cancelled ==> forall i :: 0 <= i < |actions| ==> !actions[i].GiveUp?)
            && forall w :: 0 <= w < |r.value.workers| ==> r.value.workers[w].phase == Gone
  {
    hide Inv, Enabled, Apply, Acted;
    ActedNothing(max, e);
    var first: seq<Action> := [];
    if e.handler.Launching? || e.handler.Looking? { first := LoopCanEnd(max, e); }
    var waiting := Acted(max, e, first).value;
    var second := WorkersCanFinish(max, waiting);
    var done := Acted(max, waiting, second).value;
    ReturnsClean(max, done);
    ActedTogether(max, e, first, second);
    ActedTogether(max, e, first + second, [AllDone]);
    actions := first + second + [AllDone];
    CleanReturnLeavesNobody(max, Acted(max, e, actions).value);
  }

  lemma ActedNothing(max: nat, e: Event)
    ensures Acted(max, e, []) == Some(e)
  {
  }

  lemma ReturnsClean(max: nat, e: Event)
    requires Inv(max, e) && e.handler in {Draining, Forced} && e.pending == 0
    ensures var r := Acted(max, e, [AllDone]); r.Some? && r.value.handler == Clean && Inv(max, r.value)
  {
    ActionKeepsInv(max, e, AllDone);
  }

  /**
   Whatever the workflows do, two timeouts after the loop the handler has returned; and a shutdown or the
   workflows' deadline may come at any moment and cancels them.
   */
  lemma TimeoutsReturn(max: nat, e: Event)
    ensures e.handler == Draining ==>
              var r := Acted(max, e, [WaitTimesOut, ForceTimesOut]); r.Some? && r.value.handler == Leaked && r.value.cancelled
    ensures Acted(max, e, [ShutDown]) == Some(e.(shutdown := true, cancelled := true))
    ensures Acted(max, e, [WorkflowDeadline]) == Some(e.(cancelled := true))
  {
    assert [ShutDown][1..] == [] && [WorkflowDeadline][1..] == [];
    ActedNothing(max, e.(shutdown := true, cancelled := true));
    ActedNothing(max, e.(cancelled := true));
    if e.handler != Draining { return; }
    assert [WaitTimesOut, ForceTimesOut][1..] == [ForceTimesOut];
    ActedNothing(max, Apply(max, Apply(max, e, WaitTimesOut), ForceTimesOut));
    assert [ForceTimesOut][1..] == [];
  }

  /** The workflows started, and the one that may be about to start. */
  function Startable(e: Event): nat { |e.workers| + if e.handler.Looking? then 1 else 0 }

  lemma ShutdownStays(max: nat, e: Event, a: Action)
    requires e.shutdown && Enabled(max, e, a)
    ensures Apply(max, e, a).shutdown && Startable(Apply(max, e, a)) <= Startable(e)
  {
  }

  /** Once an event has seen the shutdown, its workflows are told to stop and at most one more is started, ever. */
  lemma {:induction false} ShutdownStopsStarts(max: nat, steps: seq<Step>, m: nat, n: nat, i: nat)
    requires m <= n <= |steps| && i < |Run(max, steps, m)| && Run(max, steps, m)[i].shutdown
    ensures var before, after := Run(max, steps, m)[i], Run(max, steps, n);
            && i < |after| && after[i].shutdown && after[i].cancelled
            && |after[i].workers| <= Startable(after[i]) <= Startable(before) <= |before.workers| + 1
  {
    hide Inv, Enabled, Apply;
    RunKeepsInv(max, steps, n);
    if m == n {
    } else {
      ShutdownStopsStarts(max, steps, m, n - 1, i);
      var es, s := Run(max, steps, n - 1), steps[n - 1];
      if Ready(max, es, s) && s.Acts? && s.event == i { ShutdownStays(max, es[i], s.action); }
    }
    InvTold(max, Run(max, steps, n)[i]);
  }

  lemma InvTold(max: nat, e: Event)
    requires Inv(max, e)
    ensures e.shutdown ==> e.cancelled
  {
  }

  lemma RunningBound(max: nat, es: seq<Event>)
    requires RunInv(max, es)
    ensures RunningIn(es) <= max * (1 + Leaks(es))
  {
    hide Inv, InPhase;
    if es != [] {
      var n := |es| - 1;
      OldEventsBounded(max, es[..n]);
      EventBounded(max, es[n]);
      Widen(max, Leaks(es[..n]), Leaks(es));
    }
  }

  lemma Widen(k: nat, x: nat, y: nat)
    requires x <= y
    ensures k * x + k <= k * (1 + y)
  {
    assert k * (1 + y) == k + k * y;
    assert k * (y - x) >= 0;
  }
}
