/**
 The batch writer of pkg/clickhouse/batch_writer.go: first the object, whose every
 lock-protected section is one method, then all interleavings of those sections.
 */
module BatchWriter {
  import opened Prelude

  /** The buffer, with the batches handed out and the items appended so far, both in lock order. */
  datatype Core<T> = Core(buffer: seq<T>, taken: seq<seq<T>>, added: seq<T>)

  function Append<T>(s: Core<T>, item: T): Core<T> {
    s.(buffer := s.buffer + [item], added := s.added + [item])
  }

  function Take<T>(s: Core<T>): Core<T> {
    if s.buffer == [] then s else s.(buffer := [], taken := s.taken + [s.buffer])
  }

  /** Every item appended was handed out once, in order, or is still in the buffer. */
  ghost predicate Conserved<T>(s: Core<T>) {
    && Flatten(s.taken) + s.buffer == s.added
    && forall i :: 0 <= i < |s.taken| ==> s.taken[i] != []
  }

  lemma AppendConserves<T>(s: Core<T>, item: T)
    requires Conserved(s)
    ensures Conserved(Append(s, item))
  {
    var whole := Flatten(s.taken);
    assert whole + (s.buffer + [item]) == (whole + s.buffer) + [item];
  }

  lemma TakeConserves<T>(s: Core<T>)
    requires Conserved(s)
    ensures Conserved(Take(s))
  {
    hide Flatten;
    FlattenAppend(s.taken, s.buffer);
    var whole := Flatten(s.taken + [s.buffer]);
    assert whole + [] == whole;
  }

  class Writer<T> {
    const maxBatchSize: nat
    var buffer: seq<T>
    var lastFlush: real
    var running: bool
    var stopClosed: bool
    ghost var taken: seq<seq<T>>
    ghost var added: seq<T>

    ghost function View(): Core<T>
      reads this
    {
      Core(buffer, taken, added)
    }

    ghost predicate Valid()
      reads this
    {
      maxBatchSize >= 1 && Conserved(View())
    }

    constructor (maxBatchSize: int, now: real)
      ensures Valid() && View() == Core([], [], []) && !running && !stopClosed && lastFlush == now
      ensures this.maxBatchSize == if maxBatchSize <= 0 then 500 else maxBatchSize
    {
      this.maxBatchSize := if maxBatchSize <= 0 then 500 else maxBatchSize;
      buffer, taken, added := [], [], [];
      lastFlush, running, stopClosed := now, false, false;
    }

    /** The section of Add: append, and say whether this item filled the buffer. */
    method AppendSection(item: T) returns (full: bool)
      requires Valid()
      modifies this`buffer, this`added
      ensures Valid() && View() == Append(old(View()), item)
      ensures buffer == old(buffer) + [item] && added == old(added) + [item]
      ensures full == (|buffer| >= maxBatchSize)
    {
      AppendConserves(View(), item);
      buffer := buffer + [item];
      added := added + [item];
      full := |buffer| >= maxBatchSize;
    }

    /** The section of Flush: take the whole buffer and leave a new one. */
    method TakeSection(now: real) returns (batch: seq<T>)
      requires Valid()
      modifies this`buffer, this`taken, this`lastFlush
      ensures Valid() && View() == Take(old(View()))
      ensures batch == old(buffer) && buffer == []
      ensures taken == if batch == [] then old(taken) else old(taken) + [batch]
      ensures lastFlush == if batch == [] then old(lastFlush) else now
    {
      batch := buffer;
      if |buffer| != 0 {
        TakeConserves(View());
        taken := taken + [buffer];
        buffer := [];
        lastFlush := now;
      }
    }

    /** `storeOk` is what the store answers to a non-empty batch. */
    method Flush(now: real, storeOk: bool) returns (ok: bool)
      requires Valid()
      modifies this`buffer, this`taken, this`lastFlush
      ensures Valid() && View() == Take(old(View()))
      ensures ok == (old(buffer) == [] || storeOk)
    {
      var batch := TakeSection(now);
      ok := |batch| == 0 || storeOk;
    }

    /** A whole Add with nobody else running: the buffer is never full when it returns. */
    method Add(item: T, now: real, storeOk: bool) returns (ok: bool)
      requires Valid()
      modifies this`buffer, this`added, this`taken, this`lastFlush
      ensures Valid() && |buffer| < maxBatchSize
      ensures View() == if |old(buffer)| + 1 >= maxBatchSize then Take(Append(old(View()), item)) else Append(old(View()), item)
      ensures ok == (storeOk || |old(buffer)| + 1 < maxBatchSize)
    {
      var full := AppendSection(item);
      ok := true;
      if full { ok := Flush(now, storeOk); }
    }

    method Start() returns (spawned: bool)
      modifies this`running
      ensures running && spawned == !old(running)
    {
      spawned := !running;
      running := true;
    }

    method Stop() returns (signalled: bool)
      modifies this`running, this`stopClosed
      ensures !running && signalled == old(running) && stopClosed == (old(stopClosed) || signalled)
    {
      signalled := running;
      if running {
        running := false;
        stopClosed := true;
      }
    }
  }

  // ----- All interleavings -----

  datatype Delivery = InFlight | Stored | Failed

  /** The background loop; `Draining` is its last Flush after the take, before the return. */
  datatype Loop = NotStarted | Idle | Ticked | Stopping | Draining | Exited

  /**
   `fillers` are the Add calls that filled the buffer and have not flushed yet.
   At the loop's final take, `mark` is how many items had been appended, and `last` the number of
   the batch it took, counted from one, or zero when it found the buffer empty.
   */
  datatype State<T> = State(
    core: Core<T>, delivered: seq<Delivery>, fillers: set<nat>,
    loop: Loop, running: bool, stopClosed: bool, mark: nat, last: nat)

  datatype Step<T> =
    | AddAppends(call: nat, item: T)
    | FillerTakes(call: nat)
    | CallerTakes
    | StoreAnswers(batch: nat, ok: bool)
    | Starts
    | Stops
    | LoopTicks
    | LoopTakes
    | LoopStops(cancelled: bool)
    | LoopTakesLast
    | LoopExits

  ghost predicate Init<T>(s: State<T>) {
    s == State(Core([], [], []), [], {}, NotStarted, false, false, 0, 0)
  }

  function AfterTake<T>(s: State<T>): State<T> {
    s.(core := Take(s.core), delivered := if s.core.buffer == [] then s.delivered else s.delivered + [InFlight])
  }

  ghost predicate Enabled<T>(s: State<T>, step: Step<T>) {
    match step
    case AddAppends(call, _) => call !in s.fillers
    case FillerTakes(call) => call in s.fillers
    case CallerTakes => true
    case StoreAnswers(batch, _) => batch < |s.delivered| && s.delivered[batch] == InFlight
    case Starts => s.loop == NotStarted
    case Stops => s.running
    case LoopTicks => s.loop == Idle
    case LoopTakes => s.loop == Ticked
    case LoopStops(cancelled) => s.loop == Idle && (cancelled || s.stopClosed)
    case LoopTakesLast => s.loop == Stopping
    case LoopExits => s.loop == Draining && (0 < s.last <= |s.delivered| ==> s.delivered[s.last - 1] != InFlight)
  }

  function Apply<T>(max: nat, s: State<T>, step: Step<T>): State<T>
  {
    match step
    case AddAppends(call, item) =>
      var core := Append(s.core, item);
      s.(core := core, fillers := if |core.buffer| >= max then s.fillers + {call} else s.fillers)
    case FillerTakes(call) => AfterTake(s).(fillers := s.fillers - {call})
    case CallerTakes => AfterTake(s)
    case StoreAnswers(batch, ok) =>
      if batch < |s.delivered| then s.(delivered := s.delivered[batch := if ok then Stored else Failed]) else s
    case Starts => s.(loop := Idle, running := true)
    case Stops => s.(running := false, stopClosed := true)
    case LoopTicks => s.(loop := if s.core.buffer == [] then Idle else Ticked)
    case LoopTakes => AfterTake(s).(loop := Idle)
    case LoopStops(_) => s.(loop := Stopping)
    case LoopTakesLast => AfterTake(s).(loop := Draining, mark := |s.core.added|, last := if s.core.buffer == [] then 0 else |s.core.taken| + 1)
    case LoopExits => s.(loop := Exited)
  }

  ghost predicate Inv<T>(max: nat, s: State<T>) {
    && Conserved(s.core)
    && |s.delivered| == |s.core.taken|
    && |s.core.buffer| <= max - 1 + |s.fillers|
    && s.mark <= |s.core.added| && s.last <= |s.delivered|
    && (s.loop in {Draining, Exited} ==> |s.core.buffer| <= |s.core.added| - s.mark)
    && (s.loop == Exited && s.last > 0 ==> s.delivered[s.last - 1] != InFlight)
    && (s.stopClosed ==> !s.running) && (s.running || s.stopClosed ==> s.loop != NotStarted)
  }

  lemma AfterTakeKeeps<T>(s: State<T>)
    requires Conserved(s.core) && |s.delivered| == |s.core.taken|
    ensures var t := AfterTake(s);
            && t == s.(core := t.core, delivered := t.delivered)
            && Conserved(t.core) && |t.delivered| == |t.core.taken|
            && t.core.buffer == [] && t.core.added == s.core.added
            && s.delivered <= t.delivered && |t.delivered| == |s.delivered| + (if s.core.buffer == [] then 0 else 1)
  {
    hide Conserved;
    TakeConserves(s.core);
  }

  /** The steps that take the buffer. */
  predicate Takes<T>(step: Step<T>) { step.FillerTakes? || step.CallerTakes? || step.LoopTakes? || step.LoopTakesLast? }

  lemma TakeKeepsInv<T>(max: nat, s: State<T>, step: Step<T>)
    requires max >= 1 && Inv(max, s) && Enabled(s, step) && Takes(step)
    ensures Inv(max, Apply(max, s, step))
  {
    hide Conserved, AfterTake, Take;
    AfterTakeKeeps(s);
  }

  lemma OtherStepKeepsInv<T>(max: nat, s: State<T>, step: Step<T>)
    requires max >= 1 && Inv(max, s) && Enabled(s, step) && !Takes(step)
    ensures Inv(max, Apply(max, s, step))
  {
    hide Conserved, AfterTake, Take;
    if step.AddAppends? { AppendConserves(s.core, step.item); }
  }

  lemma StepKeepsInv<T>(max: nat, s: State<T>, step: Step<T>)
    requires max >= 1 && Inv(max, s) && Enabled(s, step)
    ensures Inv(max, Apply(max, s, step))
  {
    hide Inv, Enabled, Apply;
    if Takes(step) { TakeKeepsInv(max, s, step); } else { OtherStepKeepsInv(max, s, step); }
  }

  /** Handed-out batches are never rewritten, and a settled delivery or a finished loop never changes. */
  ghost predicate Extends<T>(s: State<T>, t: State<T>) {
    && s.core.taken <= t.core.taken && s.core.added <= t.core.added && |s.delivered| <= |t.delivered|
    && (forall i :: 0 <= i < |s.delivered| && s.delivered[i] != InFlight ==> t.delivered[i] == s.delivered[i])
    && (s.loop == Exited ==> t.loop == Exited && t.mark == s.mark)
  }

  /** The state after the first n steps of a schedule. */
  function Run<T>(max: nat, start: State<T>, steps: seq<Step<T>>, n: nat): (s: State<T>)
    requires n <= |steps|
  {
    if n == 0 then start else Apply(max, Run(max, start, steps, n - 1), steps[n - 1])
  }

  ghost predicate Schedule<T>(max: nat, start: State<T>, steps: seq<Step<T>>) {
    Init(start) && forall i :: 0 <= i < |steps| ==> Enabled(Run(max, start, steps, i), steps[i])
  }

  lemma RunStep<T>(max: nat, start: State<T>, steps: seq<Step<T>>, n: nat)
    requires Schedule(max, start, steps) && 0 < n <= |steps|
    ensures var s := Run(max, start, steps, n - 1);
            Enabled(s, steps[n - 1]) && Run(max, start, steps, n) == Apply(max, s, steps[n - 1])
  {
  }

  /** The whole buffer is a tail of the items that were appended after the first `mark`. */
  ghost predicate AppendedSince<T>(s: Core<T>, mark: nat) {
    exists k :: mark <= k <= |s.added| && s.buffer == s.added[k..]
  }

  /** How many of the first n steps are Adds that filled the buffer. */
  function Filled<T>(max: nat, start: State<T>, steps: seq<Step<T>>, n: nat): nat
    requires n <= |steps|
  {
    if n == 0 then 0
    else
      Filled(max, start, steps, n - 1)
      + if steps[n - 1].AddAppends? && |Run(max, start, steps, n).core.buffer| >= max then 1 else 0
  }

  /** How many of them are the flushes of such Adds. */
  function Flushed<T>(steps: seq<Step<T>>, n: nat): nat
    requires n <= |steps|
  {
    if n == 0 then 0 else Flushed(steps, n - 1) + if steps[n - 1].FillerTakes? then 1 else 0
  }

  lemma {:induction false} FillersAreUnflushed<T>(max: nat, start: State<T>, steps: seq<Step<T>>, n: nat)
    requires Schedule(max, start, steps) && n <= |steps|
    ensures |Run(max, start, steps, n).fillers| == Filled(max, start, steps, n) - Flushed(steps, n)
  {
    hide Schedule, Take;
    ScheduleStarts(max, start, steps);
    if n == 0 {
    } else {
      FillersAreUnflushed(max, start, steps, n - 1);
      RunStep(max, start, steps, n);
    }
  }

  lemma ScheduleStarts<T>(max: nat, start: State<T>, steps: seq<Step<T>>)
    requires Schedule(max, start, steps)
    ensures Init(start)
  {
  }

  /** The items that the first n steps bring. */
  function Arrivals<T>(steps: seq<Step<T>>, n: nat): seq<T>
    requires n <= |steps|
  {
    if n == 0 then []
    else if steps[n - 1].AddAppends? then Arrivals(steps, n - 1) + [steps[n - 1].item] else Arrivals(steps, n - 1)
  }

  lemma {:induction false} AddedHasArrived<T>(max: nat, start: State<T>, steps: seq<Step<T>>, n: nat)
    requires Schedule(max, start, steps) && n <= |steps|
    ensures Run(max, start, steps, n).core.added == Arrivals(steps, n)
  {
    hide Schedule;
    ScheduleStarts(max, start, steps);
    if n == 0 {
    } else {
      AddedHasArrived(max, start, steps, n - 1);
      RunStep(max, start, steps, n);
    }
  }

  /** Step j is the loop's final take, and this many items had been appended when it ran. */
  ghost predicate FinalTake<T>(max: nat, start: State<T>, steps: seq<Step<T>>, j: nat, mark: nat)
    requires j < |steps|
  {
    steps[j].LoopTakesLast? && mark == |Run(max, start, steps, j).core.added|
  }

  lemma {:induction false} MarkIsFinalTake<T>(max: nat, start: State<T>, steps: seq<Step<T>>, n: nat)
    requires Schedule(max, start, steps) && n <= |steps|
    ensures var s := Run(max, start, steps, n);
            s.loop in {Draining, Exited} ==> exists j :: 0 <= j < n && FinalTake(max, start, steps, j, s.mark)
  {
    hide Schedule, Take;
    ScheduleStarts(max, start, steps);
    if n == 0 {
    } else {
      MarkIsFinalTake(max, start, steps, n - 1);
      RunStep(max, start, steps, n);
      if steps[n - 1].LoopTakesLast? {
        assert FinalTake(max, start, steps, n - 1, Run(max, start, steps, n).mark);
      }
    }
  }

  lemma {:induction false} RunKeepsInv<T>(max: nat, start: State<T>, steps: seq<Step<T>>, n: nat)
    requires max >= 1 && Schedule(max, start, steps) && n <= |steps|
    ensures Inv(max, Run(max, start, steps, n))
  {
    hide Inv, Apply, Enabled, Schedule, Init;
    if n == 0 {
      ScheduleStarts(max, start, steps);
      InitInv(max, start);
    } else {
      RunKeepsInv(max, start, steps, n - 1);
      RunStep(max, start, steps, n);
      StepKeepsInv(max, Run(max, start, steps, n - 1), steps[n - 1]);
    }
  }

  lemma InitInv<T>(max: nat, s: State<T>)
    requires max >= 1 && Init(s)
    ensures Inv(max, s)
  {
  }

  /**
   In every schedule, at every moment: the batches handed out, then the buffer, are the items that the
   schedule's Adds have brought; the buffer overshoots by at most one item for each Add that filled it and has not
   flushed yet; and after the loop has exited the buffer holds only items appended since its
   final take.
   */
  lemma EveryScheduleHandsOffOnce<T>(max: nat, start: State<T>, steps: seq<Step<T>>, n: nat)
    requires max >= 1 && Schedule(max, start, steps) && n <= |steps|
    ensures var s := Run(max, start, steps, n);
            && Flatten(s.core.taken) + s.core.buffer == s.core.added == Arrivals(steps, n)
            && (forall i :: 0 <= i < |s.core.taken| ==> s.core.taken[i] != [])
            && |s.core.buffer| <= max - 1 + Filled(max, start, steps, n) - Flushed(steps, n)
            && (s.loop == Exited ==>
                  exists j, mark :: 0 <= j < n && FinalTake(max, start, steps, j, mark) && AppendedSince(s.core, mark))
  {
    hide Flatten, Run, Schedule, Filled, Flushed, FinalTake, Arrivals;
    RunKeepsInv(max, start, steps, n);
    AddedHasArrived(max, start, steps, n);
    FillersAreUnflushed(max, start, steps, n);
    MarkIsFinalTake(max, start, steps, n);
    var s := Run(max, start, steps, n);
    BufferIsTail(s.core);
    if s.loop == Exited {
      assert AppendedSince(s.core, s.mark);
    }
  }

  lemma BufferIsTail<T>(s: Core<T>)
    requires Conserved(s)
    ensures |s.buffer| <= |s.added| && s.buffer == s.added[|s.added| - |s.buffer|..]
  {
    hide Flatten;
  }

  lemma InvCounts<T>(max: nat, s: State<T>)
    requires Inv(max, s)
    ensures |s.delivered| == |s.core.taken|
  {
  }

  lemma StepExtends<T>(max: nat, s: State<T>, step: Step<T>)
    requires Enabled(s, step) && |s.delivered| == |s.core.taken|
    ensures Extends(s, Apply(max, s, step))
  {
  }

  lemma ExtendsReflexive<T>(s: State<T>)
    ensures Extends(s, s)
  {
  }

  lemma ExtendsTransitive<T>(s: State<T>, t: State<T>, u: State<T>)
    requires Extends(s, t) && Extends(t, u)
    ensures Extends(s, u)
  {
    forall i | 0 <= i < |s.delivered| && s.delivered[i] != InFlight ensures u.delivered[i] == s.delivered[i] {
      assert t.delivered[i] == s.delivered[i];
    }
  }

  lemma {:induction false} HistoryOnlyGrows<T>(max: nat, start: State<T>, steps: seq<Step<T>>, m: nat, n: nat)
    requires max >= 1 && Schedule(max, start, steps) && m <= n <= |steps|
    ensures Extends(Run(max, start, steps, m), Run(max, start, steps, n))
  {
    hide Extends, Apply, Inv, Enabled, Run, Schedule;
    ExtendsReflexive(Run(max, start, steps, m));
    if m == n {
    } else {
      HistoryOnlyGrows(max, start, steps, m, n - 1);
      var s := Run(max, start, steps, n - 1);
      RunKeepsInv(max, start, steps, n - 1);
      InvCounts(max, s);
      RunStep(max, start, steps, n);
      StepExtends(max, s, steps[n - 1]);
      ExtendsTransitive(Run(max, start, steps, m), s, Run(max, start, steps, n));
    }
  }

  // ----- What the steps of a schedule do -----

  /**
   In every schedule, whoever flushes, an Add that filled the buffer, a caller, the ticker or the final flush:
   the whole buffer is handed to the store as one more batch, and an empty one is not.
   */
  lemma TakesHandOver<T>(max: nat, start: State<T>, steps: seq<Step<T>>, n: nat)
    requires Schedule(max, start, steps) && n < |steps|
    requires steps[n].FillerTakes? || steps[n].CallerTakes? || steps[n].LoopTakes? || steps[n].LoopTakesLast?
    ensures var s, t := Run(max, start, steps, n), Run(max, start, steps, n + 1);
            && t.core.buffer == [] && t.core.added == s.core.added
            && (if s.core.buffer == [] then t.core.taken == s.core.taken && t.delivered == s.delivered
                else t.core.taken == s.core.taken + [s.core.buffer] && t.delivered == s.delivered + [InFlight])
  {
    hide Schedule;
    RunStep(max, start, steps, n + 1);
  }

  /** The steps of the background loop. */
  predicate OfLoop<T>(step: Step<T>) {
    step.Starts? || step.LoopTicks? || step.LoopTakes? || step.LoopStops? || step.LoopTakesLast? || step.LoopExits?
  }

  /**
   A tick that finds something in the buffer is followed by a flush, whatever others do in between: that flush
   can be made at any time, and it is the next step of the loop.
   */
  lemma {:induction false} TickIsFlushed<T>(max: nat, start: State<T>, steps: seq<Step<T>>, n: nat, m: nat)
    requires Schedule(max, start, steps) && n < m <= |steps|
    requires steps[n].LoopTicks? && Run(max, start, steps, n).core.buffer != []
    requires forall j :: n < j < m ==> !OfLoop(steps[j])
    ensures var s := Run(max, start, steps, m); Enabled(s, LoopTakes) && s.loop == Ticked
    ensures m < |steps| && OfLoop(steps[m]) ==> steps[m].LoopTakes?
    decreases m
  {
    hide Schedule, AfterTake;
    RunStep(max, start, steps, m);
    if m > n + 1 {
      TickIsFlushed(max, start, steps, n, m - 1);
      OnlyLoopMoves(max, Run(max, start, steps, m - 1), steps[m - 1]);
    }
    if m < |steps| { RunStep(max, start, steps, m + 1); }
  }

  lemma OnlyLoopMoves<T>(max: nat, s: State<T>, step: Step<T>)
    requires Enabled(s, step) && !OfLoop(step)
    ensures Apply(max, s, step).loop == s.loop
  {
  }

  /** The store has answered batch b with ok at one of the first n steps. */
  ghost predicate Answered<T>(steps: seq<Step<T>>, n: nat, b: nat, ok: bool)
    requires n <= |steps|
  {
    exists j :: 0 <= j < n && steps[j] == StoreAnswers(b, ok)
  }

  /** A batch counts as stored, or as failed, if and only if the store has said so. */
  lemma {:induction false} AnswersAreRecorded<T>(max: nat, start: State<T>, steps: seq<Step<T>>, n: nat, b: nat)
    requires max >= 1 && Schedule(max, start, steps) && n <= |steps|
    ensures var d := Run(max, start, steps, n).delivered;
            && (Answered(steps, n, b, true) <==> b < |d| && d[b] == Stored)
            && (Answered(steps, n, b, false) <==> b < |d| && d[b] == Failed)
  {
    hide Schedule, Take;
    ScheduleStarts(max, start, steps);
    if n == 0 {
    } else {
      AnswersAreRecorded(max, start, steps, n - 1, b);
      RunStep(max, start, steps, n);
      var last := steps[n - 1];
      forall ok ensures Answered(steps, n, b, ok) <==> Answered(steps, n - 1, b, ok) || last == StoreAnswers(b, ok) {
        if last == StoreAnswers(b, ok) { assert steps[n - 1] == StoreAnswers(b, ok); }
      }
    }
  }

  /** The loop runs once somebody has started it, and the writer from then until somebody stops it; the loop ends by its own three steps. */
  lemma {:induction false} StartedAndStopped<T>(max: nat, start: State<T>, steps: seq<Step<T>>, n: nat)
    requires Schedule(max, start, steps) && n <= |steps|
    ensures var s := Run(max, start, steps, n);
            && (s.loop == NotStarted <==> forall j :: 0 <= j < n ==> !steps[j].Starts?)
            && (s.stopClosed <==> exists j :: 0 <= j < n && steps[j].Stops?)
            && (s.running <==> s.loop != NotStarted && !s.stopClosed) && (s.stopClosed ==> s.loop != NotStarted)
            && (s.loop in {Stopping, Draining, Exited} <==> exists j :: 0 <= j < n && steps[j].LoopStops?)
            && (s.loop in {Draining, Exited} <==> exists j :: 0 <= j < n && steps[j].LoopTakesLast?)
            && (s.loop == Exited <==> exists j :: 0 <= j < n && steps[j].LoopExits?)
  {
    hide Schedule, AfterTake;
    ScheduleStarts(max, start, steps);
    if n == 0 {
    } else {
      StartedAndStopped(max, start, steps, n - 1);
      RunStep(max, start, steps, n);
      TakesLeaveFlags(Run(max, start, steps, n - 1));
    }
  }

  lemma TakesLeaveFlags<T>(s: State<T>)
    ensures var t := AfterTake(s); t.loop == s.loop && t.running == s.running && t.stopClosed == s.stopClosed && t.fillers == s.fillers
  {
  }

  /**
   Nobody ever waits for anybody: at every moment of a schedule each call may append, or flush if it has filled
   the buffer; any caller may flush; Stop finds the writer running exactly after a Start and before a Stop; the
   store may answer, either way, exactly the batches that it has not answered yet; and an idle loop may tick, or
   stop if its context is cancelled or somebody has called Stop.
   */
  lemma NobodyWaits<T>(max: nat, start: State<T>, steps: seq<Step<T>>, n: nat, call: nat, item: T, b: nat, ok: bool)
    requires max >= 1 && Schedule(max, start, steps) && n <= |steps|
    ensures var s := Run(max, start, steps, n);
            && Enabled(s, CallerTakes) && (Enabled(s, AddAppends(call, item)) || Enabled(s, FillerTakes(call)))
            && (Enabled(s, Starts) <==> forall j :: 0 <= j < n ==> !steps[j].Starts?)
            && (Enabled(s, Stops) <==>
                  (exists j :: 0 <= j < n && steps[j].Starts?) && forall j :: 0 <= j < n ==> !steps[j].Stops?)
            && (Enabled(s, StoreAnswers(b, ok)) <==>
                  b < |s.delivered| && !Answered(steps, n, b, true) && !Answered(steps, n, b, false))
            && (s.loop == Idle ==> Enabled(s, LoopTicks))
            && (Enabled(s, LoopStops(ok)) <==> s.loop == Idle && (ok || exists j :: 0 <= j < n && steps[j].Stops?))
  {
    hide Schedule, Run, Answered;
    StartedAndStopped(max, start, steps, n);
    AnswersAreRecorded(max, start, steps, n, b);
  }

  /** Once the loop has exited, the batch of its final take, if there was one, has been answered. */
  ghost predicate FinalBatchSettled<T>(max: nat, start: State<T>, steps: seq<Step<T>>, j: nat, s: State<T>)
    requires j < |steps|
  {
    var before := Run(max, start, steps, j);
    steps[j].LoopTakesLast?
    && (before.core.buffer != [] ==>
          var b := |before.core.taken|;
          b < |s.core.taken| && s.core.taken[b] == before.core.buffer && b < |s.delivered| && s.delivered[b] != InFlight)
  }

  /** `last` is the number of the batch that the final take handed over, if any. */
  ghost predicate LastNames<T>(max: nat, start: State<T>, steps: seq<Step<T>>, j: nat, s: State<T>)
    requires j < |steps|
  {
    var before := Run(max, start, steps, j);
    steps[j].LoopTakesLast?
    && (before.core.buffer != [] ==>
          s.last == |before.core.taken| + 1 && s.last <= |s.core.taken| && s.core.taken[s.last - 1] == before.core.buffer)
  }

  lemma {:induction false} LastNamesFinalBatch<T>(max: nat, start: State<T>, steps: seq<Step<T>>, n: nat) returns (j: nat)
    requires max >= 1 && Schedule(max, start, steps) && n <= |steps|
    requires Run(max, start, steps, n).loop in {Draining, Exited}
    ensures j < n && LastNames(max, start, steps, j, Run(max, start, steps, n))
  {
    hide Schedule;
    ScheduleStarts(max, start, steps);
    if n == 0 {
      assert false;
    } else {
      RunStep(max, start, steps, n);
      if steps[n - 1].LoopTakesLast? {
        j := n - 1;
      } else {
        j := LastNamesFinalBatch(max, start, steps, n - 1);
      }
    }
  }

  lemma ExitMeansSettled<T>(max: nat, start: State<T>, steps: seq<Step<T>>, n: nat) returns (j: nat)
    requires max >= 1 && Schedule(max, start, steps) && n <= |steps| && Run(max, start, steps, n).loop == Exited
    ensures j < n && FinalBatchSettled(max, start, steps, j, Run(max, start, steps, n))
  {
    hide Schedule, Run, Conserved;
    RunKeepsInv(max, start, steps, n);
    j := LastNamesFinalBatch(max, start, steps, n);
  }

  // ----- The writer can always be brought to an end -----

  /** Each of these steps can be taken in turn. */
  ghost predicate Path<T>(max: nat, s: State<T>, steps: seq<Step<T>>)
    decreases |steps|
  {
    steps != [] ==> Enabled(s, steps[0]) && Path(max, Apply(max, s, steps[0]), steps[1..])
  }

  function After<T>(max: nat, s: State<T>, steps: seq<Step<T>>): State<T>
    decreases |steps|
  {
    if steps == [] then s else After(max, Apply(max, s, steps[0]), steps[1..])
  }

  /** How many steps lie ahead of the loop, its last batch's answer included. */
  function Left<T>(s: State<T>): nat {
    match s.loop
    case NotStarted => 6
    case Ticked => 5
    case Idle => 4
    case Stopping => 3
    case Draining => if 0 < s.last <= |s.delivered| && s.delivered[s.last - 1] == InFlight then 2 else 1
    case Exited => 0
  }

  /** What the loop does next when it has been told to stop. */
  function StopStep<T>(s: State<T>): Step<T>
    requires s.loop in {Ticked, Idle, Stopping, Draining}
  {
    match s.loop
    case Ticked => LoopTakes
    case Idle => LoopStops(false)
    case Stopping => LoopTakesLast
    case Draining => if 0 < s.last <= |s.delivered| && s.delivered[s.last - 1] == InFlight then StoreAnswers(s.last - 1, true) else LoopExits
  }

  lemma StopStepMoves<T>(max: nat, s: State<T>)
    requires Inv(max, s) && s.stopClosed && s.loop in {Ticked, Idle, Stopping, Draining}
    ensures var step := StopStep(s);
            && Enabled(s, step) && (OfLoop(step) || step.StoreAnswers?)
            && var t := Apply(max, s, step);
               && Left(t) < Left(s) && t.stopClosed && t.core.added == s.core.added && t.loop in {Idle, Stopping, Draining, Exited}
               && (s.loop in {Idle, Draining} ==> t.core.buffer == s.core.buffer) && (s.loop == Stopping ==> t.core.buffer == [])
               && (t.loop == Exited ==> s.loop == Draining)
               && (t.loop == Draining ==> s.loop in {Stopping, Draining}) && (s.loop == Draining ==> t.loop in {Draining, Exited})
  {
    hide Conserved;
  }

  /**
   From every reachable state after a Stop the loop comes to its end, on its own steps and the store's answers
   alone; and unless it has made its final take already, it leaves nothing in the buffer if nobody adds.
   */
  lemma {:induction false} StopDrains<T>(max: nat, s: State<T>) returns (steps: seq<Step<T>>)
    requires max >= 1 && Inv(max, s) && s.stopClosed && s.loop in {Ticked, Idle, Stopping, Draining}
    ensures Path(max, s, steps) && forall i :: 0 <= i < |steps| ==> OfLoop(steps[i]) || steps[i].StoreAnswers?
    ensures var t := After(max, s, steps);
            t.loop == Exited && t.core.added == s.core.added && t.core.buffer == if s.loop == Draining then s.core.buffer else []
    decreases Left(s)
  {
    hide Inv, Enabled, Apply, Left, StopStep, OfLoop;
    var step := StopStep(s);
    StopStepMoves(max, s);
    StepKeepsInv(max, s, step);
    var t := Apply(max, s, step);
    if t.loop == Exited {
      steps := [step];
      assert steps[1..] == [];
    } else {
      var rest := StopDrains(max, t);
      steps := [step] + rest;
      assert steps[1..] == rest;
    }
  }
}
