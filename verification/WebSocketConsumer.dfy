/**
 The batching consumer of internal/consumers/websocket_consumer.go and batching.go: all
 interleavings of its critical sections, then the object with its reused backing array.
 Every section of the object is one step of those interleavings.
 The goroutines spawned by a full batch, the ticker and the final cleanup all run the
 same flush, so a schedule may flush at any moment.
 */
module WebSocketConsumer {
  import opened Prelude
  import opened MarketItems

  const BATCH_SIZE := 100

  lemma AppendOne(taken: seq<seq<Item>>, pending: seq<Item>, item: Item)
    ensures Flatten(taken) + (pending + [item]) == (Flatten(taken) + pending) + [item]
  {
  }

  // ----- All interleavings -----

  /** A flush that has copied its batch, and later deduplicates the copy and hands the result over. */
  datatype Flush = Copied(items: seq<Item>) | Handed(items: seq<Item>, result: seq<Item>)

  datatype State = State(pending: seq<Item>, flushes: seq<Flush>, added: seq<Item>, deduplicated: int)

  datatype Step = Add(item: Item) | Copy | Hand(flush: nat, result: seq<Item>)

  ghost predicate Enabled(s: State, step: Step) {
    step.Hand? ==> step.flush < |s.flushes| && s.flushes[step.flush].Copied? && IsDedup(s.flushes[step.flush].items, step.result)
  }

  function Apply(s: State, step: Step): State {
    match step
    case Add(item) => s.(pending := s.pending + [item], added := s.added + [item])
    case Copy => if s.pending == [] then s else s.(pending := [], flushes := s.flushes + [Copied(s.pending)])
    case Hand(i, result) =>
      if i < |s.flushes| then
        s.(flushes := s.flushes[i := Handed(s.flushes[i].items, result)],
           deduplicated := s.deduplicated + |s.flushes[i].items| - |result|)
      else s
  }

  function Run(steps: seq<Step>, n: nat): State
    requires n <= |steps|
  {
    if n == 0 then State([], [], [], 0) else Apply(Run(steps, n - 1), steps[n - 1])
  }

  ghost predicate Schedule(steps: seq<Step>) {
    forall i :: 0 <= i < |steps| ==> Enabled(Run(steps, i), steps[i])
  }

  /** The items that the first n steps bring. */
  function Arrivals(steps: seq<Step>, n: nat): seq<Item>
    requires n <= |steps|
  {
    if n == 0 then []
    else if steps[n - 1].Add? then Arrivals(steps, n - 1) + [steps[n - 1].item] else Arrivals(steps, n - 1)
  }

  lemma {:induction false} AddedHasArrived(steps: seq<Step>, n: nat)
    requires n <= |steps|
    ensures Run(steps, n).added == Arrivals(steps, n)
  {
    if n == 0 {
    } else {
      AddedHasArrived(steps, n - 1);
    }
  }

  /** The batches as they were copied. */
  function Taken(flushes: seq<Flush>): (r: seq<seq<Item>>)
    ensures |r| == |flushes| && forall i :: 0 <= i < |r| ==> r[i] == flushes[i].items
  {
    seq(|flushes|, i requires 0 <= i < |flushes| => flushes[i].items)
  }

  /** The batches as they are now: what was handed to the store, or the copy still in flight. */
  function Surviving(flushes: seq<Flush>): (r: seq<seq<Item>>)
    ensures |r| == |flushes| && forall i :: 0 <= i < |r| ==> r[i] == if flushes[i].Handed? then flushes[i].result else flushes[i].items
  {
    seq(|flushes|, i requires 0 <= i < |flushes| => if flushes[i].Handed? then flushes[i].result else flushes[i].items)
  }

  ghost predicate Inv(s: State) {
    && Flatten(Taken(s.flushes)) + s.pending == s.added
    && (forall i :: 0 <= i < |s.flushes| && s.flushes[i].Handed? ==> IsDedup(s.flushes[i].items, s.flushes[i].result))
    && |s.added| == |Flatten(Surviving(s.flushes))| + |s.pending| + s.deduplicated
  }

  lemma {:induction false} FlattenUpdate(parts: seq<seq<Item>>, i: nat, part: seq<Item>)
    requires i < |parts|
    ensures |Flatten(parts[i := part])| == |Flatten(parts)| - |parts[i]| + |part|
  {
    var n := |parts| - 1;
    if i < n {
      assert parts[i := part][..n] == parts[..n][i := part];
      FlattenUpdate(parts[..n], i, part);
    } else {
      assert parts[i := part][..n] == parts[..n];
    }
  }

  lemma StepKeepsInv(s: State, step: Step)
    requires Inv(s) && Enabled(s, step)
    ensures Inv(Apply(s, step))
  {
    hide IsDedup, Flatten;
    var t := Apply(s, step);
    match step
    case Add(item) =>
      AppendOne(Taken(s.flushes), s.pending, item);
    case Copy =>
      if s.pending != [] {
        assert Taken(t.flushes) == Taken(s.flushes) + [s.pending];
        assert Surviving(t.flushes) == Surviving(s.flushes) + [s.pending];
        FlattenAppend(Taken(s.flushes), s.pending);
        FlattenAppend(Surviving(s.flushes), s.pending);
      }
    case Hand(i, result) =>
      assert Taken(t.flushes) == Taken(s.flushes);
      assert Surviving(t.flushes) == Surviving(s.flushes)[i := result];
      FlattenUpdate(Surviving(s.flushes), i, result);
  }

  lemma {:induction false} RunKeepsInv(steps: seq<Step>, n: nat)
    requires Schedule(steps) && n <= |steps|
    ensures Inv(Run(steps, n))
  {
    hide Inv, Enabled, Apply;
    if n == 0 {
      InitInv();
    } else {
      RunKeepsInv(steps, n - 1);
      StepKeepsInv(Run(steps, n - 1), steps[n - 1]);
    }
  }

  lemma InitInv()
    ensures Inv(State([], [], [], 0))
  {
  }

  lemma {:induction false} SurvivorsKeepWinners(flushes: seq<Flush>)
    requires forall i :: 0 <= i < |flushes| && flushes[i].Handed? ==> IsDedup(flushes[i].items, flushes[i].result)
    ensures SameWinners(Flatten(Surviving(flushes)), Flatten(Taken(flushes)))
  {
    hide IsDedup, Winner;
    if flushes == [] {
    } else {
      var n := |flushes| - 1;
      SurvivorsKeepWinners(flushes[..n]);
      assert Surviving(flushes)[..n] == Surviving(flushes[..n]);
      assert Taken(flushes)[..n] == Taken(flushes[..n]);
      var last := flushes[n];
      if last.Handed? { DedupKeepsWinners(last.items, last.result); }
      ConcatSame(Flatten(Surviving(flushes[..n])), Surviving(flushes)[n], Flatten(Taken(flushes[..n])), last.items);
    }
  }

  /**
   In every schedule, at every moment: the items that its steps have added are the copied batches followed
   by the pending ones; for each typed key the item that deduplicating everything ever added would keep
   is still pending, in flight or handed over, and still wins there; and the counters account
   for every item.
   */
  lemma NoLatestVersionLost(steps: seq<Step>, n: nat)
    requires Schedule(steps) && n <= |steps|
    ensures var s := Run(steps, n);
            && Flatten(Taken(s.flushes)) + s.pending == s.added == Arrivals(steps, n)
            && SameWinners(Flatten(Surviving(s.flushes)) + s.pending, s.added)
            && |s.added| == |Flatten(Surviving(s.flushes))| + |s.pending| + s.deduplicated
  {
    hide Winner, IsDedup;
    RunKeepsInv(steps, n);
    AddedHasArrived(steps, n);
    var s := Run(steps, n);
    SurvivorsKeepWinners(s.flushes);
    ConcatSame(Flatten(Surviving(s.flushes)), s.pending, Flatten(Taken(s.flushes)), s.pending);
  }

  /** Whatever happens later, a copied batch keeps its items, and once handed over it is settled. */
  ghost predicate Settles(before: seq<Flush>, after: seq<Flush>) {
    && |before| <= |after|
    && forall i :: 0 <= i < |before| ==>
         after[i].items == before[i].items && (before[i].Handed? ==> after[i] == before[i])
  }

  lemma StepSettles(s: State, step: Step)
    requires Enabled(s, step)
    ensures Settles(s.flushes, Apply(s, step).flushes)
  {
    hide IsDedup;
  }

  lemma SettlesTransitive(a: seq<Flush>, b: seq<Flush>, c: seq<Flush>)
    requires Settles(a, b) && Settles(b, c)
    ensures Settles(a, c)
  {
    forall i | 0 <= i < |a| ensures c[i].items == a[i].items && (a[i].Handed? ==> c[i] == a[i]) {
      assert b[i].items == a[i].items;
    }
  }

  /** Every copied batch is handed over at most once, and neither it nor its result changes afterwards. */
  lemma {:induction false} FlushesSettle(steps: seq<Step>, m: nat, n: nat)
    requires Schedule(steps) && m <= n <= |steps|
    ensures Settles(Run(steps, m).flushes, Run(steps, n).flushes)
  {
    hide Settles, Enabled, Apply;
    if m == n {
      SettlesReflexive(Run(steps, m).flushes);
    } else {
      FlushesSettle(steps, m, n - 1);
      StepSettles(Run(steps, n - 1), steps[n - 1]);
      SettlesTransitive(Run(steps, m).flushes, Run(steps, n - 1).flushes, Run(steps, n).flushes);
    }
  }

  lemma SettlesReflexive(a: seq<Flush>)
    ensures Settles(a, a)
  {
  }

  /** Step j hands the result of this flush over. */
  ghost predicate HandedAt(steps: seq<Step>, j: nat, flush: nat, result: seq<Item>) {
    j < |steps| && steps[j] == Hand(flush, result)
  }

  /** In every schedule a copy takes all that is pending, if anything, and leaves nothing. */
  lemma CopyTakesAll(steps: seq<Step>, n: nat)
    requires Schedule(steps) && n < |steps| && steps[n].Copy?
    ensures var s, t := Run(steps, n), Run(steps, n + 1);
            t.pending == [] && t.flushes == if s.pending == [] then s.flushes else s.flushes + [Copied(s.pending)]
  {
  }

  lemma ScheduleStep(steps: seq<Step>, n: nat)
    requires Schedule(steps) && 0 < n <= |steps|
    ensures Enabled(Run(steps, n - 1), steps[n - 1]) && Run(steps, n) == Apply(Run(steps, n - 1), steps[n - 1])
  {
  }

  ghost predicate IsHanded(s: State, flush: nat, result: seq<Item>) {
    flush < |s.flushes| && s.flushes[flush].Handed? && s.flushes[flush].result == result
  }

  /** In every schedule a flush counts as handed over, with this result, if and only if some step has handed it over. */
  lemma {:induction false} HandedIff(steps: seq<Step>, n: nat, flush: nat, result: seq<Item>)
    requires Schedule(steps) && n <= |steps|
    ensures IsHanded(Run(steps, n), flush, result) <==> exists j: nat :: j < n && HandedAt(steps, j, flush, result)
  {
    hide IsDedup, Schedule, Apply, Enabled;
    if n == 0 {
    } else {
      HandedIff(steps, n - 1, flush, result);
      ScheduleStep(steps, n);
      HandedOnce(Run(steps, n - 1), steps[n - 1], flush, result);
      assert HandedAt(steps, n - 1, flush, result) <==> steps[n - 1] == Hand(flush, result);
    }
  }

  lemma HandedOnce(s: State, step: Step, flush: nat, result: seq<Item>)
    requires Enabled(s, step)
    ensures var t := Apply(s, step);
            IsHanded(t, flush, result) <==> step == Hand(flush, result) || IsHanded(s, flush, result)
  {
    hide IsDedup;
  }

  // ----- The object -----

  class Consumer {
    var backing: array<Item>
    var len: nat
    var totalProcessed: nat
    var totalDeduplicated: int
    /** The arrays that flushes have copied, and what has become of them. */
    ghost var copies: seq<array<Item>>
    ghost var flushes: seq<Flush>
    ghost var added: seq<Item>

    function Pending(): seq<Item>
      requires len <= backing.Length
      reads this, backing
    {
      backing[..len]
    }

    ghost function View(): State
      requires len <= backing.Length
      reads this, backing
    {
      State(Pending(), flushes, added, totalDeduplicated)
    }

    /** Every copy is an array of its own and still holds what it held when it was taken. */
    ghost predicate Valid()
      reads this, backing, copies
    {
      && len <= backing.Length
      && |copies| == |flushes|
      && (forall i :: 0 <= i < |copies| ==> copies[i] != backing && copies[i][..] == flushes[i].items)
      && Inv(View())
      && totalProcessed == |added|
    }

    constructor ()
      ensures Valid() && View() == State([], [], [], 0) && fresh(backing)
    {
      backing := new Item[BATCH_SIZE](_ => Foreign(0));
      len, totalProcessed, totalDeduplicated := 0, 0, 0;
      copies, flushes, added := [], [], [];
      new;
      InitInv();
    }

    /** Go's append: in place while there is room, otherwise into a new and longer array. */
    method Append(item: Item)
      requires len <= backing.Length
      modifies this`backing, this`len, backing
      ensures len == old(len) + 1 <= backing.Length
      ensures Pending() == old(Pending()) + [item]
      ensures backing == old(backing) || fresh(backing)
    {
      if len == backing.Length {
        var longer := new Item[2 * len + 1](_ => Foreign(0));
        for i := 0 to len
          invariant forall j :: 0 <= j < i ==> longer[j] == old(backing[j])
          invariant backing == old(backing) && len == old(len) && backing[..] == old(backing[..])
        {
          longer[i] := backing[i];
        }
        backing := longer;
      }
      backing[len] := item;
      len := len + 1;
    }

    /** The whole of addToBatch; `full` says that a flush goroutine is spawned. Copies in flight are out of its reach. */
    method AddToBatch(item: Item) returns (full: bool)
      requires Valid()
      modifies this`backing, this`len, this`totalProcessed, this`added, backing
      ensures Valid() && View() == Apply(old(View()), Add(item))
      ensures Pending() == old(Pending()) + [item] && added == old(added) + [item] && totalProcessed == old(totalProcessed) + 1
      ensures copies == old(copies) && forall i :: 0 <= i < |copies| ==> copies[i][..] == old(copies[i][..])
      ensures full == (|Pending()| >= 100)
    {
      hide Inv;
      StepKeepsInv(View(), Add(item));
      Append(item);
      added := added + [item];
      totalProcessed := totalProcessed + 1;
      full := len >= BATCH_SIZE;
    }

    /** FlushBatch under the lock: copy, then reset the length and keep the array. */
    method TakeCopy() returns (copy: array?<Item>)
      requires Valid()
      modifies this`len, this`copies, this`flushes
      ensures Valid() && View() == Apply(old(View()), Copy) && backing == old(backing)
      ensures Pending() == [] && flushes == if copy == null then old(flushes) else old(flushes) + [Copied(old(Pending()))]
      ensures copy == null <==> old(Pending()) == []
      ensures copies == if copy == null then old(copies) else old(copies) + [copy]
      ensures copy != null ==> fresh(copy)
    {
      hide Inv;
      StepKeepsInv(View(), Copy);
      if len == 0 { return null; }
      var batchCopy := new Item[len](i requires 0 <= i < len <= backing.Length reads this, backing => backing[i]);
      assert batchCopy[..] == Pending();
      copies, flushes := copies + [batchCopy], flushes + [Copied(Pending())];
      len := 0;
      copy := batchCopy;
    }

    /** The rest of FlushBatch, outside the lock, for the copy of one flush; the store may refuse what is handed over. */
    method HandOver(copy: array<Item>, ghost flush: nat, storeOk: bool) returns (ok: bool, handed: seq<Item>)
      requires Valid() && flush < |copies| && copies[flush] == copy && flushes[flush].Copied?
      modifies this`flushes, this`totalDeduplicated
      ensures Valid() && Enabled(old(View()), Hand(flush, handed)) && View() == Apply(old(View()), Hand(flush, handed))
      ensures flushes == old(flushes)[flush := Handed(old(flushes)[flush].items, handed)]
      ensures totalDeduplicated == old(totalDeduplicated) + copy.Length - |handed|
      ensures ok == storeOk
    {
      hide Inv, IsDedup;
      handed := Deduplicate(copy[..]);
      StepKeepsInv(View(), Hand(flush, handed));
      flushes := flushes[flush := Handed(flushes[flush].items, handed)];
      totalDeduplicated := totalDeduplicated + (copy.Length - |handed|);
      ok := storeOk;
    }

    /** A whole FlushBatch with nobody else running. */
    method FlushBatch(storeOk: bool) returns (ok: bool, handed: seq<Item>)
      requires Valid()
      modifies this`len, this`copies, this`flushes, this`totalDeduplicated
      ensures Valid() && Pending() == [] && IsDedup(old(Pending()), handed)
      ensures View() == if old(Pending()) == [] then old(View())
                        else Apply(Apply(old(View()), Copy), Hand(|old(flushes)|, handed))
      ensures ok == (old(Pending()) == [] || storeOk)
    {
      hide Inv, IsDedup;
      EmptyDedup();
      ghost var n := |flushes|;
      var copy := TakeCopy();
      if copy == null { return true, []; }
      ok, handed := HandOver(copy, n, storeOk);
    }
  }
}
