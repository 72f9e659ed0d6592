/**
 The calls of one user to the navigator (pkg/telegram/menu_navigator.go), each in a goroutine of its own
 (pkg/telegram/adapters/tgbotapi/client.go:141, 470, pkg/telegram/webhook.go:55): a call is a sequence of
 accesses to the service and to session objects, and a schedule interleaves the accesses of all calls in
 any order. A call that runs undisturbed is one press of the sequential model.
 */
module MenuRaces {
  import opened Prelude
  import opened MenuSession
  import opened SessionAccesses

  // ----- Calls -----

  /** Where a call stands: what it does next, with what it has read. */
  datatype Pc =
    | Begin
    | Replacing | Creating | Naming | Placing | Placed
    | Marking | Looking | Checking(params: Values) | Filing(target: string, rest: Values) | Pushing(target: string)
    | Moving(target: string) | Moved
    | Clearing | Drawing(next: nat) | Storing(next: nat, menuType: string)
    | Editing | Unmarking | Sending | Sent | Finishing
    | Ending
    | Done(reply: Reply)

  /** `ptr` is the session object that the call was given. */
  datatype Thread = Thread(press: Press, ptr: nat, pc: Pc)

  function DisplayOf(p: Press): Display {
    if p.End? then Display(false, false, false, [], false, false, false, 0) else p.display
  }

  function ScreenOf(p: Press): string { if p.Start? then p.screen else "" }

  function InitialOf(p: Press): Values { if p.Start? then p.initial else map[] }

  function MenuOf(p: Press): string { if MENU_TYPE in InitialOf(p) then InitialOf(p)[MENU_TYPE] else "" }

  function KeyOf(p: Press): string { if p.Callback? then p.key else "" }

  function MessageOf(p: Press): int { if p.Callback? then p.messageId else 0 }

  function KnownTo(p: Press): set<string> { if p.Callback? then p.known else {} }

  predicate Enters(p: Press) { !p.End? && p.enterOk }

  function Object(s: Service, o: nat): Session { if o < |s.objects| then s.objects[o] else NewSession("", map[]) }

  /** A display that fails before the keyboard touches nothing. */
  function Entry(d: Display): Pc { if Rebuilds(d) then Clearing else Done(ShowFailed) }

  predicate FromElsewhere(x: Session, params: Values) {
    MENU_TYPE in params && params[MENU_TYPE] != "" && params[MENU_TYPE] != x.menuType
  }

  /** The access that the call makes next; `pick` chooses among the parameters that are still to be filed. */
  function NextOp(t: Thread, s: Service, pick: string): Op {
    var d := DisplayOf(t.press);
    match t.pc
    case Replacing => Delete
    case Creating => Create(ScreenOf(t.press), InitialOf(t.press))
    case Naming => On(t.ptr, SetMenu(MenuOf(t.press)))
    case Placing => On(t.ptr, SetScreen(ScreenOf(t.press)))
    case Placed => Save(t.ptr)
    case Marking => On(t.ptr, SetMessage(MessageOf(t.press)))
    case Looking => if KeyOf(t.press) == BACK then On(t.ptr, Pop) else Read
    case Filing(_, rest) =>
      if rest.Keys == {} then Save(t.ptr) else if pick in rest then On(t.ptr, SetDatum(pick, rest[pick])) else Read
    case Pushing(target) => On(t.ptr, Push(target))
    case Moving(target) => On(t.ptr, SetScreen(target))
    case Moved => Save(t.ptr)
    case Clearing => On(t.ptr, Clear)
    case Drawing(i) => if i >= |d.buttons| && d.keyboardOk then Save(t.ptr) else Read
    case Storing(i, menuType) =>
      if i < |d.buttons| then On(t.ptr, Store(d.buttons[i].key, ParamsOf(menuType, d.buttons[i]))) else Read
    case Unmarking => On(t.ptr, SetMessage(0))
    case Sent => On(t.ptr, SetMessage(d.sentId))
    case Finishing => Save(t.ptr)
    case Ending => Delete
    case _ => Read
  }

  function NextPc(t: Thread, s: Service, pick: string): Pc {
    var x, d, p := Object(s, t.ptr), DisplayOf(t.press), t.press;
    match t.pc
    case Begin =>
      if p.Start? then (if s.current.Some? then Replacing else Creating)
      else if p.End? then Ending
      else if s.current.None? then Done(NoSession) else Marking
    case Replacing => Creating
    case Creating => Naming
    case Naming => Placing
    case Placing => Placed
    case Placed => if Enters(p) then Entry(d) else Done(OnEnterFailed)
    case Marking => Looking
    case Looking =>
      if KeyOf(p) == BACK then
        if x.stack == [] then Done(StackEmpty)
        else if x.stack[|x.stack| - 1] in KnownTo(p) then Moving(x.stack[|x.stack| - 1]) else Done(UnknownScreen)
      else if KeyOf(p) in x.callbacks then Checking(x.callbacks[KeyOf(p)]) else Done(Expired)
    case Checking(params) =>
      if FromElsewhere(x, params) then Done(WrongMenu)
      else if SCREEN !in params then Done(NoTarget)
      else if params[SCREEN] !in KnownTo(p) then Done(UnknownScreen)
      else Filing(params[SCREEN], params - {SCREEN})
    case Filing(target, rest) =>
      if rest.Keys == {} then (if Enters(p) then Pushing(target) else Done(OnEnterFailed))
      else if pick in rest then Filing(target, rest - {pick}) else t.pc
    case Pushing(target) => Moving(target)
    case Moving(_) => Moved
    case Moved => Entry(d)
    case Clearing => if d.hasKeyboard then Drawing(0) else Editing
    case Drawing(i) => if i < |d.buttons| then Storing(i, x.menuType) else if d.keyboardOk then Editing else Done(ShowFailed)
    case Storing(i, _) => Drawing(i + 1)
    case Editing => if x.messageId > 0 && !d.editOk then Unmarking else Sending
    case Unmarking => Sending
    case Sending => if x.messageId != 0 then Finishing else if d.sendOk then Sent else Done(ShowFailed)
    case Sent => Finishing
    case Finishing => Done(Shown)
    case Ending => Done(NoSession)
    case Done(_) => t.pc
  }

  function NextPtr(t: Thread, s: Service): nat {
    if t.pc.Begin? && t.press.Callback? && s.current.Some? then s.current.value
    else if t.pc.Creating? then |s.objects|
    else t.ptr
  }

  function Next(t: Thread, s: Service, pick: string): Thread { Thread(t.press, NextPtr(t, s), NextPc(t, s, pick)) }

  // ----- Schedules -----

  datatype Go = Go(thread: nat, pick: string)

  datatype State = State(service: Service, threads: seq<Thread>)

  function Init(ps: seq<Press>): State {
    State(Service([], None), seq(|ps|, i requires 0 <= i < |ps| => Thread(ps[i], 0, Begin)))
  }

  function OpOf(st: State, go: Go): Op {
    if go.thread < |st.threads| then NextOp(st.threads[go.thread], st.service, go.pick) else Read
  }

  function Advance(st: State, go: Go): State {
    State(Serve(st.service, OpOf(st, go)),
          if go.thread < |st.threads| then st.threads[go.thread := Next(st.threads[go.thread], st.service, go.pick)] else st.threads)
  }

  /** The state after the first n turns of a schedule. */
  function Exec(st: State, gos: seq<Go>, n: nat): State
    requires n <= |gos|
  {
    if n == 0 then st else Advance(Exec(st, gos, n - 1), gos[n - 1])
  }

  function After(ps: seq<Press>, gos: seq<Go>, n: nat): State
    requires n <= |gos|
  {
    Exec(Init(ps), gos, n)
  }

  /** The accesses of a schedule, one for each turn. */
  function Ops(ps: seq<Press>, gos: seq<Go>): (ops: seq<Op>)
    ensures |ops| == |gos|
  {
    seq(|gos|, i requires 0 <= i < |gos| => OpOf(After(ps, gos, i), gos[i]))
  }

  /** Has the call been given a session object? */
  predicate Holds(pc: Pc) { !(pc.Begin? || pc.Replacing? || pc.Creating? || pc.Ending? || pc.Done?) }

  /** A call stands where one of its kind can stand. */
  predicate Fits(t: Thread) {
    match t.pc
    case Begin => true
    case Done(_) => true
    case Ending => t.press.End?
    case Replacing => t.press.Start?
    case Creating => t.press.Start?
    case Naming => t.press.Start?
    case Placing => t.press.Start?
    case Placed => t.press.Start?
    case Marking => t.press.Callback?
    case Looking => t.press.Callback?
    case Checking(_) => t.press.Callback?
    case Filing(_, _) => t.press.Callback?
    case Pushing(_) => t.press.Callback?
    case Moving(_) => t.press.Callback?
    case Moved => t.press.Callback?
    case Drawing(i) => !t.press.End? && DisplayOf(t.press).hasKeyboard && i <= |DisplayOf(t.press).buttons|
    case Storing(i, _) => !t.press.End? && DisplayOf(t.press).hasKeyboard && i < |DisplayOf(t.press).buttons|
    case _ => !t.press.End?
  }

  ghost predicate ThreadOk(t: Thread, s: Service) { Fits(t) && (Holds(t.pc) ==> t.ptr < |s.objects|) }

  ghost predicate StateOk(st: State) {
    && (st.service.current.Some? ==> st.service.current.value < |st.service.objects|)
    && forall c :: 0 <= c < |st.threads| ==> ThreadOk(st.threads[c], st.service)
  }

  lemma NextFits(t: Thread, s: Service, pick: string)
    requires Fits(t)
    ensures Fits(Next(t, s, pick)) && Next(t, s, pick).press == t.press
    ensures t.pc.Done? ==> Next(t, s, pick) == t && NextOp(t, s, pick) == Read
    ensures !t.pc.Begin? && !t.pc.Creating? ==> Next(t, s, pick).ptr == t.ptr
    ensures Holds(Next(t, s, pick).pc) && t.press.Callback? && !t.pc.Begin? ==> Holds(t.pc)
    ensures Holds(t.pc) || t.pc.Done? ==> Holds(Next(t, s, pick).pc) || Next(t, s, pick).pc.Done?
  {
    hide ParamsOf, NewSession, FromElsewhere, Rebuilds;
  }

  lemma NextHolds(t: Thread, s: Service, pick: string)
    requires ThreadOk(t, s) && (s.current.Some? ==> s.current.value < |s.objects|)
    ensures Points(s, NextOp(t, s, pick))
    ensures var r := Serve(s, NextOp(t, s, pick));
            && |r.objects| >= |s.objects| && (r.current.Some? ==> r.current.value < |r.objects|)
            && (Holds(Next(t, s, pick).pc) ==> Next(t, s, pick).ptr < |r.objects|)
  {
    hide ParamsOf, NewSession, FromElsewhere, Rebuilds, Access;
  }

  lemma AdvanceKeeps(st: State, go: Go)
    requires StateOk(st)
    ensures Points(st.service, OpOf(st, go)) && StateOk(Advance(st, go))
    ensures |Advance(st, go).threads| == |st.threads|
    ensures Advance(st, go).service == Serve(st.service, OpOf(st, go))
    ensures forall c :: 0 <= c < |st.threads| ==> Advance(st, go).threads[c].press == st.threads[c].press
    ensures forall c :: 0 <= c < |st.threads| && c != go.thread ==> Advance(st, go).threads[c] == st.threads[c]
  {
    hide NextOp, Next, Serve, Fits;
    if go.thread < |st.threads| {
      NextFits(st.threads[go.thread], st.service, go.pick);
      NextHolds(st.threads[go.thread], st.service, go.pick);
    } else {
      ReadServes(st.service);
    }
  }

  lemma ReadServes(s: Service)
    ensures Serve(s, Read) == s
  {
  }

  lemma AfterStep(ps: seq<Press>, gos: seq<Go>, n: nat)
    requires 0 < n <= |gos|
    ensures After(ps, gos, n) == Advance(After(ps, gos, n - 1), gos[n - 1])
    ensures Served(Ops(ps, gos), n) == Serve(Served(Ops(ps, gos), n - 1), OpOf(After(ps, gos, n - 1), gos[n - 1]))
  {
    hide Advance, OpOf, Serve;
  }

  lemma AfterNothing(ps: seq<Press>, gos: seq<Go>)
    ensures After(ps, gos, 0) == Init(ps) && Served(Ops(ps, gos), 0) == Init(ps).service && StateOk(Init(ps))
  {
  }

  /** A schedule is a sequence of accesses, and its calls keep their own presses. */
  lemma {:induction false} ServiceFollows(ps: seq<Press>, gos: seq<Go>, n: nat)
    requires n <= |gos|
    ensures After(ps, gos, n).service == Served(Ops(ps, gos), n)
    ensures |After(ps, gos, n).threads| == |ps| && StateOk(After(ps, gos, n))
    ensures forall c :: 0 <= c < |ps| ==> After(ps, gos, n).threads[c].press == ps[c]
  {
    hide After, Served, Ops, Advance, OpOf, StateOk, Serve;
    if n == 0 {
      AfterNothing(ps, gos);
    } else {
      ServiceFollows(ps, gos, n - 1);
      AfterStep(ps, gos, n);
      AdvanceKeeps(After(ps, gos, n - 1), gos[n - 1]);
    }
  }

  /** So all that holds for sequences of accesses holds for schedules of calls. */
  lemma SchedulesAreSound(ps: seq<Press>, gos: seq<Go>)
    ensures Sound(Ops(ps, gos))
  {
    hide OpOf, Exec, Served, Points, StateOk;
    forall i | 0 <= i < |gos| ensures Points(Served(Ops(ps, gos), i), Ops(ps, gos)[i]) {
      ServiceFollows(ps, gos, i);
      AdvanceKeeps(After(ps, gos, i), gos[i]);
    }
  }

  /** Call c after the first n turns. */
  function Call(ps: seq<Press>, gos: seq<Go>, n: nat, c: nat): (t: Thread)
    requires n <= |gos| && c < |ps|
    ensures t.press == ps[c]
  {
    ServiceFollows(ps, gos, n);
    After(ps, gos, n).threads[c]
  }

  lemma CallStep(ps: seq<Press>, gos: seq<Go>, n: nat, c: nat)
    requires 0 < n <= |gos| && c < |ps|
    ensures var s, t := After(ps, gos, n - 1).service, Call(ps, gos, n - 1, c);
            && ThreadOk(t, s)
            && Call(ps, gos, n, c) == (if gos[n - 1].thread == c then Next(t, s, gos[n - 1].pick) else t)
            && (gos[n - 1].thread == c ==> Ops(ps, gos)[n - 1] == NextOp(t, s, gos[n - 1].pick))
  {
    hide Next, NextOp, Exec, Served, ThreadOk;
    ServiceFollows(ps, gos, n - 1);
    AfterStep(ps, gos, n);
  }

  lemma CallStarts(ps: seq<Press>, gos: seq<Go>, c: nat)
    requires c < |ps|
    ensures Call(ps, gos, 0, c) == Thread(ps[c], 0, Begin)
  {
  }

  // ----- What a press on a button is answered -----

  /** Turn g is the beginning of call c, which is given object o. */
  ghost predicate Begins(ps: seq<Press>, gos: seq<Go>, g: nat, c: nat, o: nat)
    requires g < |gos| && c < |ps|
  {
    gos[g].thread == c && Call(ps, gos, g, c).pc.Begin? && After(ps, gos, g).service.current == Some(o)
  }

  /** The object of a press is the one that was the user's session when the press began, whatever has become of it since. */
  lemma {:induction false} PointerWasCurrent(ps: seq<Press>, gos: seq<Go>, n: nat, c: nat) returns (g: nat)
    requires n <= |gos| && c < |ps| && ps[c].Callback? && Holds(Call(ps, gos, n, c).pc)
    ensures g < n && Begins(ps, gos, g, c, Call(ps, gos, n, c).ptr)
  {
    hide Exec, Serve, NextPc, NextOp, Call, Fits;
    CallStarts(ps, gos, c);
    CallStep(ps, gos, n, c);
    var before := Call(ps, gos, n - 1, c);
    NextFits(before, After(ps, gos, n - 1).service, gos[n - 1].pick);
    if gos[n - 1].thread == c && before.pc.Begin? {
      BeginPointer(before, After(ps, gos, n - 1).service, gos[n - 1].pick);
      g := n - 1;
    } else {
      g := PointerWasCurrent(ps, gos, n - 1, c);
    }
  }

  lemma BeginPointer(t: Thread, s: Service, pick: string)
    requires t.press.Callback? && t.pc.Begin? && Holds(Next(t, s, pick).pc)
    ensures s.current == Some(Next(t, s, pick).ptr)
  {
  }

  /** Call c reads the callbacks of its object under its key in turn r. */
  ghost predicate Looks(ps: seq<Press>, gos: seq<Go>, r: nat, c: nat)
    requires r < |gos| && c < |ps|
  {
    gos[r].thread == c && ps[c].Callback? && ps[c].key != "back" && Call(ps, gos, r, c).pc.Looking?
  }

  lemma LookingMoves(t: Thread, s: Service, pick: string)
    requires ThreadOk(t, s) && t.pc.Looking? && KeyOf(t.press) != BACK
    ensures Next(t, s, pick).pc == Done(Expired) <==> KeyOf(t.press) !in s.objects[t.ptr].callbacks
    ensures KeyOf(t.press) in s.objects[t.ptr].callbacks ==> Next(t, s, pick).pc == Checking(s.objects[t.ptr].callbacks[KeyOf(t.press)])
  {
  }

  /**
   In every schedule a press is refused as expired exactly when its key is not live, at the moment when it
   looks, in the object that was the user's session when it began.
   */
  lemma PressRefusedIff(ps: seq<Press>, gos: seq<Go>, r: nat, c: nat) returns (g: nat)
    requires r < |gos| && c < |ps| && Looks(ps, gos, r, c)
    ensures var o := Call(ps, gos, r, c).ptr;
            && g < r && Begins(ps, gos, g, c, o)
            && (Call(ps, gos, r + 1, c).pc == Done(Expired) <==> !exists i: nat :: LiveStore(Ops(ps, gos), i, o, ps[c].key, r))
  {
    hide Exec, Served, Next, NextOp, LiveStore, Call, Begins, Sound, Ops;
    ServiceFollows(ps, gos, r);
    SchedulesAreSound(ps, gos);
    CallStep(ps, gos, r + 1, c);
    var t := Call(ps, gos, r, c);
    g := PointerWasCurrent(ps, gos, r, c);
    LookingMoves(t, After(ps, gos, r).service, gos[r].pick);
    KeyLiveIff(Ops(ps, gos), t.ptr, ps[c].key, r);
  }

  /** No key is drawn twice, and none is the word "back". */
  ghost predicate FreshStores(ops: seq<Op>) {
    && (forall i, j, o, p, key :: 0 <= i < j < |ops| && Stores(ops[i], o, key) ==> !Stores(ops[j], p, key))
    && (forall i, o :: 0 <= i < |ops| ==> !Stores(ops[i], o, "back"))
  }

  /**
   The exact condition for an older button, in every schedule with fresh keys: once its key is stored, a
   press on it is refused exactly when the press began on another session object, or a clear of the
   object came between the store and the look. Nothing else matters: neither which keyboard is the newest,
   nor which session was started last.
   */
  lemma OldButtonRefusedIff(ps: seq<Press>, gos: seq<Go>, i: nat, o: nat, r: nat, c: nat)
    requires i < r < |gos| && c < |ps| && Looks(ps, gos, r, c)
    requires FreshStores(Ops(ps, gos)) && Stores(Ops(ps, gos)[i], o, ps[c].key)
    ensures Call(ps, gos, r + 1, c).pc == Done(Expired) <==>
              Call(ps, gos, r, c).ptr != o || exists j :: i < j < r && Clears(Ops(ps, gos)[j], o)
  {
    hide Exec, Call, Begins, Ops, Stores, Clears;
    var ops, key, p := Ops(ps, gos), ps[c].key, Call(ps, gos, r, c).ptr;
    var g := PressRefusedIff(ps, gos, r, c);
    forall k: nat | LiveStore(ops, k, p, key, r) ensures k == i && p == o {
      OneStore(ops, i, o, k, p, key);
    }
    if p == o && forall j :: i < j < r ==> !Clears(ops[j], o) {
      assert LiveStore(ops, i, o, key, r);
    }
  }

  lemma SameKeyOnce(ops: seq<Op>, i: nat, o: nat, k: nat, p: nat, key: string)
    requires FreshStores(ops) && i < |ops| && k < |ops| && Stores(ops[i], o, key)
    ensures i < k ==> !Stores(ops[k], p, key)
  {
    hide Stores;
  }

  lemma SamePlace(op: Op, o: nat, p: nat, key: string)
    ensures Stores(op, o, key) && Stores(op, p, key) ==> o == p
  {
  }

  lemma OneStore(ops: seq<Op>, i: nat, o: nat, k: nat, p: nat, key: string)
    requires FreshStores(ops) && i < |ops| && k < |ops| && Stores(ops[i], o, key) && Stores(ops[k], p, key)
    ensures i == k && o == p
  {
    hide Stores;
    SameKeyOnce(ops, i, o, k, p, key);
    SameKeyOnce(ops, k, p, i, o, key);
    SamePlace(ops[i], o, p, key);
  }

  lemma BackMoves(t: Thread, s: Service, pick: string)
    requires ThreadOk(t, s) && t.pc.Looking? && KeyOf(t.press) == BACK
    ensures NextOp(t, s, pick) == On(t.ptr, Pop)
    ensures var stack := s.objects[t.ptr].stack;
            Next(t, s, pick).pc
              == if stack == [] then Done(StackEmpty)
                 else if stack[|stack| - 1] in KnownTo(t.press) then Moving(stack[|stack| - 1]) else Done(UnknownScreen)
  {
  }

  /** Call c is a Back about to pop the stack of its object in turn k, and finds something there. */
  ghost predicate Pops(ps: seq<Press>, gos: seq<Go>, k: nat, c: nat)
    requires k < |gos| && c < |ps|
  {
    && gos[k].thread == c && ps[c].Callback? && ps[c].key == "back" && Call(ps, gos, k, c).pc.Looking?
    && Call(ps, gos, k, c).ptr < |After(ps, gos, k).service.objects|
    && After(ps, gos, k).service.objects[Call(ps, gos, k, c).ptr].stack != []
  }

  /**
   In every schedule a Back goes to the target of the last push on its object that no pop has undone, by
   whichever calls these were made, and leaves the stack as it was before that push.
   */
  lemma BackUndoesPush(ps: seq<Press>, gos: seq<Go>, k: nat, c: nat) returns (i: nat)
    requires k < |gos| && c < |ps| && Pops(ps, gos, k, c)
    ensures var o, moves := Call(ps, gos, k, c).ptr, MovesOn(Ops(ps, gos), Call(ps, gos, k, c).ptr, k);
            && i < |moves| && moves[i].Forth? && Matched(moves, i + 1, |moves|)
            && (Call(ps, gos, k + 1, c).pc
                  == if moves[i].target in ps[c].known then Moving(moves[i].target) else Done(UnknownScreen))
            && o < |After(ps, gos, k + 1).service.objects|
            && After(ps, gos, k + 1).service.objects[o].stack == Reduced([], moves, i)
  {
    hide Exec, Served, Next, NextOp, Call, Ops, MovesOn, Reduced, Sound, Matched;
    ServiceFollows(ps, gos, k);
    ServiceFollows(ps, gos, k + 1);
    SchedulesAreSound(ps, gos);
    CallStep(ps, gos, k + 1, c);
    BackMoves(Call(ps, gos, k, c), After(ps, gos, k).service, gos[k].pick);
    i := PopUndoesPush(Ops(ps, gos), Call(ps, gos, k, c).ptr, k);
  }

  // ----- What a call saves -----

  /**
   Turns after which the user's session is the call's own object, whoever has replaced it before: its starting
   screen is placed, its parameters are filed, it has moved to its screen, its keyboard is built, it is shown.
   */
  predicate Commits(t: Thread) {
    || t.pc.Placed? || (t.pc.Filing? && t.pc.rest.Keys == {}) || t.pc.Moved?
    || (t.pc.Drawing? && t.pc.next >= |DisplayOf(t.press).buttons| && DisplayOf(t.press).keyboardOk) || t.pc.Finishing?
  }

  /** In every schedule a call leaves its own object as the user's session at each of these turns, and a shown one at its end. */
  lemma CommitsItsSession(ps: seq<Press>, gos: seq<Go>, k: nat, c: nat)
    requires k < |gos| && c < |ps| && gos[k].thread == c
    ensures Commits(Call(ps, gos, k, c)) ==> After(ps, gos, k + 1).service.current == Some(Call(ps, gos, k, c).ptr)
    ensures Call(ps, gos, k, c).pc != Done(Shown) && Call(ps, gos, k + 1, c).pc == Done(Shown) ==>
              After(ps, gos, k + 1).service.current == Some(Call(ps, gos, k + 1, c).ptr)
  {
    hide Exec, Call, After, Ops, Served;
    CallStep(ps, gos, k + 1, c);
    ServiceStep(ps, gos, k + 1);
    TurnCommits(Call(ps, gos, k, c), After(ps, gos, k).service, gos[k].pick);
  }

  lemma TurnCommits(t: Thread, s: Service, pick: string)
    ensures Commits(t) ==> Serve(s, NextOp(t, s, pick)).current == Some(t.ptr)
    ensures t.pc != Done(Shown) && Next(t, s, pick).pc == Done(Shown) ==>
              Serve(s, NextOp(t, s, pick)).current == Some(Next(t, s, pick).ptr)
  {
    hide ParamsOf, NewSession, FromElsewhere, Rebuilds, Access;
  }

  lemma {:induction false} CallWaits(ps: seq<Press>, gos: seq<Go>, k: nat, m: nat, c: nat)
    requires k <= m <= |gos| && c < |ps| && forall j :: k <= j < m ==> gos[j].thread != c
    ensures Call(ps, gos, m, c) == Call(ps, gos, k, c)
  {
    hide Call, Next, NextOp;
    if k == m {
    } else {
      CallWaits(ps, gos, k, m - 1, c);
      CallStep(ps, gos, m, c);
    }
  }

  /** A call that starts a menu while the user has a session leaves the user without one by its next turn, whatever others do in between. */
  lemma StartDropsSession(ps: seq<Press>, gos: seq<Go>, k: nat, m: nat, c: nat)
    requires k < m < |gos| && c < |ps| && gos[k].thread == gos[m].thread == c && forall j :: k < j < m ==> gos[j].thread != c
    requires ps[c].Start? && Call(ps, gos, k, c).pc.Begin? && After(ps, gos, k).service.current.Some?
    ensures After(ps, gos, m + 1).service.current == None
  {
    hide Exec, Call, After, Ops, Served;
    CallStep(ps, gos, k + 1, c);
    CallWaits(ps, gos, k + 1, m, c);
    CallStep(ps, gos, m + 1, c);
    ServiceStep(ps, gos, m + 1);
  }

  // ----- Which keyboard is stored -----

  /** Call c stores this key in o at turn j, or another call does. */
  ghost predicate DrawnBy(ps: seq<Press>, gos: seq<Go>, j: nat, c: nat, o: nat, key: string) {
    j < |gos| && gos[j].thread == c && Stores(Ops(ps, gos)[j], o, key)
  }

  ghost predicate DrawnByOther(ps: seq<Press>, gos: seq<Go>, j: nat, c: nat, o: nat, key: string) {
    j < |gos| && gos[j].thread != c && Stores(Ops(ps, gos)[j], o, key)
  }

  ghost predicate ClearedSince(ps: seq<Press>, gos: seq<Go>, j: nat, o: nat, n: nat)
    requires n <= |gos|
  {
    exists k :: j < k < n && Clears(Ops(ps, gos)[k], o)
  }

  /** The live keys of o are exactly those that call c has stored in it. */
  ghost predicate HoldsKeyboardOf(ps: seq<Press>, gos: seq<Go>, c: nat, o: nat, n: nat)
    requires n <= |gos| && o < |After(ps, gos, n).service.objects|
  {
    forall key :: key in After(ps, gos, n).service.objects[o].callbacks <==> exists j: nat :: j < n && DrawnBy(ps, gos, j, c, o, key)
  }

  /**
   In every schedule with fresh keys an object holds exactly the keyboard of call c if and only if no clear
   has come after any of c's stores, and one has come after every store of another call.
   */
  lemma KeyboardIntactIff(ps: seq<Press>, gos: seq<Go>, c: nat, o: nat, n: nat)
    requires n <= |gos| && FreshStores(Ops(ps, gos)) && o < |After(ps, gos, n).service.objects|
    ensures HoldsKeyboardOf(ps, gos, c, o, n) <==>
              && (forall j: nat, key :: j < n && DrawnBy(ps, gos, j, c, o, key) ==> !ClearedSince(ps, gos, j, o, n))
              && (forall j: nat, key :: j < n && DrawnByOther(ps, gos, j, c, o, key) ==> ClearedSince(ps, gos, j, o, n))
  {
    hide After, Served, Ops, Stores, Clears, Sound, FreshStores;
    var ops := Ops(ps, gos);
    ServiceFollows(ps, gos, n);
    SchedulesAreSound(ps, gos);
    var live := After(ps, gos, n).service.objects[o].callbacks;
    forall key ensures key in live <==> exists i: nat :: LiveStore(ops, i, o, key, n) { KeyLiveIff(ops, o, key, n); }
    forall j: nat, key | j < n && Stores(ops[j], o, key) ensures key in live <==> !ClearedSince(ps, gos, j, o, n) {
      if key in live {
        var i: nat :| LiveStore(ops, i, o, key, n);
        OneStore(ops, i, o, j, o, key);
      } else {
        assert !LiveStore(ops, j, o, key, n);
      }
    }
    if HoldsKeyboardOf(ps, gos, c, o, n) {
      forall j: nat, key | j < n && DrawnByOther(ps, gos, j, c, o, key) ensures ClearedSince(ps, gos, j, o, n) {
        if key in live {
          var i: nat :| i < n && DrawnBy(ps, gos, i, c, o, key);
          OneStore(ops, i, o, j, o, key);
        }
      }
      forall j: nat, key | j < n && DrawnBy(ps, gos, j, c, o, key) ensures !ClearedSince(ps, gos, j, o, n) {
        assert key in live;
      }
    }
    if (forall j: nat, key :: j < n && DrawnBy(ps, gos, j, c, o, key) ==> !ClearedSince(ps, gos, j, o, n))
       && (forall j: nat, key :: j < n && DrawnByOther(ps, gos, j, c, o, key) ==> ClearedSince(ps, gos, j, o, n)) {
      forall key ensures key in live <==> exists j: nat :: j < n && DrawnBy(ps, gos, j, c, o, key) {
        if key in live {
          var i: nat :| LiveStore(ops, i, o, key, n);
          assert DrawnBy(ps, gos, i, c, o, key) || DrawnByOther(ps, gos, i, c, o, key);
        }
      }
    }
  }

  // ----- A build that no other call disturbs -----

  /** Has the call cleared its object? */
  predicate PastClear(t: Thread) {
    t.pc.Drawing? || t.pc.Storing? || t.pc.Editing? || t.pc.Unmarking? || t.pc.Sending? || t.pc.Sent? || t.pc.Finishing? || t.pc.Done?
  }

  /** The buttons that the call has stored since then. */
  function DrawnSoFar(t: Thread): seq<Button> {
    var buttons := DisplayOf(t.press).buttons;
    match t.pc
    case Drawing(i) => if i <= |buttons| then buttons[..i] else buttons
    case Storing(i, _) => if i <= |buttons| then buttons[..i] else buttons
    case _ => Built(DisplayOf(t.press))
  }

  ghost predicate Builds(t: Thread, x: Session, menuType: string) {
    && PastClear(t) && x.menuType == menuType && x.callbacks == Stored(menuType, DrawnSoFar(t))
    && (t.pc.Storing? ==> t.pc.menuType == menuType)
  }

  predicate Disturbs(op: Op, o: nat) { op.On? && op.o == o && (op.a.Clear? || op.a.Store? || op.a.SetMenu?) }

  lemma OtherKeepsBuild(s: Service, op: Op, o: nat)
    requires o < |s.objects| && !Disturbs(op, o)
    ensures var r := Serve(s, op);
            o < |r.objects| && r.objects[o].menuType == s.objects[o].menuType && r.objects[o].callbacks == s.objects[o].callbacks
  {
  }

  lemma StoredSnoc(menuType: string, buttons: seq<Button>, b: Button)
    ensures Stored(menuType, buttons + [b]) == Stored(menuType, buttons)[b.key := ParamsOf(menuType, b)]
  {
    assert (buttons + [b])[..|buttons|] == buttons;
  }

  lemma OwnStepBuilds(t: Thread, s: Service, pick: string, menuType: string)
    requires ThreadOk(t, s) && Holds(t.pc) && Builds(t, s.objects[t.ptr], menuType)
    ensures var u, r := Next(t, s, pick), Serve(s, NextOp(t, s, pick));
            u.ptr == t.ptr && t.ptr < |r.objects| && Builds(u, r.objects[t.ptr], menuType)
  {
    hide Stored, ParamsOf;
    var buttons := DisplayOf(t.press).buttons;
    assert buttons[..|buttons|] == buttons;
    if t.pc.Storing? {
      StoredSnoc(menuType, buttons[..t.pc.next], buttons[t.pc.next]);
      assert buttons[..t.pc.next + 1] == buttons[..t.pc.next] + [buttons[t.pc.next]];
    }
  }

  lemma ClearBuilds(t: Thread, s: Service, pick: string)
    requires ThreadOk(t, s) && t.pc.Clearing?
    ensures var u, r := Next(t, s, pick), Serve(s, NextOp(t, s, pick));
            u.ptr == t.ptr && t.ptr < |r.objects| && Builds(u, r.objects[t.ptr], s.objects[t.ptr].menuType)
  {
    hide Stored;
    NothingStored();
    assert DisplayOf(t.press).buttons[..0] == [];
  }

  /** After turn i no other call clears the object, stores in it or renames its menu. */
  ghost predicate Quiet(ps: seq<Press>, gos: seq<Go>, i: nat, n: nat, c: nat, o: nat)
    requires n <= |gos|
  {
    forall j :: i < j < n && gos[j].thread != c ==> !Disturbs(Ops(ps, gos)[j], o)
  }

  /**
   As long as no other call disturbs the object since call c has cleared it, it holds exactly the callbacks
   of the buttons that c has drawn so far, with the session's menu type; and of all of them once c is done.
   */
  lemma {:induction false} QuietBuild(ps: seq<Press>, gos: seq<Go>, i: nat, n: nat, c: nat)
    requires i < n <= |gos| && c < |ps| && gos[i].thread == c && Call(ps, gos, i, c).pc.Clearing?
    requires Quiet(ps, gos, i, n, c, Call(ps, gos, i, c).ptr)
    ensures var o, t, s := Call(ps, gos, i, c).ptr, Call(ps, gos, n, c), After(ps, gos, n).service;
            && t.ptr == o && o < |After(ps, gos, i).service.objects| && o < |s.objects|
            && Builds(t, s.objects[o], After(ps, gos, i).service.objects[o].menuType)
    decreases n
  {
    hide Exec, Served, Next, NextOp, Call, Builds, Ops, Serve, Disturbs, Fits;
    var o := Call(ps, gos, i, c).ptr;
    CallStep(ps, gos, i + 1, c);
    CallStep(ps, gos, n, c);
    ServiceStep(ps, gos, n);
    var t, s := Call(ps, gos, n - 1, c), After(ps, gos, n - 1).service;
    if n == i + 1 {
      ClearBuilds(t, s, gos[i].pick);
    } else {
      QuietBuild(ps, gos, i, n - 1, c);
      var menuType := After(ps, gos, i).service.objects[o].menuType;
      if gos[n - 1].thread == c && Holds(t.pc) {
        OwnStepBuilds(t, s, gos[n - 1].pick, menuType);
      } else if gos[n - 1].thread == c {
        DoneStays(t, s, gos[n - 1].pick, menuType);
      } else {
        OtherKeepsBuild(s, Ops(ps, gos)[n - 1], o);
        SameBuild(t, s.objects[o], After(ps, gos, n).service.objects[o], menuType);
      }
    }
  }

  lemma ServiceStep(ps: seq<Press>, gos: seq<Go>, n: nat)
    requires 0 < n <= |gos|
    ensures After(ps, gos, n).service == Serve(After(ps, gos, n - 1).service, Ops(ps, gos)[n - 1])
  {
    hide Serve, OpOf;
  }

  lemma DoneStays(t: Thread, s: Service, pick: string, menuType: string)
    requires ThreadOk(t, s) && !Holds(t.pc) && t.ptr < |s.objects| && Builds(t, s.objects[t.ptr], menuType)
    ensures Next(t, s, pick) == t && Serve(s, NextOp(t, s, pick)) == s
  {
  }

  lemma SameBuild(t: Thread, x: Session, y: Session, menuType: string)
    requires Builds(t, x, menuType) && y.menuType == x.menuType && y.callbacks == x.callbacks
    ensures Builds(t, y, menuType)
  {
  }
}
