/**
 Calls of one user that do not overlap: each is one press of the sequential model, so all that holds for
 runs of presses holds for schedules in which every call ends before the next begins.
 */
module MenuInTurn {
  import opened Prelude
  import opened MenuSession
  import opened SessionAccesses
  import opened MenuRaces

  // ----- What a call still does if nobody disturbs it -----

  function SendOn(x: Session, d: Display): (Session, Reply) {
    if x.messageId != 0 then (x, Shown) else if d.sendOk then (x.(messageId := d.sentId), Shown) else (x, ShowFailed)
  }

  function EditOn(x: Session, d: Display): (Session, Reply) {
    SendOn(if x.messageId > 0 && !d.editOk then x.(messageId := 0) else x, d)
  }

  /** The callbacks once the buttons from the i-th on are stored as well. */
  function StoredOnto(callbacks: map<string, Values>, menuType: string, buttons: seq<Button>, i: nat): map<string, Values>
    decreases |buttons| - i
  {
    if i >= |buttons| then callbacks
    else StoredOnto(callbacks[buttons[i].key := ParamsOf(menuType, buttons[i])], menuType, buttons, i + 1)
  }

  function DrawOn(x: Session, d: Display, i: nat): (Session, Reply) {
    var y := x.(callbacks := StoredOnto(x.callbacks, x.menuType, d.buttons, i));
    if d.keyboardOk then EditOn(y, d) else (y, ShowFailed)
  }

  function ReplyOf(shown: (Session, bool)): (Session, Reply) { (shown.0, if shown.1 then Shown else ShowFailed) }

  function EnterOn(x: Session, p: Press): (Session, Reply) {
    if Enters(p) then ReplyOf(ShowOn(x, DisplayOf(p))) else (x, OnEnterFailed)
  }

  function FileOn(x: Session, p: Press, target: string, rest: Values): (Session, Reply) {
    var y := x.(data := Filed(x.data, rest));
    if Enters(p) then ReplyOf(ShowOn(y.(stack := y.stack + [target], screen := target), DisplayOf(p))) else (y, OnEnterFailed)
  }

  function CheckOn(x: Session, p: Press, params: Values): (Session, Reply) {
    if FromElsewhere(x, params) then (x, WrongMenu)
    else if SCREEN !in params then (x, NoTarget)
    else if params[SCREEN] !in KnownTo(p) then (x, UnknownScreen)
    else FileOn(x, p, params[SCREEN], params - {SCREEN})
  }

  function LookOn(x: Session, p: Press): (Session, Reply) {
    if KeyOf(p) == BACK then GoBackOn(x, KnownTo(p), DisplayOf(p))
    else if KeyOf(p) in x.callbacks then CheckOn(x, p, x.callbacks[KeyOf(p)])
    else (x, Expired)
  }

  /** The outcome of a call that holds an object in this state. */
  function Outcome(t: Thread, x: Session): (Session, Reply) {
    var p, d := t.press, DisplayOf(t.press);
    match t.pc
    case Naming => EnterOn(x.(menuType := MenuOf(p), screen := ScreenOf(p)), p)
    case Placing => EnterOn(x.(screen := ScreenOf(p)), p)
    case Placed => EnterOn(x, p)
    case Marking => LookOn(x.(messageId := MessageOf(p)), p)
    case Looking => LookOn(x, p)
    case Checking(params) => CheckOn(x, p, params)
    case Filing(target, rest) => FileOn(x, p, target, rest)
    case Pushing(target) => ReplyOf(ShowOn(x.(stack := x.stack + [target], screen := target), d))
    case Moving(target) => ReplyOf(ShowOn(x.(screen := target), d))
    case Moved => ReplyOf(ShowOn(x, d))
    case Clearing => ReplyOf(ShowOn(x, d))
    case Drawing(i) => DrawOn(x, d, i)
    case Storing(i, _) => DrawOn(x, d, i)
    case Editing => EditOn(x, d)
    case Unmarking => SendOn(x.(messageId := 0), d)
    case Sending => SendOn(x, d)
    case Sent => (x.(messageId := d.sentId), Shown)
    case Finishing => (x, Shown)
    case Done(reply) => (x, reply)
    case _ => (x, NoSession)
  }

  /** The call's object is the user's session, and a menu type that it has read is still the session's. */
  ghost predicate Undisturbed(t: Thread, s: Service) {
    && ThreadOk(t, s) && (Holds(t.pc) || t.pc.Done?) && s.current == Some(t.ptr) && t.ptr < |s.objects|
    && (t.pc.Storing? ==> t.pc.menuType == s.objects[t.ptr].menuType)
    && (t.pc.Clearing? ==> Rebuilds(DisplayOf(t.press)))
  }

  lemma {:induction false} StoredFrom(menuType: string, buttons: seq<Button>, i: nat)
    requires i <= |buttons|
    ensures StoredOnto(Stored(menuType, buttons[..i]), menuType, buttons, i) == Stored(menuType, buttons)
    decreases |buttons| - i
  {
    if i == |buttons| {
      assert buttons[..i] == buttons;
    } else {
      StoredSnoc(menuType, buttons[..i], buttons[i]);
      assert buttons[..i] + [buttons[i]] == buttons[..i + 1];
      StoredFrom(menuType, buttons, i + 1);
    }
  }

  /** Showing, cut at the clear. */
  lemma ShowIsDraw(x: Session, d: Display)
    requires Rebuilds(d)
    ensures var y := x.(callbacks := map[]);
            ReplyOf(ShowOn(x, d)) == if d.hasKeyboard then DrawOn(y, d, 0) else EditOn(y, d)
  {
    hide Stored, StoredOnto;
    NothingStored();
    assert d.buttons[..0] == [];
    StoredFrom(x.menuType, d.buttons, 0);
  }

  lemma ShowNothing(x: Session, d: Display)
    requires !Rebuilds(d)
    ensures ReplyOf(ShowOn(x, d)) == (x, ShowFailed)
  {
  }

  lemma DrawNext(x: Session, d: Display, i: nat)
    ensures i >= |d.buttons| ==> DrawOn(x, d, i) == if d.keyboardOk then EditOn(x, d) else (x, ShowFailed)
    ensures i < |d.buttons| ==>
              DrawOn(x, d, i)
                == DrawOn(x.(callbacks := x.callbacks[d.buttons[i].key := ParamsOf(x.menuType, d.buttons[i])]), d, i + 1)
  {
    hide EditOn, ParamsOf;
  }

  /** The call goes on with its object, towards the same outcome. */
  ghost predicate GoesOn(t: Thread, s: Service, pick: string) {
    var u, r := Next(t, s, pick), Serve(s, NextOp(t, s, pick));
    && u.ptr == t.ptr && t.ptr < |s.objects| && t.ptr < |r.objects| && r.current == Some(t.ptr)
    && (u.pc.Clearing? ==> Rebuilds(DisplayOf(t.press)))
    && (u.pc.Storing? ==> u.pc.menuType == r.objects[t.ptr].menuType)
    && Outcome(u, r.objects[t.ptr]) == Outcome(t, s.objects[t.ptr])
  }

  lemma NamingStep(t: Thread, s: Service, pick: string)
    requires Undisturbed(t, s) && (t.pc.Naming? || t.pc.Placing? || t.pc.Placed?)
    ensures GoesOn(t, s, pick)
  {
    hide ShowOn, Rebuilds, DrawOn, EditOn, SendOn;
    if !Rebuilds(DisplayOf(t.press)) { ShowNothing(s.objects[t.ptr], DisplayOf(t.press)); }
  }

  lemma LookingStep(t: Thread, s: Service, pick: string)
    requires Undisturbed(t, s) && (t.pc.Marking? || t.pc.Looking? || t.pc.Checking?)
    ensures GoesOn(t, s, pick)
  {
    hide ShowOn, Rebuilds, FromElsewhere, DrawOn, EditOn, SendOn, FileOn;
  }

  lemma MovingStep(t: Thread, s: Service, pick: string)
    requires Undisturbed(t, s) && (t.pc.Pushing? || t.pc.Moving? || t.pc.Moved?)
    ensures GoesOn(t, s, pick)
  {
    hide ShowOn, Rebuilds, DrawOn, EditOn, SendOn, Filed;
    if !Rebuilds(DisplayOf(t.press)) { ShowNothing(s.objects[t.ptr], DisplayOf(t.press)); }
  }

  lemma FilingStep(t: Thread, s: Service, pick: string)
    requires Undisturbed(t, s) && t.pc.Filing?
    ensures GoesOn(t, s, pick)
  {
    hide ShowOn, Rebuilds, DrawOn, EditOn, SendOn, Filed;
    var x := s.objects[t.ptr];
    if t.pc.rest.Keys == {} { AllFiled(x.data, t.pc.rest); } else if pick in t.pc.rest { OneFiled(x.data, t.pc.rest, pick); }
  }

  lemma DrawingStep(t: Thread, s: Service, pick: string)
    requires Undisturbed(t, s) && (t.pc.Clearing? || t.pc.Drawing? || t.pc.Storing?)
    ensures GoesOn(t, s, pick)
  {
    hide ShowOn, DrawOn, ParamsOf, EditOn, SendOn;
    var x, d := s.objects[t.ptr], DisplayOf(t.press);
    if t.pc.Clearing? { ShowIsDraw(x, d); } else { DrawNext(x, d, t.pc.next); }
  }

  lemma SendingStep(t: Thread, s: Service, pick: string)
    requires Undisturbed(t, s)
    requires t.pc.Editing? || t.pc.Unmarking? || t.pc.Sending? || t.pc.Sent? || t.pc.Finishing? || t.pc.Done?
    ensures GoesOn(t, s, pick)
  {
  }

  /** No access of an undisturbed call changes what will come of it. */
  lemma OutcomeKept(t: Thread, s: Service, pick: string)
    requires Undisturbed(t, s)
    ensures var u, r := Next(t, s, pick), Serve(s, NextOp(t, s, pick));
            && Undisturbed(u, r) && u.ptr == t.ptr && u.press == t.press
            && Outcome(u, r.objects[t.ptr]) == Outcome(t, s.objects[t.ptr])
  {
    hide Outcome, Next, NextOp, Serve, Fits;
    NextFits(t, s, pick);
    match t.pc
    case Naming => NamingStep(t, s, pick);
    case Placing => NamingStep(t, s, pick);
    case Placed => NamingStep(t, s, pick);
    case Marking => LookingStep(t, s, pick);
    case Looking => LookingStep(t, s, pick);
    case Checking(_) => LookingStep(t, s, pick);
    case Filing(_, _) => FilingStep(t, s, pick);
    case Pushing(_) => MovingStep(t, s, pick);
    case Moving(_) => MovingStep(t, s, pick);
    case Moved => MovingStep(t, s, pick);
    case Clearing => DrawingStep(t, s, pick);
    case Drawing(_) => DrawingStep(t, s, pick);
    case Storing(_, _) => DrawingStep(t, s, pick);
    case _ => SendingStep(t, s, pick);
  }

  // ----- A whole call -----

  /** The user's session as the service holds it. */
  function User(s: Service): Option<Session> {
    if s.current.Some? && s.current.value < |s.objects| then Some(s.objects[s.current.value]) else None
  }

  /** What one press of the sequential model does to the user's session, and its reply. */
  function Pressed(session: Option<Session>, p: Press): (Option<Session>, Reply) {
    var (w, reply) := Act(World(session, [], {}), p);
    (w.session, reply)
  }

  function SomeOf(r: (Session, Reply)): (Option<Session>, Reply) { (Some(r.0), r.1) }

  /** What will come of a call and of the user's session if the call runs undisturbed from here on. */
  function Fate(t: Thread, s: Service): (Option<Session>, Reply) {
    match t.pc
    case Begin => Pressed(User(s), t.press)
    case Replacing => Pressed(None, t.press)
    case Creating => Pressed(None, t.press)
    case Ending => (None, NoSession)
    case Done(reply) => (User(s), reply)
    case _ => SomeOf(Outcome(t, Object(s, t.ptr)))
  }

  ghost predicate Alone(t: Thread, s: Service) {
    && ThreadOk(t, s) && (s.current.Some? ==> s.current.value < |s.objects|)
    && (Holds(t.pc) ==> Undisturbed(t, s))
  }

  lemma HandleIsLook(x: Session, p: Press)
    requires p.Callback?
    ensures HandleOn(x, p.messageId, p.key, p.known, p.enterOk, p.display) == LookOn(x.(messageId := p.messageId), p)
  {
    hide ShowOn, GoBackOn;
  }

  /** The accesses before the call holds an object. */
  lemma FirstStep(t: Thread, s: Service, pick: string)
    requires Alone(t, s) && !Holds(t.pc) && !t.pc.Done?
    ensures var u, r := Next(t, s, pick), Serve(s, NextOp(t, s, pick));
            && (Holds(u.pc) ==> r.current == Some(u.ptr) && u.ptr < |r.objects| && !u.pc.Storing? && !u.pc.Clearing?)
            && Fate(u, r) == Fate(t, s)
  {
    hide ShowOn, HandleOn, LookOn;
    if t.press.Callback? && s.current.Some? { HandleIsLook(s.objects[s.current.value], t.press); }
  }

  lemma FateKept(t: Thread, s: Service, pick: string)
    requires Alone(t, s)
    ensures var u, r := Next(t, s, pick), Serve(s, NextOp(t, s, pick));
            Alone(u, r) && u.press == t.press && Fate(u, r) == Fate(t, s)
  {
    hide Outcome, Next, NextOp, Serve, Fits, Pressed;
    NextFits(t, s, pick);
    NextHolds(t, s, pick);
    if Holds(t.pc) {
      OutcomeKept(t, s, pick);
      DoneOutcome(Next(t, s, pick), Serve(s, NextOp(t, s, pick)));
    } else if t.pc.Done? {
      ReadServes(s);
    } else {
      FirstStep(t, s, pick);
    }
  }

  lemma DoneOutcome(t: Thread, s: Service)
    requires Undisturbed(t, s)
    ensures Fate(t, s) == SomeOf(Outcome(t, s.objects[t.ptr]))
  {
    hide LookOn, FileOn, CheckOn, EnterOn, DrawOn, ShowOn;
  }

  predicate AllOf(gos: seq<Go>, c: nat) { forall i :: 0 <= i < |gos| ==> gos[i].thread == c }

  lemma {:induction false} FateAlone(st: State, gos: seq<Go>, n: nat, c: nat)
    requires n <= |gos| && AllOf(gos, c) && StateOk(st) && c < |st.threads| && Alone(st.threads[c], st.service)
    ensures var r := Exec(st, gos, n);
            && StateOk(r) && |r.threads| == |st.threads| && (forall b :: 0 <= b < |st.threads| && b != c ==> r.threads[b] == st.threads[b])
            && Alone(r.threads[c], r.service) && r.threads[c].press == st.threads[c].press
            && Fate(r.threads[c], r.service) == Fate(st.threads[c], st.service)
  {
    hide Fate, Next, NextOp, Serve, Alone, StateOk;
    if n == 0 {
    } else {
      FateAlone(st, gos, n - 1, c);
      var r := Exec(st, gos, n - 1);
      AdvanceKeeps(r, gos[n - 1]);
      FateKept(r.threads[c], r.service, gos[n - 1].pick);
    }
  }

  lemma BeginsAlone(st: State, c: nat)
    requires StateOk(st) && c < |st.threads| && st.threads[c].pc.Begin?
    ensures Alone(st.threads[c], st.service) && Fate(st.threads[c], st.service) == Pressed(User(st.service), st.threads[c].press)
  {
  }

  /** A call that runs from its beginning to its end with no turn of another call in between is one press of the sequential model. */
  lemma CallIsPress(st: State, gos: seq<Go>, c: nat)
    requires AllOf(gos, c) && StateOk(st) && c < |st.threads| && st.threads[c].pc.Begin?
    requires var r := Exec(st, gos, |gos|); c < |r.threads| && r.threads[c].pc.Done?
    ensures var r := Exec(st, gos, |gos|);
            (User(r.service), r.threads[c].pc.reply) == Pressed(User(st.service), st.threads[c].press)
  {
    hide Exec, Pressed, StateOk, User;
    BeginsAlone(st, c);
    FateAlone(st, gos, |gos|, c);
  }

  // ----- Every undisturbed call ends -----

  function Buttons(t: Thread): nat { |DisplayOf(t.press).buttons| }

  function Count(params: Values): nat { |params.Keys| }

  function ParamsFound(t: Thread, x: Session): nat { if KeyOf(t.press) in x.callbacks then Count(x.callbacks[KeyOf(t.press)]) else 0 }

  /** An upper bound on the accesses that the call still makes. */
  function Rank(t: Thread, s: Service): nat {
    var n, x := 2 * Buttons(t), Object(s, t.ptr);
    match t.pc
    case Begin => if t.press.Callback? then 15 + n + (if s.current.Some? then ParamsFound(t, Object(s, s.current.value)) else 0) else 13 + n
    case Replacing => 12 + n
    case Creating => 11 + n
    case Naming => 10 + n
    case Placing => 9 + n
    case Placed => 8 + n
    case Marking => 14 + n + ParamsFound(t, x)
    case Looking => 13 + n + ParamsFound(t, x)
    case Checking(params) => 12 + n + Count(params)
    case Filing(_, rest) => 11 + n + Count(rest)
    case Pushing(_) => 10 + n
    case Moving(_) => 9 + n
    case Moved => 8 + n
    case Clearing => 7 + n
    case Drawing(i) => 6 + MaxInt(n - 2 * i, 0)
    case Storing(i, _) => 5 + MaxInt(n - 2 * i, 0)
    case Editing => 5
    case Unmarking => 4
    case Sending => 3
    case Sent => 2
    case Finishing => 1
    case Ending => 1
    case Done(_) => 0
  }

  lemma FewerKeys(params: Values, name: string)
    ensures Count(params - {name}) <= Count(params)
    ensures name in params ==> Count(params - {name}) < Count(params)
  {
    if name in params { OneFewer(params, name); } else { assert params - {name} == params; }
  }

  lemma RankFallsEarly(t: Thread, s: Service, pick: string)
    requires Alone(t, s) && (t.pc.Begin? || t.pc.Marking? || t.pc.Looking?)
    ensures Rank(Next(t, s, pick), Serve(s, NextOp(t, s, pick))) < Rank(t, s)
  {
    hide Rebuilds, NewSession, Outcome, Count;
  }

  lemma RankFallsDrawing(t: Thread, s: Service, r: Service, pick: string)
    requires Fits(t) && (t.pc.Clearing? || t.pc.Drawing? || t.pc.Storing?)
    ensures Rank(Next(t, s, pick), r) < Rank(t, s)
  {
    hide Object, ParamsFound;
  }

  lemma RankFallsFiling(t: Thread, s: Service, r: Service, pick: string)
    requires Fits(t) && (t.pc.Checking? || t.pc.Filing?)
    requires t.pc.Filing? && t.pc.rest.Keys != {} ==> pick in t.pc.rest
    ensures Rank(Next(t, s, pick), r) < Rank(t, s)
  {
    hide Object, ParamsFound, FromElsewhere, Rebuilds, Count;
    if t.pc.Checking? { FewerKeys(t.pc.params, SCREEN); } else { FewerKeys(t.pc.rest, pick); }
  }

  lemma RankFallsLate(t: Thread, s: Service, r: Service, pick: string)
    requires Fits(t)
    requires t.pc.Replacing? || t.pc.Creating? || t.pc.Naming? || t.pc.Placing? || t.pc.Placed? || t.pc.Pushing? || t.pc.Moving?
             || t.pc.Moved? || t.pc.Editing? || t.pc.Unmarking? || t.pc.Sending? || t.pc.Sent? || t.pc.Finishing? || t.pc.Ending?
    ensures Rank(Next(t, s, pick), r) < Rank(t, s)
  {
    hide Object, ParamsFound, Rebuilds;
  }

  lemma RankFalls(t: Thread, s: Service, pick: string)
    requires Alone(t, s) && !t.pc.Done?
    requires t.pc.Filing? && t.pc.rest.Keys != {} ==> pick in t.pc.rest
    ensures Rank(Next(t, s, pick), Serve(s, NextOp(t, s, pick))) < Rank(t, s)
  {
    hide Rank, Next, NextOp, Serve, Fits, Undisturbed;
    if t.pc.Begin? || t.pc.Marking? || t.pc.Looking? {
      RankFallsEarly(t, s, pick);
    } else if t.pc.Clearing? || t.pc.Drawing? || t.pc.Storing? {
      RankFallsDrawing(t, s, Serve(s, NextOp(t, s, pick)), pick);
    } else if t.pc.Checking? || t.pc.Filing? {
      RankFallsFiling(t, s, Serve(s, NextOp(t, s, pick)), pick);
    } else {
      RankFallsLate(t, s, Serve(s, NextOp(t, s, pick)), pick);
    }
  }

  lemma {:induction false} ExecCons(st: State, go: Go, gos: seq<Go>, n: nat)
    requires n <= |gos|
    ensures Exec(st, [go] + gos, n + 1) == Exec(Advance(st, go), gos, n)
  {
    if n == 0 {
      assert Exec(st, [go] + gos, 0) == st;
    } else {
      ExecCons(st, go, gos, n - 1);
    }
  }

  /** A choice that files one more parameter, if any is left. */
  lemma PickFor(t: Thread) returns (pick: string)
    ensures t.pc.Filing? && t.pc.rest.Keys != {} ==> pick in t.pc.rest
  {
    pick := "";
    if t.pc.Filing? && t.pc.rest.Keys != {} { pick :| pick in t.pc.rest; }
  }

  lemma {:induction false} CallEnds(st: State, c: nat) returns (gos: seq<Go>)
    requires StateOk(st) && c < |st.threads| && Alone(st.threads[c], st.service)
    ensures AllOf(gos, c)
    ensures var r := Exec(st, gos, |gos|); c < |r.threads| && r.threads[c].pc.Done?
    decreases Rank(st.threads[c], st.service)
  {
    hide Alone, StateOk, Next, NextOp, Serve, Rank, Fits;
    if st.threads[c].pc.Done? {
      gos := [];
    } else {
      var pick := PickFor(st.threads[c]);
      AdvanceKeeps(st, Go(c, pick));
      FateKept(st.threads[c], st.service, pick);
      RankFalls(st.threads[c], st.service, pick);
      var rest := CallEnds(Advance(st, Go(c, pick)), c);
      gos := [Go(c, pick)] + rest;
      ExecCons(st, Go(c, pick), rest, |rest|);
    }
  }

  // ----- Calls one after another -----

  /** Call k makes the turns from cuts[k] to cuts[k + 1], all of them, and then is done. */
  ghost predicate InTurn(ps: seq<Press>, gos: seq<Go>, cuts: seq<nat>) {
    && |cuts| == |ps| + 1 && cuts[0] == 0
    && (forall k :: 0 <= k <= |ps| ==> cuts[k] <= |gos|)
    && (forall k :: 0 <= k < |ps| ==>
          && cuts[k] <= cuts[k + 1]
          && (forall j :: cuts[k] <= j < cuts[k + 1] ==> gos[j].thread == k)
          && Call(ps, gos, cuts[k + 1], k).pc.Done?)
  }

  lemma {:induction false} StillToBegin(ps: seq<Press>, gos: seq<Go>, n: nat, c: nat)
    requires n <= |gos| && c < |ps| && forall j :: 0 <= j < n ==> gos[j].thread != c
    ensures Call(ps, gos, n, c).pc == Begin
  {
    hide Call, Next, NextOp;
    if n == 0 {
      CallStarts(ps, gos, c);
    } else {
      StillToBegin(ps, gos, n - 1, c);
      CallStep(ps, gos, n, c);
    }
  }

  lemma {:induction false} CutsAscend(ps: seq<Press>, gos: seq<Go>, cuts: seq<nat>, k: nat, j: nat)
    requires InTurn(ps, gos, cuts) && k <= |ps| && j < cuts[k]
    ensures gos[j].thread < k
  {
    if k == 0 {
    } else if j < cuts[k - 1] {
      CutsAscend(ps, gos, cuts, k - 1, j);
    }
  }

  lemma {:induction false} ExecFrom(st: State, gos: seq<Go>, m: nat, n: nat)
    requires m <= n <= |gos|
    ensures Exec(st, gos, n) == Exec(Exec(st, gos, m), gos[m..n], n - m)
    decreases n
  {
    hide Advance;
    if m == n {
    } else {
      ExecFrom(st, gos, m, n - 1);
      ExecPrefix(Exec(st, gos, m), gos[m..n - 1], [gos[n - 1]], n - 1 - m);
      assert gos[m..n] == gos[m..n - 1] + [gos[n - 1]];
    }
  }

  lemma {:induction false} ExecPrefix(st: State, gos: seq<Go>, more: seq<Go>, n: nat)
    requires n <= |gos|
    ensures Exec(st, gos + more, n) == Exec(st, gos, n)
  {
    hide Advance;
    if n == 0 {
    } else {
      ExecPrefix(st, gos, more, n - 1);
    }
  }

  /** The session and the reply of a press do not depend on what else the sequential model remembers. */
  lemma PressedIsAct(w: World, p: Press)
    ensures Pressed(w.session, p) == (Act(w, p).0.session, Act(w, p).1)
  {
    hide HandleOn, StartOn, Reaches;
  }

  lemma SliceOfCall(gos: seq<Go>, m: nat, n: nat, c: nat)
    requires m <= n <= |gos| && forall j :: m <= j < n ==> gos[j].thread == c
    ensures AllOf(gos[m..n], c)
  {
  }

  /** One call that makes its turns from m to n, all of them, is one press. */
  lemma CallInTurn(ps: seq<Press>, gos: seq<Go>, m: nat, n: nat, c: nat)
    requires m <= n <= |gos| && c < |ps|
    requires forall j :: 0 <= j < m ==> gos[j].thread != c
    requires forall j :: m <= j < n ==> gos[j].thread == c
    requires Call(ps, gos, n, c).pc.Done?
    ensures (User(After(ps, gos, n).service), Call(ps, gos, n, c).pc.reply) == Pressed(User(After(ps, gos, m).service), ps[c])
  {
    hide Exec, Pressed, StateOk, User;
    StillToBegin(ps, gos, m, c);
    ServiceFollows(ps, gos, m);
    ServiceFollows(ps, gos, n);
    ExecFrom(Init(ps), gos, m, n);
    SliceOfCall(gos, m, n, c);
    CallIsPress(After(ps, gos, m), gos[m..n], c);
  }

  /**
   A schedule in which the calls follow one another is a run of presses: after each call the user's session
   is the run's, and each call gets the run's reply. So every theorem about runs holds for such schedules.
   */
  lemma {:induction false} TurnsAreRun(ps: seq<Press>, gos: seq<Go>, cuts: seq<nat>, k: nat)
    requires InTurn(ps, gos, cuts) && k <= |ps|
    ensures User(After(ps, gos, cuts[k]).service) == Run(ps, k).session
    ensures k > 0 ==> Call(ps, gos, cuts[k], k - 1).pc == Done(Act(Run(ps, k - 1), ps[k - 1]).1)
  {
    hide Exec, After, Call, User, Pressed, Act, StateOk;
    if k == 0 {
      NobodyYet(ps, gos);
    } else {
      TurnsAreRun(ps, gos, cuts, k - 1);
      forall j | 0 <= j < cuts[k - 1] ensures gos[j].thread != k - 1 { CutsAscend(ps, gos, cuts, k - 1, j); }
      CallInTurn(ps, gos, cuts[k - 1], cuts[k], k - 1);
      PressedIsAct(Run(ps, k - 1), ps[k - 1]);
    }
  }

  lemma NobodyYet(ps: seq<Press>, gos: seq<Go>)
    ensures User(After(ps, gos, 0).service) == None
  {
  }
}
