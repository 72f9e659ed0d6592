/**
 What calls of one user can do to each other when they overlap: two schedules in which the sequential
 theorems fail. In the first, two presses build their keyboards at the same time and both stay live; in
 the second, a press that was under way when a new menu was started puts the old session back.
 */
module MenuOverlap {
  import opened Prelude
  import opened MenuSession
  import opened SessionAccesses
  import opened MenuRaces
  import opened MenuInTurn

  // ----- Up to the point where a press has moved to its screen -----

  /** Neither the user's session nor any object's callbacks or menu type differ. */
  ghost predicate SameKeys(s: Service, r: Service) {
    && s.current == r.current && |s.objects| == |r.objects|
    && forall o :: 0 <= o < |s.objects| ==>
         r.objects[o].callbacks == s.objects[o].callbacks && r.objects[o].menuType == s.objects[o].menuType
  }

  predicate Early(t: Thread) {
    && t.press.Callback? && t.press.key != BACK
    && (t.pc.Begin? || t.pc.Marking? || t.pc.Looking? || t.pc.Checking? || t.pc.Filing? || t.pc.Pushing? || t.pc.Moving?)
  }

  lemma EarlyKeeps(t: Thread, s: Service, pick: string)
    requires Alone(t, s) && Early(t)
    ensures SameKeys(s, Serve(s, NextOp(t, s, pick)))
    ensures var u := Next(t, s, pick); Early(u) || u.pc.Moved? || (u.pc.Done? && u.pc.reply != Shown)
  {
    hide Outcome, ParamsOf, FromElsewhere, Rebuilds, Fits;
  }

  lemma SameKeysThrough(s: Service, r: Service, q: Service)
    requires SameKeys(s, r) && SameKeys(r, q)
    ensures SameKeys(s, q)
  {
  }

  lemma FateOfDone(t: Thread, s: Service)
    requires t.pc.Done?
    ensures Fate(t, s).1 == t.pc.reply
  {
  }

  /** A press that would be shown gets as far as its screen, with nothing cleared and nothing stored. */
  lemma {:induction false} ReachMoved(st: State, c: nat) returns (gos: seq<Go>)
    requires StateOk(st) && c < |st.threads| && Alone(st.threads[c], st.service)
    requires (Early(st.threads[c]) || st.threads[c].pc.Moved?) && Fate(st.threads[c], st.service).1 == Shown
    ensures AllOf(gos, c)
    ensures var r := Exec(st, gos, |gos|);
            && StateOk(r) && |r.threads| == |st.threads| && Alone(r.threads[c], r.service) && r.threads[c].pc.Moved?
            && r.threads[c].press == st.threads[c].press && SameKeys(st.service, r.service)
            && forall b :: 0 <= b < |st.threads| && b != c ==> r.threads[b] == st.threads[b]
    decreases Rank(st.threads[c], st.service)
  {
    hide Alone, StateOk, Next, NextOp, Serve, Rank, Fate, Early, SameKeys;
    var t := st.threads[c];
    if t.pc.Moved? {
      gos := [];
      SameAsItself(st.service);
    } else {
      var pick := PickFor(t);
      var go := Go(c, pick);
      AdvanceKeeps(st, go);
      FateKept(t, st.service, pick);
      EarlyIsNotDone(t);
      EarlyKeeps(t, st.service, pick);
      RankFalls(t, st.service, pick);
      var next := Advance(st, go);
      if next.threads[c].pc.Done? { FateOfDone(next.threads[c], next.service); }
      var rest := ReachMoved(next, c);
      gos := [go] + rest;
      ExecCons(st, go, rest, |rest|);
      SameKeysThrough(st.service, next.service, Exec(next, rest, |rest|).service);
    }
  }

  lemma EarlyIsNotDone(t: Thread)
    requires Early(t)
    ensures !t.pc.Done?
  {
  }

  lemma SameAsItself(s: Service)
    ensures SameKeys(s, s)
  {
  }

  /** A press on a stored button of this menu is shown, if the screen is known and nothing foreign fails. */
  lemma GoodPress(x: Session, b: Button, p: Press)
    requires p.Callback? && p.key != BACK && p.key in x.callbacks && x.callbacks[p.key] == ParamsOf(x.menuType, b)
    requires b.params == [] && b.target in p.known && p.enterOk && p.messageId > 0
    requires p.display.dataOk && p.display.renderOk && p.display.keyboardOk && p.display.editOk
    ensures Pressed(Some(x), p).1 == Shown
  {
    hide ParamsOf, Stored;
    ParamsComplete(x.menuType, b);
    assert forall i, name :: !LastPair(b.params, i, name);
  }

  lemma Together(st: State, a: seq<Go>, b: seq<Go>)
    ensures Exec(st, a + b, |a + b|) == Exec(Exec(st, a, |a|), b, |b|)
  {
    hide Advance;
    ExecFrom(st, a + b, |a|, |a + b|);
    ExecPrefix(st, a, b, |a|);
    assert (a + b)[|a|..|a + b|] == b;
  }

  // ----- Two builds at once -----

  function Show(key: string): Display { Display(true, true, true, [Button("x", [], key)], true, true, true, 1) }

  predicate Stands(st: State, c: nat, o: nat, pc: Pc) {
    c < |st.threads| && st.threads[c].pc == pc && st.threads[c].ptr == o && o < |st.service.objects|
  }

  lemma SaveTurn(st: State, c: nat, o: nat)
    requires Stands(st, c, o, Moved) && st.service.current == Some(o) && Rebuilds(DisplayOf(st.threads[c].press))
    ensures var r := Advance(st, Go(c, ""));
            r == State(st.service, st.threads[c := st.threads[c].(pc := Clearing)])
  {
  }

  lemma ClearTurn(st: State, c: nat, o: nat)
    requires Stands(st, c, o, Clearing) && DisplayOf(st.threads[c].press).hasKeyboard
    ensures var r := Advance(st, Go(c, ""));
            && r.threads == st.threads[c := st.threads[c].(pc := Drawing(0))]
            && r.service == st.service.(objects := st.service.objects[o := st.service.objects[o].(callbacks := map[])])
  {
  }

  lemma DrawTurns(st: State, c: nat, o: nat, key: string)
    requires Stands(st, c, o, Drawing(0)) && DisplayOf(st.threads[c].press) == Show(key)
    ensures var r := Advance(Advance(st, Go(c, "")), Go(c, ""));
            && r.threads == st.threads[c := st.threads[c].(pc := Drawing(1))]
            && r.service.current == st.service.current && |r.service.objects| == |st.service.objects|
            && r.service.objects[o].callbacks.Keys == st.service.objects[o].callbacks.Keys + {key}
  {
    hide ParamsOf;
  }

  lemma TwoTurns(st: State, g: Go, h: Go)
    ensures Exec(st, [g, h], 2) == Advance(Advance(st, g), h)
  {
    hide Advance;
    assert Exec(st, [g, h], 1) == Advance(Exec(st, [g, h], 0), g);
  }

  /** Both calls hold object o, which is the user's session, and stand at the same place. */
  ghost predicate Both(st: State, a: nat, b: nat, o: nat, pc: Pc, k: string, l: string) {
    && a != b && Stands(st, a, o, pc) && Stands(st, b, o, pc) && st.service.current == Some(o)
    && DisplayOf(st.threads[a].press) == Show(k) && DisplayOf(st.threads[b].press) == Show(l)
  }

  lemma BothSave(st: State, a: nat, b: nat, o: nat, k: string, l: string)
    requires Both(st, a, b, o, Moved, k, l)
    ensures var r := Exec(st, [Go(a, ""), Go(b, "")], 2);
            |r.threads| == |st.threads| && Both(r, a, b, o, Clearing, k, l)
  {
    hide Advance, Exec;
    TwoTurns(st, Go(a, ""), Go(b, ""));
    SaveTurn(st, a, o);
    SaveTurn(Advance(st, Go(a, "")), b, o);
  }

  lemma BothClear(st: State, a: nat, b: nat, o: nat, k: string, l: string)
    requires Both(st, a, b, o, Clearing, k, l)
    ensures var r := Exec(st, [Go(a, ""), Go(b, "")], 2);
            && |r.threads| == |st.threads| && Both(r, a, b, o, Drawing(0), k, l)
            && r.service.objects[o].callbacks == map[]
  {
    hide Advance, Exec;
    TwoTurns(st, Go(a, ""), Go(b, ""));
    ClearTurn(st, a, o);
    ClearTurn(Advance(st, Go(a, "")), b, o);
  }

  lemma BothDraw(st: State, a: nat, b: nat, o: nat, k: string, l: string)
    requires Both(st, a, b, o, Drawing(0), k, l) && st.service.objects[o].callbacks == map[]
    ensures var r := Exec(Exec(st, [Go(a, ""), Go(a, "")], 2), [Go(b, ""), Go(b, "")], 2);
            && |r.threads| == |st.threads| && Both(r, a, b, o, Drawing(1), k, l)
            && r.service.objects[o].callbacks.Keys == {k, l}
  {
    hide Advance, Exec;
    TwoTurns(st, Go(a, ""), Go(a, ""));
    DrawTurns(st, a, o, k);
    var m := Exec(st, [Go(a, ""), Go(a, "")], 2);
    TwoTurns(m, Go(b, ""), Go(b, ""));
    DrawTurns(m, b, o, l);
  }

  /** Both clear, then both draw: the keys of both keyboards are live. */
  lemma BothBuild(st: State, a: nat, b: nat, o: nat, k: string, l: string) returns (gos: seq<Go>)
    requires Both(st, a, b, o, Moved, k, l)
    ensures var r := Exec(st, gos, |gos|);
            && |r.threads| == |st.threads| && Both(r, a, b, o, Drawing(1), k, l)
            && r.service.objects[o].callbacks.Keys == {k, l}
  {
    hide Advance, Exec, Both;
    var turns, first, second := [Go(a, ""), Go(b, "")], [Go(a, ""), Go(a, "")], [Go(b, ""), Go(b, "")];
    BothSave(st, a, b, o, k, l);
    var saved := Exec(st, turns, 2);
    BothClear(saved, a, b, o, k, l);
    var cleared := Exec(saved, turns, 2);
    BothDraw(cleared, a, b, o, k, l);
    Together(st, turns, turns);
    Together(st, turns + turns, first);
    Together(st, turns + turns + first, second);
    gos := turns + turns + first + second;
  }

  /** A menu with two buttons to screen "x". */
  const HOME: Display := Display(true, true, true, [Button("x", [], "k1"), Button("x", [], "k2")], true, true, true, 1)

  function Opening(): Press { Start("home", map[], true, HOME) }

  function PressOf(key: string, drawn: string): Press { Callback(1, key, {"x"}, true, Show(drawn)) }

  lemma TwoStored(b: Button, c: Button)
    requires b.key != c.key
    ensures var stored := Stored("", [b, c]);
            && stored.Keys == {b.key, c.key} && stored[b.key] == ParamsOf("", b) && stored[c.key] == ParamsOf("", c)
  {
    hide ParamsOf, Stored;
    NothingStored();
    StoredSnoc("", [], b);
    StoredSnoc("", [b], c);
    assert [] + [b] == [b] && [b] + [c] == [b, c];
  }

  lemma HomeOpened()
    ensures var (session, reply) := Pressed(None, Opening());
            && session.Some? && session.value.menuType == "" && session.value.callbacks.Keys == {"k1", "k2"}
            && session.value.callbacks["k1"] == ParamsOf("", Button("x", [], "k1"))
            && session.value.callbacks["k2"] == ParamsOf("", Button("x", [], "k2"))
  {
    hide ParamsOf, Stored, ShowOn;
    var b1, b2 := Button("x", [], "k1"), Button("x", [], "k2");
    assert b1.key[1] != b2.key[1];
    TwoStored(b1, b2);
    StartBuilds("home", map[], true, HOME);
    ShowBuilds(Session(0, "home", "", map[], map[], []), HOME);
  }

  /** The menu is open on the object of the press at hand, and the presses have not begun. */
  lemma HomeOpens(ps: seq<Press>) returns (gos: seq<Go>)
    requires |ps| == 3 && ps[0] == Opening()
    ensures var st := Exec(Init(ps), gos, |gos|);
            && StateOk(st) && |st.threads| == 3 && st.threads[1] == Thread(ps[1], 0, Begin) && st.threads[2] == Thread(ps[2], 0, Begin)
            && st.service.current.Some? && st.service.current.value < |st.service.objects|
            && User(st.service) == Pressed(None, Opening()).0
  {
    hide Pressed, StateOk, Fate, Alone;
    var st := Init(ps);
    InitOk(ps);
    BeginsAlone(st, 0);
    gos := CallEnds(st, 0);
    FateAlone(st, gos, |gos|, 0);
    CallIsPress(st, gos, 0);
    HomeOpened();
  }

  lemma InitOk(ps: seq<Press>)
    ensures StateOk(Init(ps)) && User(Init(ps).service) == None
  {
  }

  /** A press on a button of the open menu, with all callbacks still in place, moves to its screen. */
  lemma HomePressed(st: State, c: nat, o: nat, key: string, drawn: string) returns (gos: seq<Go>)
    requires StateOk(st) && c < |st.threads| && st.threads[c] == Thread(PressOf(key, drawn), 0, Begin)
    requires st.service.current == Some(o) && o < |st.service.objects| && key in {"k1", "k2"}
    requires st.service.objects[o].menuType == "" && key in st.service.objects[o].callbacks
    requires st.service.objects[o].callbacks[key] == ParamsOf("", Button("x", [], key))
    ensures var r := Exec(st, gos, |gos|);
            && StateOk(r) && |r.threads| == |st.threads| && Stands(r, c, o, Moved) && r.threads[c].press == PressOf(key, drawn)
            && SameKeys(st.service, r.service)
            && forall b :: 0 <= b < |st.threads| && b != c ==> r.threads[b] == st.threads[b]
  {
    hide StateOk, Fate, ParamsOf, Pressed, Outcome, Fits, SameKeys;
    BeginsAlone(st, c);
    assert key[0] == 'k' && BACK[0] == 'b';
    GoodPress(st.service.objects[o], Button("x", [], key), PressOf(key, drawn));
    gos := ReachMoved(st, c);
    MovedOn(st.service, Exec(st, gos, |gos|).threads[c], Exec(st, gos, |gos|).service);
  }

  lemma MovedOn(s: Service, t: Thread, r: Service)
    requires Alone(t, r) && t.pc.Moved? && SameKeys(s, r)
    ensures s.current == Some(t.ptr) && t.ptr < |r.objects|
  {
  }

  /**
   The first failing schedule: two presses on buttons of one keyboard overlap, both clear and then both
   draw. The session then holds the keys of both keyboards, so that it equals neither of them and the older
   one stays live.
   */
  lemma TwoKeyboardsLive() returns (ps: seq<Press>, gos: seq<Go>)
    ensures ps == [Opening(), PressOf("k1", "k3"), PressOf("k2", "k4")]
    ensures var st := After(ps, gos, |gos|);
            && |st.threads| == 3 && st.threads[1].pc == st.threads[2].pc == Drawing(1)
            && st.threads[1].ptr == st.threads[2].ptr && st.service.current == Some(st.threads[1].ptr)
            && st.threads[1].ptr < |st.service.objects|
            && st.service.objects[st.threads[1].ptr].callbacks.Keys == {"k3", "k4"}
  {
    hide Exec, StateOk, ParamsOf, Pressed, Advance;
    ps := [Opening(), PressOf("k1", "k3"), PressOf("k2", "k4")];
    HomeOpened();
    var g0 := HomeOpens(ps);
    var s0 := Exec(Init(ps), g0, |g0|);
    var o := s0.service.current.value;
    var g1 := HomePressed(s0, 1, o, "k1", "k3");
    var s1 := Exec(s0, g1, |g1|);
    var g2 := HomePressed(s1, 2, o, "k2", "k4");
    var s2 := Exec(s1, g2, |g2|);
    var g3 := BothBuild(s2, 1, 2, o, "k3", "k4");
    Together(Init(ps), g0, g1);
    Together(Init(ps), g0 + g1, g2);
    Together(Init(ps), g0 + g1 + g2, g3);
    gos := g0 + g1 + g2 + g3;
  }

  // ----- A replaced session that comes back -----

  /** A call that starts a menu leaves all older objects as they are. */
  ghost predicate LeavesOld(t: Thread, s: Service, count: nat) {
    ThreadOk(t, s) && t.press.Start? && (Holds(t.pc) ==> t.ptr >= count) && |s.objects| >= count
  }

  lemma StartLeavesOld(t: Thread, s: Service, pick: string, count: nat, o: nat)
    requires LeavesOld(t, s, count) && o < count
    ensures var u, r := Next(t, s, pick), Serve(s, NextOp(t, s, pick));
            (Holds(u.pc) ==> u.ptr >= count) && |r.objects| >= count && r.objects[o] == s.objects[o]
  {
    hide ParamsOf, FromElsewhere, Rebuilds, Access, NewSession;
  }

  lemma {:induction false} StartingLeavesOld(st: State, gos: seq<Go>, n: nat, c: nat, o: nat)
    requires n <= |gos| && AllOf(gos, c) && StateOk(st) && c < |st.threads|
    requires st.threads[c].press.Start? && st.threads[c].pc.Begin? && o < |st.service.objects|
    ensures var r := Exec(st, gos, n);
            && StateOk(r) && c < |r.threads| && LeavesOld(r.threads[c], r.service, |st.service.objects|)
            && r.service.objects[o] == st.service.objects[o]
  {
    hide Next, NextOp, Serve, Fits, Advance;
    if n == 0 {
    } else {
      StartingLeavesOld(st, gos, n - 1, c, o);
      var r := Exec(st, gos, n - 1);
      AdvanceKeeps(r, gos[n - 1]);
      StartLeavesOld(r.threads[c], r.service, gos[n - 1].pick, |st.service.objects|, o);
      TurnOf(r, gos[n - 1]);
      NextFits(r.threads[c], r.service, gos[n - 1].pick);
    }
  }

  lemma TurnOf(st: State, go: Go)
    requires go.thread < |st.threads|
    ensures Advance(st, go).threads[go.thread] == Next(st.threads[go.thread], st.service, go.pick)
    ensures OpOf(st, go) == NextOp(st.threads[go.thread], st.service, go.pick)
  {
    hide Next, NextOp, Serve;
  }

  function Reopening(): Press { Start("other", map[], true, Show("k5")) }

  lemma Reopened(session: Option<Session>)
    ensures var (newer, reply) := Pressed(session, Reopening());
            newer.Some? && newer.value.callbacks.Keys == {"k5"}
  {
    hide ParamsOf, Stored, ShowOn;
    NothingStored();
    StoredSnoc("", [], Button("x", [], "k5"));
    assert [] + [Button("x", [], "k5")] == [Button("x", [], "k5")];
    ShowBuilds(Session(0, "other", "", map[], map[], []), Show("k5"));
  }

  /**
   The second failing schedule: while a press is under way a new menu is started and ends. One more access
   of the press, its save, and the user's session is the old one again: its buttons are live, and the
   button of the new menu is not.
   */
  lemma ReplacedSessionReturns() returns (ps: seq<Press>, gos: seq<Go>)
    ensures ps == [Opening(), PressOf("k1", "k3"), Reopening()] && |gos| > 0
    ensures var st := After(ps, gos, |gos| - 1);
            |st.threads| == 3 && st.threads[2].pc.Done? && User(st.service).Some? && User(st.service).value.callbacks.Keys == {"k5"}
    ensures var st := After(ps, gos, |gos|);
            && |st.threads| == 3 && st.threads[2].pc.Done? && st.service.current == Some(st.threads[1].ptr)
            && User(st.service).Some? && User(st.service).value.callbacks.Keys == {"k1", "k2"}
  {
    hide Exec, StateOk, ParamsOf, Pressed, Advance, Fate, Alone;
    ps := [Opening(), PressOf("k1", "k3"), Reopening()];
    HomeOpened();
    var g0 := HomeOpens(ps);
    var s0 := Exec(Init(ps), g0, |g0|);
    var o := s0.service.current.value;
    var g1 := HomePressed(s0, 1, o, "k1", "k3");
    var s1 := Exec(s0, g1, |g1|);
    BeginsAlone(s1, 2);
    var g2 := CallEnds(s1, 2);
    var s2 := Exec(s1, g2, |g2|);
    FateAlone(s1, g2, |g2|, 2);
    CallIsPress(s1, g2, 2);
    Reopened(User(s1.service));
    StartingLeavesOld(s1, g2, |g2|, 2, o);
    var go := Go(1, "");
    SavesBack(s2, 1, o);
    Together(Init(ps), g0, g1);
    Together(Init(ps), g0 + g1, g2);
    Together(Init(ps), g0 + g1 + g2, [go]);
    ExecOne(s2, go);
    gos := g0 + g1 + g2 + [go];
    ExecPrefix(Init(ps), g0 + g1 + g2, [go], |g0 + g1 + g2|);
  }

  lemma SavesBack(st: State, c: nat, o: nat)
    requires Stands(st, c, o, Moved)
    ensures var r := Advance(st, Go(c, ""));
            && r.service == st.service.(current := Some(o)) && |r.threads| == |st.threads| && r.threads[c].ptr == o
            && forall b :: 0 <= b < |st.threads| && b != c ==> r.threads[b] == st.threads[b]
  {
  }

  lemma ExecOne(st: State, go: Go)
    ensures Exec(st, [go], 1) == Advance(st, go)
  {
    hide Advance;
    assert Exec(st, [go], 0) == st;
  }
}
