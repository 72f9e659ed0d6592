/**
 Menu sessions of pkg/telegram: the in-memory session (session_memory.go) and the navigator
 that drives it (menu_navigator.go). Screens are foreign code: what their data, template,
 keyboard and OnEnter callbacks do, and whether the bot delivers, are inputs.
 */
module MenuSession {
  import opened Prelude

  type Values = map<string, string>

  /** The fields of a session that navigation reads or writes. */
  datatype Session = Session(
    messageId: int, screen: string, menuType: string, data: Values, callbacks: map<string, Values>, stack: seq<string>)

  const SCREEN := "screen"
  const MENU_TYPE := "_menu_type"
  const BACK := "back"

  /** One call of MakeCallback by a keyboard builder, with the random key that it drew. */
  datatype Button = Button(target: string, params: seq<string>, key: string)

  /** What happens while a screen is shown; a keyboard that fails has made its buttons first. */
  datatype Display = Display(
    dataOk: bool, renderOk: bool, hasKeyboard: bool, buttons: seq<Button>, keyboardOk: bool, editOk: bool, sendOk: bool, sentId: int)

  datatype Reply =
    | Shown | NoSession | Expired | WrongMenu | NoTarget | UnknownScreen | OnEnterFailed | StackEmpty | ShowFailed

  // ----- Callback parameters -----

  /** The first n name-value pairs written over the base, later pairs winning. */
  function Overlay(base: Values, params: seq<string>, n: nat): Values
    requires 2 * n <= |params|
  {
    if n == 0 then base else Overlay(base, params, n - 1)[params[2 * n - 2] := params[2 * n - 1]]
  }

  /** What MakeCallback stores for a button; an odd last parameter is ignored. */
  function ParamsOf(menuType: string, b: Button): Values {
    Overlay(map[SCREEN := b.target, MENU_TYPE := menuType], b.params, |b.params| / 2)
  }

  /** Position i starts the last name-value pair of this name. */
  ghost predicate LastPair(params: seq<string>, i: int, name: string) {
    && 0 <= i < |params| - 1 && i % 2 == 0 && params[i] == name
    && forall j :: i < j < |params| - 1 && j % 2 == 0 ==> params[j] != name
  }

  /** Are these the values of a button's parameters over a base: all of both, and the last pair of a name deciding? */
  ghost predicate Overlays(base: Values, params: seq<string>, r: Values) {
    && (forall name :: name in r <==> name in base || exists i :: LastPair(params, i, name))
    && (forall name, i :: LastPair(params, i, name) && name in r ==> r[name] == params[i + 1])
    && (forall name :: name in base && name in r && (forall i :: !LastPair(params, i, name)) ==> r[name] == base[name])
  }

  lemma LastPairSnoc(params: seq<string>, key: string, value: string, i: int, name: string)
    requires |params| % 2 == 0
    ensures LastPair(params + [key, value], i, name) <==>
              if i == |params| then name == key else LastPair(params, i, name) && name != key
  {
    var more := params + [key, value];
    assert forall j :: 0 <= j < |params| ==> more[j] == params[j];
    assert more[|params|] == key;
  }

  lemma {:induction false} OverlayExact(base: Values, params: seq<string>, n: nat)
    requires 2 * n <= |params|
    ensures Overlays(base, params[..2 * n], Overlay(base, params, n))
  {
    hide LastPair;
    if n == 0 {
      NoPairs();
    } else {
      OverlayExact(base, params, n - 1);
      var before, key, value := params[..2 * (n - 1)], params[2 * n - 2], params[2 * n - 1];
      assert params[..2 * n] == before + [key, value];
      OverlaysSnoc(base, before, Overlay(base, params, n - 1), key, value);
    }
  }

  lemma NoPairs()
    ensures forall i, name :: !LastPair([], i, name)
  {
  }

  lemma OverlaysSnoc(base: Values, params: seq<string>, r: Values, key: string, value: string)
    requires |params| % 2 == 0 && Overlays(base, params, r)
    ensures Overlays(base, params + [key, value], r[key := value])
  {
    hide LastPair;
    var more, t := params + [key, value], r[key := value];
    forall i, name ensures LastPair(more, i, name) <==> if i == |params| then name == key else LastPair(params, i, name) && name != key {
      LastPairSnoc(params, key, value, i, name);
    }
    assert LastPair(more, |params|, key);
    forall i, name | LastPair(params, i, name) && name != key ensures 0 <= i < |params| - 1 { PairInside(params, i, name); }
  }

  lemma PairInside(params: seq<string>, i: int, name: string)
    requires LastPair(params, i, name)
    ensures 0 <= i < |params| - 1
  {
  }

  /** A trailing name without a value makes no pair. */
  lemma OddIgnored(base: Values, params: seq<string>, r: Values)
    requires Overlays(base, params[..2 * (|params| / 2)], r)
    ensures Overlays(base, params, r)
  {
    var even := params[..2 * (|params| / 2)];
    assert forall j :: 0 <= j < |even| ==> even[j] == params[j];
    forall i, name ensures LastPair(even, i, name) <==> LastPair(params, i, name) {
    }
    hide LastPair;
    forall i, name | LastPair(params, i, name) ensures 0 <= i < |even| - 1 { PairInside(even, i, name); }
  }

  /**
   What a button's callback holds: the screen, the menu type and every parameter that the button passes, with
   the value of its last pair; a parameter named like the screen or the menu type replaces it.
   */
  lemma ParamsComplete(menuType: string, b: Button)
    ensures Overlays(map["screen" := b.target, "_menu_type" := menuType], b.params, ParamsOf(menuType, b))
    ensures "screen" in ParamsOf(menuType, b) && "_menu_type" in ParamsOf(menuType, b)
  {
    hide Overlay, LastPair;
    var base := map[SCREEN := b.target, MENU_TYPE := menuType];
    ScreenIsNoMenu();
    OverlayExact(base, b.params, |b.params| / 2);
    OddIgnored(base, b.params, ParamsOf(menuType, b));
  }

  lemma ScreenIsNoMenu()
    ensures SCREEN != MENU_TYPE
  {
    assert SCREEN[0] != MENU_TYPE[0];
  }

  // ----- The navigator on values -----

  /** The callbacks made by a keyboard, in a store that was just cleared. */
  function Stored(menuType: string, buttons: seq<Button>): map<string, Values> {
    if buttons == [] then map[]
    else
      var b := buttons[|buttons| - 1];
      Stored(menuType, buttons[..|buttons| - 1])[b.key := ParamsOf(menuType, b)]
  }

  function Built(d: Display): seq<Button> { if d.hasKeyboard then d.buttons else [] }

  /** Does this display get as far as clearing the old callbacks? */
  predicate Rebuilds(d: Display) { d.dataOk && d.renderOk }

  function ShowOn(s: Session, d: Display): (Session, bool) {
    if !Rebuilds(d) then (s, false)
    else
      var t := s.(callbacks := Stored(s.menuType, Built(d)));
      if d.hasKeyboard && !d.keyboardOk then (t, false)
      else
        var u := if s.messageId > 0 && !d.editOk then t.(messageId := 0) else t;
        if u.messageId != 0 then (u, true)
        else if d.sendOk then (u.(messageId := d.sentId), true) else (u, false)
  }

  function GoBackOn(s: Session, known: set<string>, d: Display): (Session, Reply) {
    if s.stack == [] then (s, StackEmpty)
    else
      var top, t := s.stack[|s.stack| - 1], s.(stack := s.stack[..|s.stack| - 1]);
      if top !in known then (t, UnknownScreen)
      else
        var (u, ok) := ShowOn(t.(screen := top), d);
        (u, if ok then Shown else ShowFailed)
  }

  /** The parameters that are saved in the session: all but the screen. */
  function Saved(data: Values, params: Values): Values { data + (params - {SCREEN}) }

  function HandleOn(s: Session, messageId: int, key: string, known: set<string>, enterOk: bool, d: Display): (Session, Reply) {
    var t := s.(messageId := messageId);
    if key == BACK then GoBackOn(t, known, d)
    else if key !in s.callbacks then (t, Expired)
    else
      var params := s.callbacks[key];
      if MENU_TYPE in params && params[MENU_TYPE] != "" && params[MENU_TYPE] != s.menuType then (t, WrongMenu)
      else if SCREEN !in params then (t, NoTarget)
      else if params[SCREEN] !in known then (t, UnknownScreen)
      else
        var u := t.(data := Saved(t.data, params));
        if !enterOk then (u, OnEnterFailed)
        else
          var (v, ok) := ShowOn(u.(stack := u.stack + [params[SCREEN]], screen := params[SCREEN]), d);
          (v, if ok then Shown else ShowFailed)
  }

  function StartOn(screen: string, initial: Values, enterOk: bool, d: Display): (Session, Reply) {
    var s := Session(0, screen, if MENU_TYPE in initial then initial[MENU_TYPE] else "", initial, map[], []);
    if !enterOk then (s, OnEnterFailed)
    else
      var (t, ok) := ShowOn(s, d);
      (t, if ok then Shown else ShowFailed)
  }

  // ----- The accessors of a session -----

  /** Each of these runs under the session's own lock. */
  datatype Accessor =
    | SetMessage(id: int) | SetScreen(screen: string) | SetMenu(menuType: string) | SetDatum(name: string, value: string)
    | Push(target: string) | Pop | Clear | Store(key: string, params: Values)

  function Access(s: Session, a: Accessor): Session {
    match a
    case SetMessage(id) => s.(messageId := id)
    case SetScreen(screen) => s.(screen := screen)
    case SetMenu(menuType) => s.(menuType := menuType)
    case SetDatum(name, value) => s.(data := s.data[name := value])
    case Push(target) => s.(stack := s.stack + [target])
    case Pop => if s.stack == [] then s else s.(stack := s.stack[..|s.stack| - 1])
    case Clear => s.(callbacks := map[])
    case Store(key, params) => s.(callbacks := s.callbacks[key := params])
  }

  function NewSession(screen: string, initial: Values): Session { Session(0, screen, "", initial, map[], []) }

  // ----- The objects -----

  class InMemorySession {
    var messageId: int
    var currentScreen: string
    var menuType: string
    var data: Values
    var callbackData: map<string, Values>
    var navigationStack: seq<string>

    function View(): Session
      reads this
    {
      Session(messageId, currentScreen, menuType, data, callbackData, navigationStack)
    }

    constructor (initialScreen: string, initialData: Values)
      ensures View() == NewSession(initialScreen, initialData)
    {
      messageId, currentScreen, menuType, data, callbackData, navigationStack := 0, initialScreen, "", initialData, map[], [];
    }

    method SetMessageID(id: int)
      modifies this`messageId
      ensures View() == Access(old(View()), SetMessage(id))
    {
      messageId := id;
    }

    method SetCurrentScreen(id: string)
      modifies this`currentScreen
      ensures View() == Access(old(View()), SetScreen(id))
    {
      currentScreen := id;
    }

    method SetMenuType(name: string)
      modifies this`menuType
      ensures View() == Access(old(View()), SetMenu(name))
    {
      menuType := name;
    }

    method SetData(name: string, value: string)
      modifies this`data
      ensures View() == Access(old(View()), SetDatum(name, value))
    {
      data := data[name := value];
    }

    method PushScreen(id: string)
      modifies this`navigationStack
      ensures View() == Access(old(View()), Push(id))
    {
      navigationStack := navigationStack + [id];
    }

    method PopScreen() returns (top: Option<string>)
      modifies this`navigationStack
      ensures View() == Access(old(View()), Pop)
      ensures old(navigationStack) == [] ==> top == None
      ensures old(navigationStack) != [] ==> top.Some? && old(navigationStack) == navigationStack + [top.value]
    {
      if |navigationStack| == 0 { return None; }
      var lastIndex := |navigationStack| - 1;
      top := Some(navigationStack[lastIndex]);
      navigationStack := navigationStack[..lastIndex];
    }

    method SetCallbackData(key: string, params: Values)
      modifies this`callbackData
      ensures View() == Access(old(View()), Store(key, params))
    {
      callbackData := callbackData[key := params];
    }

    method ClearCallbackData()
      modifies this`callbackData
      ensures View() == Access(old(View()), Clear)
    {
      callbackData := map[];
    }

    /** MakeCallback of the navigator, storing into this session. */
    method MakeCallback(b: Button)
      modifies this`callbackData
      ensures View() == Access(old(View()), Store(b.key, ParamsOf(menuType, b)))
      ensures callbackData.Keys == old(callbackData).Keys + {b.key}
      ensures Overlays(map["screen" := b.target, "_menu_type" := menuType], b.params, callbackData[b.key])
      ensures forall key :: key in old(callbackData) && key != b.key ==> callbackData[key] == old(callbackData)[key]
    {
      hide Overlays, LastPair;
      ParamsComplete(menuType, b);
      var params: Values := map[SCREEN := b.target, MENU_TYPE := menuType];
      var i := 0;
      while i + 1 < |b.params|
        invariant i % 2 == 0 && i <= |b.params|
        invariant params == Overlay(map[SCREEN := b.target, MENU_TYPE := menuType], b.params, i / 2)
      {
        params := params[b.params[i] := b.params[i + 1]];
        i := i + 2;
      }
      SetCallbackData(b.key, params);
    }
  }

  /** The data once the rest of the parameters is filed as well. */
  function Filed(data: Values, rest: Values): Values { data + rest }

  lemma FiledMeans(data: Values, rest: Values)
    ensures Filed(data, rest) == data + rest
  {
  }

  lemma OneFiled(data: Values, rest: Values, name: string)
    requires name in rest
    ensures Filed(data[name := rest[name]], rest - {name}) == Filed(data, rest)
  {
    var once, whole := data[name := rest[name]] + (rest - {name}), data + rest;
    assert once.Keys == whole.Keys;
    forall other | other in whole ensures once[other] == whole[other] {
    }
  }

  lemma OneFewer(rest: Values, name: string)
    requires name in rest
    ensures |(rest - {name}).Keys| < |rest.Keys|
  {
    assert (rest - {name}).Keys == rest.Keys - {name};
  }

  lemma AllFiled(data: Values, rest: Values)
    requires rest.Keys == {}
    ensures Filed(data, rest) == data
  {
    assert rest == map[];
  }

  /** The sessions of all users; every method runs under the service's own lock. */
  class InMemorySessionService {
    var sessions: map<int, InMemorySession>

    constructor ()
      ensures sessions == map[]
    {
      sessions := map[];
    }

    method CreateSession(user: int, screen: string, initial: Values) returns (session: InMemorySession)
      modifies this
      ensures fresh(session) && session.View() == NewSession(screen, initial)
      ensures sessions == old(sessions)[user := session]
    {
      session := new InMemorySession(screen, initial);
      sessions := sessions[user := session];
    }

    method GetSession(user: int) returns (session: InMemorySession?)
      ensures if user in sessions then session == sessions[user] else session == null
    {
      session := if user in sessions then sessions[user] else null;
    }

    /** Whatever the user's session was, it is this one now. */
    method SaveSession(user: int, session: InMemorySession)
      modifies this
      ensures sessions == old(sessions)[user := session]
    {
      sessions := sessions[user := session];
    }

    method DeleteSession(user: int)
      modifies this
      ensures sessions == old(sessions) - {user}
    {
      sessions := sessions - {user};
    }
  }

  /** The navigator as it works while no other call of the same user is under way. */
  class MenuNavigator {
    const service: InMemorySessionService

    constructor ()
      ensures fresh(service) && service.sessions == map[]
    {
      service := new InMemorySessionService();
    }

    static method ShowScreen(session: InMemorySession, d: Display) returns (ok: bool)
      modifies session
      ensures (session.View(), ok) == ShowOn(old(session.View()), d)
    {
      if !d.dataOk { return false; }
      if !d.renderOk { return false; }
      session.ClearCallbackData();
      if d.hasKeyboard {
        for i := 0 to |d.buttons|
          invariant session.View() == old(session.View()).(callbacks := Stored(session.menuType, d.buttons[..i]))
        {
          assert d.buttons[..i + 1][..i] == d.buttons[..i];
          session.MakeCallback(d.buttons[i]);
        }
        assert d.buttons[..|d.buttons|] == d.buttons;
        if !d.keyboardOk { return false; }
      }
      if session.messageId > 0 && !d.editOk { session.SetMessageID(0); }
      if session.messageId == 0 {
        if !d.sendOk { return false; }
        session.SetMessageID(d.sentId);
      }
      ok := true;
    }

    static method GoBack(session: InMemorySession, known: set<string>, d: Display) returns (r: Reply)
      modifies session
      ensures (session.View(), r) == GoBackOn(old(session.View()), known, d)
    {
      hide ShowOn;
      var top := session.PopScreen();
      if top.None? { return StackEmpty; }
      if top.value !in known { return UnknownScreen; }
      session.SetCurrentScreen(top.value);
      var ok := ShowScreen(session, d);
      r := if ok then Shown else ShowFailed;
    }

    /** Store the parameters in the session's data, one after another in any order. */
    static method FileParams(session: InMemorySession, params: Values)
      modifies session
      ensures session.View() == old(session.View()).(data := old(session.data) + params)
    {
      hide Filed;
      var rest := params;
      ghost var before := session.View();
      while rest.Keys != {}
        invariant session.View() == before.(data := session.data)
        invariant Filed(session.data, rest) == Filed(before.data, params)
        decreases |rest.Keys|
      {
        var name :| name in rest.Keys;
        OneFiled(session.data, rest, name);
        OneFewer(rest, name);
        session.SetData(name, rest[name]);
        rest := rest - {name};
      }
      AllFiled(session.data, rest);
      FiledMeans(before.data, params);
    }

    /** HandleCallback once the session is found. */
    static method HandleFor(session: InMemorySession, messageId: int, key: string, known: set<string>, enterOk: bool, d: Display) returns (r: Reply)
      modifies session
      ensures (session.View(), r) == HandleOn(old(session.View()), messageId, key, known, enterOk, d)
    {
      hide ShowOn, GoBackOn;
      session.SetMessageID(messageId);
      if key == BACK {
        r := GoBack(session, known, d);
        return;
      }
      if key !in session.callbackData { return Expired; }
      var stored := session.callbackData[key];
      if MENU_TYPE in stored && stored[MENU_TYPE] != "" && stored[MENU_TYPE] != session.menuType { return WrongMenu; }
      if SCREEN !in stored { return NoTarget; }
      var target := stored[SCREEN];
      if target !in known { return UnknownScreen; }
      FileParams(session, stored - {SCREEN});
      if !enterOk { return OnEnterFailed; }
      session.PushScreen(target);
      session.SetCurrentScreen(target);
      var ok := ShowScreen(session, d);
      r := if ok then Shown else ShowFailed;
    }

    method HandleCallback(user: int, messageId: int, key: string, known: set<string>, enterOk: bool, d: Display) returns (r: Reply)
      modifies service, if user in service.sessions then {service.sessions[user]} else {}
      ensures service.sessions == old(service.sessions)
      ensures user !in service.sessions ==> r == NoSession
      ensures user in service.sessions ==>
                (service.sessions[user].View(), r) == HandleOn(old(service.sessions[user].View()), messageId, key, known, enterOk, d)
    {
      hide HandleOn;
      var session := service.GetSession(user);
      if session == null { return NoSession; }
      r := HandleFor(session, messageId, key, known, enterOk, d);
      // The source saves at several points, always this session; these replies come before the first of them.
      if r !in {StackEmpty, Expired, WrongMenu, NoTarget, UnknownScreen} { service.SaveSession(user, session); }
    }

    /** Whatever session the user had is dropped. */
    method StartMenu(user: int, screen: string, initial: Values, enterOk: bool, d: Display) returns (r: Reply)
      modifies service
      ensures user in service.sessions && fresh(service.sessions[user])
      ensures service.sessions == old(service.sessions)[user := service.sessions[user]]
      ensures (service.sessions[user].View(), r) == StartOn(screen, initial, enterOk, d)
    {
      hide ShowOn;
      var existing := service.GetSession(user);
      if existing != null { service.DeleteSession(user); }
      var session := service.CreateSession(user, screen, initial);
      assert service.sessions == old(service.sessions)[user := session];
      session.SetMenuType(if MENU_TYPE in initial then initial[MENU_TYPE] else "");
      session.SetCurrentScreen(screen);
      service.SaveSession(user, session);
      assert service.sessions == old(service.sessions)[user := session];
      if !enterOk { return OnEnterFailed; }
      var ok := ShowScreen(session, d);
      r := if ok then Shown else ShowFailed;
    }
  }

  // ----- Whole runs of one user -----

  datatype Press =
    | Start(screen: string, initial: Values, enterOk: bool, display: Display)
    | Callback(messageId: int, key: string, known: set<string>, enterOk: bool, display: Display)
    | End

  /**
   `latest` is the most recent keyboard build of the current session, whether or not it failed
   later; `used` are all keys ever drawn.
   */
  datatype World = World(session: Option<Session>, latest: seq<Button>, used: set<string>)

  function KeysOf(buttons: seq<Button>): (ks: set<string>) { set b | b in buttons :: b.key }

  /** Does this press reach a keyboard build? */
  predicate Reaches(w: World, p: Press) {
    match p
    case Start(_, _, enterOk, d) => enterOk && Rebuilds(d)
    case Callback(m, key, known, enterOk, d) =>
      w.session.Some? && Rebuilds(d) && HandleOn(w.session.value, m, key, known, enterOk, d).1 in {Shown, ShowFailed}
    case End => false
  }

  function Act(w: World, p: Press): (World, Reply) {
    var (session, reply) :=
      match p
      case Start(screen, initial, enterOk, d) =>
        var (s, r) := StartOn(screen, initial, enterOk, d);
        (Some(s), r)
      case Callback(m, key, known, enterOk, d) =>
        if w.session.None? then (None, NoSession)
        else
          var (s, r) := HandleOn(w.session.value, m, key, known, enterOk, d);
          (Some(s), r)
      case End => (None, NoSession);
    var latest :=
      if Reaches(w, p) then Built(p.display)
      else if p.Callback? then w.latest
      else [];
    (World(session, latest, w.used + if Reaches(w, p) then KeysOf(Built(p.display)) else {}), reply)
  }

  /** The keys that this press draws are new, and none is the word "back". */
  ghost predicate FreshKeys(w: World, p: Press) {
    Reaches(w, p) ==> KeysOf(Built(p.display)) !! w.used && BACK !in KeysOf(Built(p.display))
  }

  function Run(ps: seq<Press>, n: nat): World
    requires n <= |ps|
  {
    if n == 0 then World(None, [], {}) else Act(Run(ps, n - 1), ps[n - 1]).0
  }

  ghost predicate FreshRun(ps: seq<Press>) {
    forall i :: 0 <= i < |ps| ==> FreshKeys(Run(ps, i), ps[i])
  }

  ghost predicate Inv(w: World) {
    && KeysOf(w.latest) <= w.used
    && (w.session.Some? ==> w.session.value.callbacks == Stored(w.session.value.menuType, w.latest))
    && (w.session.None? ==> w.latest == [])
  }

  /** Showing rebuilds the stored callbacks or leaves them alone, and never touches the menu type. */
  lemma ShowBuilds(s: Session, d: Display)
    ensures var t := ShowOn(s, d).0;
            && t.menuType == s.menuType
            && t.callbacks == if Rebuilds(d) then Stored(s.menuType, Built(d)) else s.callbacks
  {
    hide Stored, Built;
  }

  lemma HandleBuilds(s: Session, messageId: int, key: string, known: set<string>, enterOk: bool, d: Display)
    ensures var (t, r) := HandleOn(s, messageId, key, known, enterOk, d);
            && t.menuType == s.menuType
            && t.callbacks == if Rebuilds(d) && r in {Shown, ShowFailed} then Stored(s.menuType, Built(d)) else s.callbacks
  {
    hide ShowOn, Stored, Built, Saved, Rebuilds;
    var t := s.(messageId := messageId);
    if key == BACK {
      if s.stack != [] { ShowBuilds(t.(stack := s.stack[..|s.stack| - 1], screen := s.stack[|s.stack| - 1]), d); }
    } else if key in s.callbacks && SCREEN in s.callbacks[key] {
      var params := s.callbacks[key];
      ShowBuilds(t.(data := Saved(t.data, params), stack := s.stack + [params[SCREEN]], screen := params[SCREEN]), d);
    }
  }

  lemma StartBuilds(screen: string, initial: Values, enterOk: bool, d: Display)
    ensures var t := StartOn(screen, initial, enterOk, d).0;
            t.callbacks == if enterOk && Rebuilds(d) then Stored(t.menuType, Built(d)) else map[]
  {
    hide ShowOn, Stored, Built, Rebuilds;
    ShowBuilds(Session(0, screen, if MENU_TYPE in initial then initial[MENU_TYPE] else "", initial, map[], []), d);
  }

  /** The keys of the latest build, and of all builds, move on with each press. */
  lemma ActMovesKeys(w: World, p: Press)
    ensures var t := Act(w, p).0;
            && t.used == w.used + (if Reaches(w, p) then KeysOf(Built(p.display)) else {})
            && KeysOf(t.latest) == if Reaches(w, p) then KeysOf(Built(p.display)) else if p.Callback? then KeysOf(w.latest) else {}
  {
    hide HandleOn, StartOn, Reaches;
  }

  lemma ActKeepsInv(w: World, p: Press)
    requires Inv(w)
    ensures Inv(Act(w, p).0)
  {
    hide Stored, HandleOn, StartOn, Rebuilds, Built, KeysOf;
    NothingStored();
    NoKeys();
    ActMovesKeys(w, p);
    match p
    case Start(screen, initial, enterOk, d) => StartBuilds(screen, initial, enterOk, d);
    case Callback(m, key, known, enterOk, d) =>
      if w.session.Some? { HandleBuilds(w.session.value, m, key, known, enterOk, d); }
    case End =>
  }

  lemma NothingStored()
    ensures forall menuType :: Stored(menuType, []) == map[]
  {
  }

  lemma {:induction false} RunKeepsInv(ps: seq<Press>, n: nat)
    requires n <= |ps|
    ensures Inv(Run(ps, n))
  {
    hide Act, Inv;
    if n == 0 {
      EmptyInv();
    } else {
      RunKeepsInv(ps, n - 1);
      ActKeepsInv(Run(ps, n - 1), ps[n - 1]);
    }
  }

  lemma EmptyInv()
    ensures Inv(World(None, [], {}))
  {
    NothingStored();
  }

  /** Every stored callback is what some button of the keyboard stored under its key. */
  lemma {:induction false} StoredByButtons(menuType: string, buttons: seq<Button>)
    ensures Stored(menuType, buttons).Keys == KeysOf(buttons)
    ensures forall key :: key in Stored(menuType, buttons) ==>
              exists b :: b in buttons && b.key == key && Stored(menuType, buttons)[key] == ParamsOf(menuType, b)
  {
    hide ParamsOf;
    if buttons == [] {
    } else {
      var n := |buttons| - 1;
      StoredByButtons(menuType, buttons[..n]);
      assert buttons == buttons[..n] + [buttons[n]];
      forall key | key in Stored(menuType, buttons)
        ensures exists b :: b in buttons && b.key == key && Stored(menuType, buttons)[key] == ParamsOf(menuType, b)
      {
        if key == buttons[n].key { assert buttons[n] in buttons; }
      }
    }
  }

  /** The callback stored under this key was made by button b, with the session's menu type and a screen. */
  ghost predicate MadeBy(s: Session, latest: seq<Button>, key: string, b: Button) {
    && b in latest && b.key == key && key in s.callbacks
    && s.callbacks[key] == ParamsOf(s.menuType, b)
    && Overlays(map["screen" := b.target, "_menu_type" := s.menuType], b.params, s.callbacks[key])
    && "screen" in s.callbacks[key] && "_menu_type" in s.callbacks[key]
  }

  /** Does the button pass a menu type of its own, neither empty nor the session's? */
  ghost predicate Misleads(menuType: string, b: Button) {
    exists i :: LastPair(b.params, i, "_menu_type") && b.params[i + 1] != "" && b.params[i + 1] != menuType
  }

  /**
   In every run, with or without errors, with fresh keys or not: the stored callbacks are exactly those
   made by the latest keyboard build of this session. A press is refused as expired exactly when its key
   is none of theirs, and as coming from another menu exactly when the button that stored it passes a
   different, non-empty menu type itself.
   */
  lemma OnlyLatestKeyboardLives(ps: seq<Press>, n: nat, p: Press)
    requires n <= |ps| && p.Callback? && p.key != "back" && Run(ps, n).session.Some?
    ensures var w, reply := Run(ps, n), Act(Run(ps, n), p).1;
            var s := w.session.value;
            && s.callbacks.Keys == KeysOf(w.latest)
            && (forall key :: key in s.callbacks ==> exists b :: MadeBy(s, w.latest, key, b))
            && (reply == Expired <==> p.key !in KeysOf(w.latest))
            && reply != NoTarget
            && (reply == WrongMenu <==> exists b :: MadeBy(s, w.latest, p.key, b) && Misleads(s.menuType, b))
  {
    hide ParamsOf, Stored, Act, Run, LastPair;
    RunKeepsInv(ps, n);
    var w := Run(ps, n);
    var s := w.session.value;
    StoredByButtons(s.menuType, w.latest);
    forall key | key in s.callbacks ensures exists b :: MadeBy(s, w.latest, key, b) {
      var b :| b in w.latest && b.key == key && s.callbacks[key] == ParamsOf(s.menuType, b);
      ParamsComplete(s.menuType, b);
      assert MadeBy(s, w.latest, key, b);
    }
    PressAnswered(w, p);
    if p.key in s.callbacks {
      var b :| MadeBy(s, w.latest, p.key, b);
    }
  }

  /** The session's data once a button's parameters are filed: all but the screen, over what was there. */
  ghost predicate FilesExactly(before: Values, menuType: string, params: seq<string>, after: Values) {
    && (forall name :: name != "screen" ==>
          (name in after <==> name in before || name == "_menu_type" || exists i :: LastPair(params, i, name)))
    && (forall name, i :: name != "screen" && LastPair(params, i, name) && name in after ==> after[name] == params[i + 1])
    && ((forall i :: !LastPair(params, i, "_menu_type")) && "_menu_type" in after ==> after["_menu_type"] == menuType)
    && (forall name :: name in before && name in after && name != "_menu_type" && (forall i :: !LastPair(params, i, name)) ==>
          after[name] == before[name])
    && ("screen" in after <==> "screen" in before) && ("screen" in before && "screen" in after ==> after["screen"] == before["screen"])
  }

  /** In every run a press that passes all checks files exactly what the button that was pressed carries. */
  lemma PressFilesParams(ps: seq<Press>, n: nat, p: Press, b: Button)
    requires n <= |ps| && p.Callback? && p.key != "back" && Run(ps, n).session.Some?
    requires MadeBy(Run(ps, n).session.value, Run(ps, n).latest, p.key, b)
    ensures var s, (w, reply) := Run(ps, n).session.value, Act(Run(ps, n), p);
            && w.session.Some?
            && (if reply in {OnEnterFailed, Shown, ShowFailed} then FilesExactly(s.data, s.menuType, b.params, w.session.value.data)
                else w.session.value.data == s.data)
  {
    hide ParamsOf, Stored, Run, LastPair, ShowOn, Overlays, FilesExactly, Saved;
    var w := Run(ps, n);
    var s := w.session.value;
    ShowLeavesData(s, p);
    SavedExactly(s.data, b, s.menuType, s.callbacks[p.key]);
  }

  /** Showing a screen never touches the data. */
  lemma ShowLeavesData(s: Session, p: Press)
    requires p.Callback?
    ensures forall t: Session :: ShowOn(t, p.display).0.data == t.data
  {
    hide Stored;
  }

  lemma SavedExactly(before: Values, b: Button, menuType: string, params: Values)
    requires Overlays(map["screen" := b.target, "_menu_type" := menuType], b.params, params)
    ensures FilesExactly(before, menuType, b.params, Saved(before, params))
  {
    hide LastPair;
    ScreenIsNoMenu();
  }

  /** What a press on a stored button is answered, by the menu type stored with it. */
  lemma PressAnswered(w: World, p: Press)
    requires p.Callback? && p.key != BACK && w.session.Some?
    ensures var s, reply := w.session.value, Act(w, p).1;
            && (reply == Expired <==> p.key !in s.callbacks)
            && (reply == NoTarget ==> p.key in s.callbacks && SCREEN !in s.callbacks[p.key])
            && (p.key in s.callbacks && MENU_TYPE in s.callbacks[p.key] ==>
                  (reply == WrongMenu <==> s.callbacks[p.key][MENU_TYPE] != "" && s.callbacks[p.key][MENU_TYPE] != s.menuType))
            && (reply == WrongMenu ==> p.key in s.callbacks)
  {
    hide ShowOn, Saved;
  }

  /** Press i builds a keyboard with a button under this key. */
  ghost predicate Draws(ps: seq<Press>, i: nat, key: string)
    requires i < |ps|
  {
    Reaches(Run(ps, i), ps[i]) && key in KeysOf(Built(ps[i].display))
  }

  /** Press j builds a keyboard anew, or starts or ends the session. */
  ghost predicate Supersedes(ps: seq<Press>, j: nat)
    requires j < |ps|
  {
    Reaches(Run(ps, j), ps[j]) || !ps[j].Callback?
  }

  /** Between its build and the first press that supersedes it a key is live; after that it is stale for good. */
  lemma {:induction false} KeyLivesUntilSuperseded(ps: seq<Press>, i: nat, n: nat, key: string)
    requires FreshRun(ps) && i < n <= |ps|
    ensures Draws(ps, i, key) ==>
              && key in Run(ps, n).used && key != BACK
              && (key in KeysOf(Run(ps, n).latest) <==> forall j :: i < j < n ==> !Supersedes(ps, j))
    decreases n
  {
    hide KeysOf, Built, Reaches, Act, Run;
    RunStep(ps, n);
    ActMovesKeys(Run(ps, n - 1), ps[n - 1]);
    assert FreshKeys(Run(ps, n - 1), ps[n - 1]);
    if n == i + 1 {
    } else {
      KeyLivesUntilSuperseded(ps, i, n - 1, key);
      assert (forall j :: i < j < n ==> !Supersedes(ps, j)) <==> (forall j :: i < j < n - 1 ==> !Supersedes(ps, j)) && !Supersedes(ps, n - 1);
    }
  }

  lemma RunStep(ps: seq<Press>, n: nat)
    requires 0 < n <= |ps|
    ensures Run(ps, n) == Act(Run(ps, n - 1), ps[n - 1]).0
  {
  }

  lemma NoKeys()
    ensures KeysOf([]) == {}
  {
  }

  /**
   In every run with fresh keys, errors or not: a button that some press drew is refused as expired
   exactly when a later press has built a keyboard anew, or started or ended the session.
   */
  lemma OldButtonsRefused(ps: seq<Press>, i: nat, n: nat, p: Press)
    requires FreshRun(ps) && i < n <= |ps| && p.Callback?
    ensures Draws(ps, i, p.key) ==>
              var w, reply := Run(ps, n), Act(Run(ps, n), p).1;
              if w.session.None? then reply == NoSession
              else reply == Expired <==> exists j :: i < j < n && Supersedes(ps, j)
  {
    hide Act, Run, KeysOf, Draws, Supersedes, FreshRun;
    KeyLivesUntilSuperseded(ps, i, n, p.key);
    if !Draws(ps, i, p.key) {
    } else if Run(ps, n).session.None? {
      NobodyAnswers(Run(ps, n), p);
    } else {
      OnlyLatestKeyboardLives(ps, n, p);
    }
  }

  lemma NobodyAnswers(w: World, p: Press)
    requires p.Callback? && w.session.None?
    ensures Act(w, p).1 == NoSession
  {
  }

  /** A button can claim another menu: an input on which the mismatch is answered. */
  lemma MismatchHappens() returns (ps: seq<Press>, p: Press)
    ensures FreshRun(ps) && |ps| == 1 && p.Callback? && Draws(ps, 0, p.key) && Act(Run(ps, 1), p).1 == WrongMenu
  {
    var b := Button("detail", ["_menu_type", "exchanges"], "cb:1");
    var d := Display(true, true, true, [b], true, true, true, 1);
    ps := [Start("home", map[MENU_TYPE := "invest"], true, d)];
    p := Callback(1, b.key, {"detail"}, true, d);
    assert BACK[0] != b.key[0];
    assert "exchanges"[0] != "invest"[0];
    assert LastPair(b.params, 0, "_menu_type");
    assert Run(ps, 0) == World(None, [], {});
    assert Run(ps, 1) == Act(Run(ps, 0), ps[0]).0;
    var w := Run(ps, 1);
    assert w.latest == [b];
    ActKeepsInv(Run(ps, 0), ps[0]);
    EmptyInv();
    assert [b][..0] == [];
    ParamsComplete("invest", b);
    PressAnswered(w, p);
  }

  // ----- Going back -----

  /** The screen that a button leads to. */
  function Target(w: World, p: Press): string {
    if p.Callback? && w.session.Some? && p.key in w.session.value.callbacks && "screen" in w.session.value.callbacks[p.key]
    then w.session.value.callbacks[p.key]["screen"] else ""
  }

  lemma ShowKeepsPlace(s: Session, d: Display)
    ensures ShowOn(s, d).0.stack == s.stack && ShowOn(s, d).0.screen == s.screen
  {
  }

  /** Press i is a button that leads to this target, and its screen is shown. */
  ghost predicate Visits(ps: seq<Press>, i: nat, target: string)
    requires i < |ps|
  {
    ps[i].Callback? && ps[i].key != "back" && Act(Run(ps, i), ps[i]).1 == Shown && Target(Run(ps, i), ps[i]) == target
  }

  /** Press i is Back, and a screen is shown. */
  ghost predicate Returns(ps: seq<Press>, i: nat)
    requires i < |ps|
  {
    ps[i].Callback? && ps[i].key == "back" && Act(Run(ps, i), ps[i]).1 == Shown
  }

  lemma PressMoves(ps: seq<Press>, i: nat, target: string)
    requires i < |ps| && Run(ps, i).session.Some?
    ensures Visits(ps, i, target) || Returns(ps, i) ==> Run(ps, i + 1).session.Some?
    ensures Visits(ps, i, target) ==>
              var s, t := Run(ps, i).session.value, Run(ps, i + 1).session.value;
              t.stack == s.stack + [target] && t.screen == target
    ensures Returns(ps, i) ==>
              var s, t := Run(ps, i).session.value, Run(ps, i + 1).session.value;
              s.stack == t.stack + [t.screen]
  {
    hide Stored, Overlay;
    var p, s := ps[i], Run(ps, i).session.value;
    if Returns(ps, i) {
      var t := s.(messageId := p.messageId);
      ShowKeepsPlace(t.(stack := s.stack[..|s.stack| - 1], screen := s.stack[|s.stack| - 1]), p.display);
    } else if Visits(ps, i, target) {
      var t := s.(messageId := p.messageId);
      var params := s.callbacks[p.key];
      ShowKeepsPlace(t.(data := Saved(t.data, params), stack := s.stack + [target], screen := target), p.display);
    }
  }

  /** A shown button, with the screen it leads to, or a Back that showed a screen. */
  datatype Move = Forth(target: string) | Back

  ghost predicate Makes(ps: seq<Press>, i: nat, move: Move)
    requires i < |ps|
  {
    match move
    case Forth(target) => Visits(ps, i, target)
    case Back => Returns(ps, i)
  }

  /** Presses start, start + 1, ... are these moves, in any order of buttons and Backs. */
  ghost predicate Moves(ps: seq<Press>, start: nat, moves: seq<Move>) {
    && start + |moves| <= |ps| && Run(ps, start).session.Some?
    && forall i :: 0 <= i < |moves| ==> Makes(ps, start + i, moves[i])
  }

  /** The stack after the first n moves: a button pushes its target, Back pops. */
  function Reduced(stack: seq<string>, moves: seq<Move>, n: nat): seq<string>
    requires n <= |moves|
  {
    if n == 0 then stack
    else
      var before := Reduced(stack, moves, n - 1);
      match moves[n - 1]
      case Forth(target) => before + [target]
      case Back => if before == [] then [] else before[..|before| - 1]
  }

  lemma {:induction false} MovesReduce(ps: seq<Press>, start: nat, moves: seq<Move>, n: nat)
    requires Moves(ps, start, moves) && n <= |moves|
    ensures Run(ps, start + n).session.Some?
    ensures var stack, t := Run(ps, start).session.value.stack, Run(ps, start + n).session.value;
            && t.stack == Reduced(stack, moves, n)
            && (n > 0 ==>
                  match moves[n - 1]
                  case Forth(target) => t.screen == target
                  case Back => Reduced(stack, moves, n - 1) == t.stack + [t.screen])
  {
    hide Visits, Returns, Run;
    if n == 0 {
    } else {
      MovesReduce(ps, start, moves, n - 1);
      assert Makes(ps, start + (n - 1), moves[n - 1]);
      PressMoves(ps, start + n - 1, if moves[n - 1].Forth? then moves[n - 1].target else "");
    }
  }

  lemma ReducedForth(stack: seq<string>, moves: seq<Move>, i: nat)
    requires i < |moves| && moves[i].Forth?
    ensures Reduced(stack, moves, i + 1) == Reduced(stack, moves, i) + [moves[i].target]
  {
  }

  /** Buttons less Backs among moves lo, ..., hi - 1. */
  function Depth(moves: seq<Move>, lo: nat, hi: nat): int
    requires hi <= |moves|
    decreases hi
  {
    if hi <= lo then 0 else Depth(moves, lo, hi - 1) + if moves[hi - 1].Forth? then 1 else -1
  }

  /** Between lo and hi every Back has its button, and every button its Back. */
  ghost predicate Matched(moves: seq<Move>, lo: nat, hi: nat)
    requires lo <= hi <= |moves|
  {
    Depth(moves, lo, hi) == 0 && forall m :: lo <= m <= hi ==> Depth(moves, lo, m) >= 0
  }

  /** As long as no Back is without its button, what lay on the stack before stays below what has been pushed since. */
  lemma {:induction false} StackBelow(stack: seq<string>, moves: seq<Move>, lo: nat, hi: nat)
    requires lo <= hi <= |moves| && forall m :: lo <= m <= hi ==> Depth(moves, lo, m) >= 0
    ensures Reduced(stack, moves, lo) <= Reduced(stack, moves, hi)
    ensures |Reduced(stack, moves, hi)| == |Reduced(stack, moves, lo)| + Depth(moves, lo, hi)
    decreases hi
  {
    if hi == lo {
    } else {
      StackBelow(stack, moves, lo, hi - 1);
      assert Depth(moves, lo, hi) >= 0;
    }
  }

  /**
   In any run of shown buttons and Backs, mixed in any order, a Back undoes the last button that is
   still unmatched: it shows that button's target, not the screen on which it was pressed, and leaves
   the stack as it was before it. The first Back after a button therefore shows the current screen again.
   */
  lemma BackRetracesTargets(ps: seq<Press>, start: nat, moves: seq<Move>, i: nat, k: nat)
    requires Moves(ps, start, moves) && i < k < |moves|
    requires moves[i].Forth? && moves[k].Back? && Matched(moves, i + 1, k)
    ensures Run(ps, start + i).session.Some? && Run(ps, start + k + 1).session.Some?
    ensures var before, after := Run(ps, start + i).session.value, Run(ps, start + k + 1).session.value;
            after.screen == moves[i].target && after.stack == before.stack
  {
    hide Makes, Run, Depth, Reduced;
    var stack := Run(ps, start).session.value.stack;
    MovesReduce(ps, start, moves, i);
    MovesReduce(ps, start, moves, i + 1);
    MovesReduce(ps, start, moves, k);
    MovesReduce(ps, start, moves, k + 1);
    ReducedForth(stack, moves, i);
    StackBelow(stack, moves, i + 1, k);
    assert start + (k + 1) == start + k + 1;
    PopLast(Reduced(stack, moves, i), moves[i].target, Run(ps, start + k + 1).session.value.stack, Run(ps, start + k + 1).session.value.screen);
  }

  lemma PopLast(s: seq<string>, pushed: string, rest: seq<string>, top: string)
    requires rest + [top] == s + [pushed]
    ensures rest == s && top == pushed
  {
    assert (rest + [top])[..|rest|] == rest && (rest + [top])[|rest|] == top;
  }

  lemma {:induction false} DepthAdds(moves: seq<Move>, lo: nat, mid: nat, hi: nat)
    requires lo <= mid <= hi <= |moves|
    ensures Depth(moves, lo, hi) == Depth(moves, lo, mid) + Depth(moves, mid, hi)
    decreases hi
  {
    if hi == mid {
    } else {
      DepthAdds(moves, lo, mid, hi - 1);
    }
  }

  /** Matched moves, a button, more matched moves and its Back are matched together. */
  lemma MatchedAround(moves: seq<Move>, lo: nat, i: nat, hi: nat)
    requires lo <= i < hi < |moves| && moves[i].Forth? && moves[hi].Back?
    requires Matched(moves, lo, i) && Matched(moves, i + 1, hi)
    ensures Matched(moves, lo, hi + 1)
  {
    forall m | lo <= m <= hi + 1 ensures Depth(moves, lo, m) >= 0 && (m == hi + 1 ==> Depth(moves, lo, m) == 0) {
      if i < m {
        DepthAdds(moves, lo, i, m);
        DepthAdds(moves, i, i + 1, m);
        assert Depth(moves, i, i + 1) == 1;
        if m == hi + 1 { DepthAdds(moves, i + 1, hi, hi + 1); }
      }
    }
  }

  /** From the empty stack, the top of the stack is the target of the last button still unmatched. */
  lemma {:induction false} TopHasButton(moves: seq<Move>, n: nat) returns (i: nat)
    requires n <= |moves| && Reduced([], moves, n) != []
    ensures i < n && moves[i].Forth? && Matched(moves, i + 1, n)
    ensures Reduced([], moves, n) == Reduced([], moves, i) + [moves[i].target]
    decreases n
  {
    if moves[n - 1].Forth? {
      i := n - 1;
    } else {
      var popped := TopHasButton(moves, n - 1);
      assert Reduced([], moves, n) == Reduced([], moves, popped);
      i := TopHasButton(moves, popped);
      MatchedAround(moves, i + 1, popped, n - 1);
    }
  }

  /**
   In a session whose stack was empty at first, every Back that shows a screen undoes some earlier button,
   and shows the starting screen exactly when that button leads there: no other Back ever does.
   */
  lemma StartScreenReturnsIff(ps: seq<Press>, start: nat, moves: seq<Move>, k: nat, home: string) returns (i: nat)
    requires Moves(ps, start, moves) && k < |moves| && moves[k].Back? && Run(ps, start).session.value.stack == []
    ensures i < k && moves[i].Forth? && Matched(moves, i + 1, k)
    ensures Run(ps, start + k + 1).session.Some?
    ensures Run(ps, start + k + 1).session.value.screen == home <==> moves[i].target == home
  {
    hide Makes, Run, Depth, Reduced;
    MovesReduce(ps, start, moves, k);
    MovesReduce(ps, start, moves, k + 1);
    assert start + (k + 1) == start + k + 1;
    i := TopHasButton(moves, k);
    BackRetracesTargets(ps, start, moves, i, k);
  }

  /** Everything on a stack that was empty at first is the target of some earlier button. */
  lemma {:induction false} StackOfTargets(moves: seq<Move>, n: nat, k: nat)
    requires n <= |moves| && k < |Reduced([], moves, n)|
    ensures exists i :: 0 <= i < n && moves[i] == Forth(Reduced([], moves, n)[k])
  {
    if n == 0 {
    } else if k < |Reduced([], moves, n - 1)| {
      StackOfTargets(moves, n - 1, k);
    }
  }
}
