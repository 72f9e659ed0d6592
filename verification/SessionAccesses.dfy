/**
 One user's sessions under any sequence of accesses, whoever makes them: each access runs under the
 lock of the service (pkg/telegram/session_memory.go:196-264) or of one session object
 (session_memory.go:58-194), and nothing orders the accesses of different calls. Objects are numbered
 in the order of their creation; a call keeps the number of the object that it was given.
 */
module SessionAccesses {
  import opened Prelude
  import opened MenuSession

  datatype Op = Read | Create(screen: string, initial: Values) | Delete | Save(o: nat) | On(o: nat, a: Accessor)

  /** All session objects ever created, and the one that the service holds for the user. */
  datatype Service = Service(objects: seq<Session>, current: Option<nat>)

  function Serve(s: Service, op: Op): Service {
    match op
    case Read => s
    case Create(screen, initial) => Service(s.objects + [NewSession(screen, initial)], Some(|s.objects|))
    case Delete => s.(current := None)
    case Save(o) => s.(current := Some(o))
    case On(o, a) => if o < |s.objects| then s.(objects := s.objects[o := Access(s.objects[o], a)]) else s
  }

  function Served(ops: seq<Op>, n: nat): Service
    requires n <= |ops|
  {
    if n == 0 then Service([], None) else Serve(Served(ops, n - 1), ops[n - 1])
  }

  /** Does the access go to an object that exists? */
  predicate Points(s: Service, op: Op) {
    match op
    case Save(o) => o < |s.objects|
    case On(o, _) => o < |s.objects|
    case _ => true
  }

  ghost predicate Sound(ops: seq<Op>) { forall i :: 0 <= i < |ops| ==> Points(Served(ops, i), ops[i]) }

  predicate Exists(ops: seq<Op>, o: nat, n: nat)
    requires n <= |ops|
  {
    o < |Served(ops, n).objects|
  }

  lemma {:induction false} ObjectsStay(ops: seq<Op>, m: nat, n: nat)
    requires m <= n <= |ops|
    ensures |Served(ops, m).objects| <= |Served(ops, n).objects|
  {
    if m == n {
    } else {
      ObjectsStay(ops, m, n - 1);
    }
  }

  /** Nothing was done to an object before it was created. */
  lemma NothingBefore(ops: seq<Op>, o: nat, n: nat)
    requires Sound(ops) && n <= |ops| && !Exists(ops, o, n)
    ensures forall i :: 0 <= i < n && ops[i].On? ==> ops[i].o != o
    ensures forall i :: 0 <= i < n && ops[i].Save? ==> ops[i].o != o
  {
    hide Served;
    forall i | 0 <= i < n && (ops[i].On? || ops[i].Save?) ensures ops[i].o != o {
      assert Points(Served(ops, i), ops[i]);
      ObjectsStay(ops, i, n);
    }
  }

  /** What access n - 1 makes of one object: a new one, the result of an accessor, or what it was. */
  lemma ObjectStep(ops: seq<Op>, o: nat, n: nat)
    requires Sound(ops) && 0 < n <= |ops| && Exists(ops, o, n)
    ensures var op, after := ops[n - 1], Served(ops, n).objects[o];
            if !Exists(ops, o, n - 1) then op.Create? && after == NewSession(op.screen, op.initial)
            else
              var before := Served(ops, n - 1).objects[o];
              after == if op.On? && op.o == o then Access(before, op.a) else before
    ensures ops[n - 1].On? && ops[n - 1].o == o ==> Exists(ops, o, n - 1)
  {
    hide Access;
    assert Points(Served(ops, n - 1), ops[n - 1]);
  }

  // ----- Which callbacks are live -----

  predicate Stores(op: Op, o: nat, key: string) { op.On? && op.o == o && op.a.Store? && op.a.key == key }

  predicate Clears(op: Op, o: nat) { op == On(o, Clear) }

  /** Access i stores the key in object o, and no access before n clears the object again. */
  ghost predicate LiveStore(ops: seq<Op>, i: nat, o: nat, key: string, n: nat)
    requires n <= |ops|
  {
    i < n && Stores(ops[i], o, key) && forall j :: i < j < n ==> !Clears(ops[j], o)
  }

  lemma AccessCallbacks(x: Session, a: Accessor, key: string)
    ensures key in Access(x, a).callbacks <==> (a.Store? && a.key == key) || (a != Clear && key in x.callbacks)
    ensures key in Access(x, a).callbacks ==>
              Access(x, a).callbacks[key] == if a.Store? && a.key == key then a.params else x.callbacks[key]
  {
  }

  /** One key of one object, one access later. */
  lemma KeyStep(ops: seq<Op>, o: nat, key: string, n: nat)
    requires Sound(ops) && 0 < n <= |ops| && Exists(ops, o, n)
    ensures var op, after := ops[n - 1], Served(ops, n).objects[o].callbacks;
            && (key in after <==>
                  || Stores(op, o, key)
                  || (!Clears(op, o) && Exists(ops, o, n - 1) && key in Served(ops, n - 1).objects[o].callbacks))
            && (key in after ==> after[key] == if Stores(op, o, key) then op.a.params else Served(ops, n - 1).objects[o].callbacks[key])
  {
    hide Access, Served, Sound;
    ObjectStep(ops, o, n);
    if Exists(ops, o, n - 1) && ops[n - 1].On? { AccessCallbacks(Served(ops, n - 1).objects[o], ops[n - 1].a, key); }
  }

  lemma StorePoints(ops: seq<Op>, i: nat, o: nat, key: string, n: nat)
    requires Sound(ops) && i < n <= |ops| && Stores(ops[i], o, key)
    ensures Exists(ops, o, n)
  {
    assert Points(Served(ops, i), ops[i]);
    ObjectsStay(ops, i, n);
  }

  lemma {:induction false} LiveStoreLives(ops: seq<Op>, i: nat, o: nat, key: string, n: nat)
    requires Sound(ops) && n <= |ops| && LiveStore(ops, i, o, key, n)
    ensures Exists(ops, o, n) && key in Served(ops, n).objects[o].callbacks
    decreases n
  {
    hide Served, Sound, Exists, Stores, Clears;
    StorePoints(ops, i, o, key, n);
    KeyStep(ops, o, key, n);
    if n == i + 1 {
    } else {
      LiveStoreLives(ops, i, o, key, n - 1);
    }
  }

  /** Every live callback was stored by an access that no clear has undone, and holds what the last such access stored. */
  lemma {:induction false} CallbackStoredBy(ops: seq<Op>, o: nat, key: string, n: nat) returns (i: nat)
    requires Sound(ops) && n <= |ops| && Exists(ops, o, n) && key in Served(ops, n).objects[o].callbacks
    ensures LiveStore(ops, i, o, key, n) && forall j :: i < j < n ==> !Stores(ops[j], o, key)
    ensures Served(ops, n).objects[o].callbacks[key] == ops[i].a.params
  {
    hide Served, Sound, Exists, Clears;
    SomethingServed(ops, o, n);
    KeyStep(ops, o, key, n);
    if Stores(ops[n - 1], o, key) {
      i := n - 1;
    } else {
      i := CallbackStoredBy(ops, o, key, n - 1);
    }
  }

  lemma SomethingServed(ops: seq<Op>, o: nat, n: nat)
    requires n <= |ops| && Exists(ops, o, n)
    ensures n > 0
  {
  }

  /**
   The exact condition, for every sequence of accesses: a key is live in a session object if and only
   if some access stored it there and no clear of that object has come since.
   */
  lemma KeyLiveIff(ops: seq<Op>, o: nat, key: string, n: nat)
    requires Sound(ops) && n <= |ops| && Exists(ops, o, n)
    ensures key in Served(ops, n).objects[o].callbacks <==> exists i :: LiveStore(ops, i, o, key, n)
  {
    hide Served, LiveStore, Sound;
    if key in Served(ops, n).objects[o].callbacks {
      var i := CallbackStoredBy(ops, o, key, n);
    }
    forall i | LiveStore(ops, i, o, key, n) ensures key in Served(ops, n).objects[o].callbacks {
      LiveStoreLives(ops, i, o, key, n);
    }
  }

  // ----- Which session is the user's -----

  predicate Redirects(op: Op) { op.Create? || op.Delete? || op.Save? }

  /** Access i makes o the user's session: it creates it or saves it. */
  predicate Installs(ops: seq<Op>, i: nat, o: nat)
    requires i < |ops|
  {
    ops[i] == Save(o) || (ops[i].Create? && |Served(ops, i).objects| == o)
  }

  /** The user's session is o if and only if the last creation, deletion or save created or saved o, however old o is. */
  lemma {:induction false} CurrentIff(ops: seq<Op>, o: nat, n: nat)
    requires n <= |ops|
    ensures Served(ops, n).current == Some(o) <==>
            exists i :: 0 <= i < n && Installs(ops, i, o) && forall j :: i < j < n ==> !Redirects(ops[j])
  {
    if n == 0 {
    } else {
      CurrentIff(ops, o, n - 1);
      if Redirects(ops[n - 1]) {
        assert Installs(ops, n - 1, o) <==> Served(ops, n).current == Some(o);
      } else if Served(ops, n).current == Some(o) {
        var i :| 0 <= i < n - 1 && Installs(ops, i, o) && forall j :: i < j < n - 1 ==> !Redirects(ops[j]);
      }
    }
  }

  /** A session that was replaced comes back exactly when somebody saves it after the last creation and deletion. */
  lemma ReplacedReturnsIff(ops: seq<Op>, o: nat, c: nat, n: nat)
    requires Sound(ops) && c < n <= |ops| && Exists(ops, o, c) && ops[c].Create?
    requires forall j :: c < j < n ==> !ops[j].Create? && !ops[j].Delete?
    ensures Served(ops, n).current == Some(o) <==>
            exists i :: c < i < n && ops[i] == Save(o) && forall j :: i < j < n ==> !ops[j].Save?
  {
    hide Served;
    CurrentIff(ops, o, n);
    CreatesAnother(ops, o, c);
    if Served(ops, n).current == Some(o) {
      var i :| 0 <= i < n && Installs(ops, i, o) && forall j :: i < j < n ==> !Redirects(ops[j]);
      assert Redirects(ops[c]);
      assert c < i && ops[i] == Save(o);
      assert forall j :: i < j < n ==> !Redirects(ops[j]);
    } else {
      forall i | c < i < n && ops[i] == Save(o) ensures exists j :: i < j < n && ops[j].Save? {
        assert Installs(ops, i, o);
        var j :| i < j < n && Redirects(ops[j]);
      }
    }
  }

  lemma CreatesAnother(ops: seq<Op>, o: nat, c: nat)
    requires c < |ops| && Exists(ops, o, c) && ops[c].Create?
    ensures !Installs(ops, c, o)
  {
  }

  // ----- The stack -----

  /** The pushes and pops of one object among the first n accesses. */
  function MovesOn(ops: seq<Op>, o: nat, n: nat): seq<Move>
    requires n <= |ops|
  {
    if n == 0 then []
    else
      var rest := MovesOn(ops, o, n - 1);
      var op := ops[n - 1];
      if op.On? && op.o == o && MoveOf(op.a).Some? then rest + [MoveOf(op.a).value] else rest
  }

  lemma {:induction false} ReducedStable(moves: seq<Move>, last: Move, n: nat)
    requires n <= |moves|
    ensures Reduced([], moves + [last], n) == Reduced([], moves, n)
  {
    if n == 0 {
    } else {
      ReducedStable(moves, last, n - 1);
    }
  }

  lemma ReducedSnoc(moves: seq<Move>, last: Move)
    ensures var before := Reduced([], moves, |moves|);
            Reduced([], moves + [last], |moves| + 1)
              == if last.Forth? then before + [last.target] else if before == [] then [] else before[..|before| - 1]
  {
    ReducedStable(moves, last, |moves|);
  }

  lemma NothingReduced()
    ensures Reduced([], [], 0) == []
  {
  }

  /** The move that an accessor makes, if any. */
  function MoveOf(a: Accessor): Option<Move> {
    match a
    case Push(target) => Some(Forth(target))
    case Pop => Some(Back)
    case _ => None
  }

  lemma AccessMoves(x: Session, a: Accessor, moves: seq<Move>)
    requires x.stack == Reduced([], moves, |moves|)
    ensures var after := if MoveOf(a).Some? then moves + [MoveOf(a).value] else moves;
            Access(x, a).stack == Reduced([], after, |after|)
  {
    hide Reduced;
    if MoveOf(a).Some? { ReducedSnoc(moves, MoveOf(a).value); }
  }

  lemma {:induction false} NoMovesBefore(ops: seq<Op>, o: nat, n: nat)
    requires n <= |ops| && forall i :: 0 <= i < n && ops[i].On? ==> ops[i].o != o
    ensures MovesOn(ops, o, n) == []
  {
    if n == 0 {
    } else {
      NoMovesBefore(ops, o, n - 1);
    }
  }

  /** For every sequence of accesses: the stack of a session is the reduction of the pushes and pops made on it. */
  lemma {:induction false} StackReduces(ops: seq<Op>, o: nat, n: nat)
    requires Sound(ops) && n <= |ops| && Exists(ops, o, n)
    ensures Served(ops, n).objects[o].stack == Reduced([], MovesOn(ops, o, n), |MovesOn(ops, o, n)|)
  {
    hide Served, Sound, Reduced, Access, MoveOf;
    SomethingServed(ops, o, n);
    ObjectStep(ops, o, n);
    NothingReduced();
    var op := ops[n - 1];
    if !Exists(ops, o, n - 1) {
      NothingBefore(ops, o, n - 1);
      NoMovesBefore(ops, o, n - 1);
    } else {
      StackReduces(ops, o, n - 1);
      if op.On? && op.o == o { AccessMoves(Served(ops, n - 1).objects[o], op.a, MovesOn(ops, o, n - 1)); }
    }
  }

  /** Whoever pops gets the target of the last push on that object that is still unmatched, and leaves what lay below it. */
  lemma PopUndoesPush(ops: seq<Op>, o: nat, k: nat) returns (i: nat)
    requires Sound(ops) && k < |ops| && ops[k] == On(o, Pop) && Served(ops, k).objects[o].stack != []
    ensures var moves, stack := MovesOn(ops, o, k), Served(ops, k).objects[o].stack;
            && i < |moves| && moves[i].Forth? && Matched(moves, i + 1, |moves|)
            && stack[|stack| - 1] == moves[i].target
            && Exists(ops, o, k + 1) && Served(ops, k + 1).objects[o].stack == Reduced([], moves, i)
  {
    hide Reduced, MovesOn, Sound;
    PopPoints(ops, o, k);
    StackReduces(ops, o, k);
    i := TopHasButton(MovesOn(ops, o, k), |MovesOn(ops, o, k)|);
  }

  lemma PopPoints(ops: seq<Op>, o: nat, k: nat)
    requires Sound(ops) && k < |ops| && ops[k] == On(o, Pop)
    ensures Exists(ops, o, k)
  {
    assert Points(Served(ops, k), ops[k]);
  }
}
