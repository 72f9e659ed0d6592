/**
 Market-data items and their deduplication, internal/consumers/websocket_consumer.go.
 Times are nanoseconds. Only the fields that a key or a comparison reads are kept;
 `rest` stands for all the others. A liquidation carries its price as the text that
 strconv.FormatFloat(price, 'f', 2, 64) gives, which is not part of this model.
 */
module MarketItems {
  import opened Prelude
  import opened Decimal

  const SEP: Bytes := ['_' as int]

  /** What FormatFloat can print: digits, a sign, a point, or the name of an infinity or of no number. */
  type PriceText = s: Bytes | SEP[0] !in s

  datatype Item =
    | Kline(exchange: Bytes, symbol: Bytes, timeframe: Bytes, openTime: int, eventTime: int, rest: int)
    | Ticker(exchange: Bytes, symbol: Bytes, marketType: Bytes, timestamp: int, eventTime: int, rest: int)
    | Depth(exchange: Bytes, symbol: Bytes, marketType: Bytes, timestamp: int, eventTime: int, rest: int)
    | Trade(exchange: Bytes, symbol: Bytes, tradeId: int, eventTime: int, rest: int)
    | MarkPrice(exchange: Bytes, symbol: Bytes, timestamp: int, eventTime: int, rest: int)
    | Liquidation(exchange: Bytes, symbol: Bytes, side: Bytes, timestamp: int, priceText: PriceText, eventTime: int, rest: int)
    | Foreign(rest: int)

  /** A batch may hold values of no known type; deduplication drops them. */
  predicate Known(x: Item) { !x.Foreign? }

  datatype Kind = KlineKind | TickerKind | DepthKind | TradeKind | MarkPriceKind | LiquidationKind

  const KINDS: seq<Kind> := [KlineKind, TickerKind, DepthKind, TradeKind, MarkPriceKind, LiquidationKind]

  datatype TypedKey = TypedKey(kind: Kind, key: Bytes)

  /** Whole seconds, and whole milliseconds, of a time; both round down. */
  function Seconds(t: int): int { t / 1_000_000_000 }

  function Millis(t: int): int { t / 1_000_000 }

  function KeyText(x: Item): Bytes
    requires Known(x)
  {
    match x
    case Kline(e, s, tf, open, _, _) => e + SEP + s + SEP + tf + SEP + Format(Seconds(open))
    case Ticker(e, s, mt, t, _, _) => e + SEP + s + SEP + mt + SEP + Format(Seconds(t))
    case Depth(e, s, mt, t, _, _) => e + SEP + s + SEP + mt + SEP + Format(Seconds(t))
    case Trade(e, s, id, _, _) => e + SEP + s + SEP + Format(id)
    case MarkPrice(e, s, t, _, _) => e + SEP + s + SEP + Format(Seconds(t))
    case Liquidation(e, s, side, t, price, _, _) => e + SEP + s + SEP + side + SEP + Format(Millis(t)) + SEP + price
  }

  function KindOf(x: Item): Kind
    requires Known(x)
  {
    match x
    case Kline(_, _, _, _, _, _) => KlineKind
    case Ticker(_, _, _, _, _, _) => TickerKind
    case Depth(_, _, _, _, _, _) => DepthKind
    case Trade(_, _, _, _, _) => TradeKind
    case MarkPrice(_, _, _, _, _) => MarkPriceKind
    case Liquidation(_, _, _, _, _, _, _) => LiquidationKind
  }

  function KeyOf(x: Item): TypedKey
    requires Known(x)
  {
    TypedKey(KindOf(x), KeyText(x))
  }

  // ----- What a key identifies -----

  /** The fields that a key is made of: two names, a third one or none, a number, a price or none. */
  datatype Identity = Identity(exchange: Bytes, symbol: Bytes, qualifier: Option<Bytes>, number: int, price: Option<PriceText>)

  function IdentityOf(x: Item): Identity
    requires Known(x)
  {
    match x
    case Kline(e, s, tf, open, _, _) => Identity(e, s, Some(tf), Seconds(open), None)
    case Ticker(e, s, mt, t, _, _) => Identity(e, s, Some(mt), Seconds(t), None)
    case Depth(e, s, mt, t, _, _) => Identity(e, s, Some(mt), Seconds(t), None)
    case Trade(e, s, id, _, _) => Identity(e, s, None, id, None)
    case MarkPrice(e, s, t, _, _) => Identity(e, s, None, Seconds(t), None)
    case Liquidation(e, s, side, t, price, _, _) => Identity(e, s, Some(side), Millis(t), Some(price))
  }

  predicate NoSeparator(s: Bytes) { SEP[0] !in s }

  /** No name contains the separator. */
  predicate Plain(id: Identity) {
    NoSeparator(id.exchange) && NoSeparator(id.symbol) && (id.qualifier.Some? ==> NoSeparator(id.qualifier.value))
  }

  function Joined(head: Bytes, tail: Bytes): Bytes { head + SEP + tail }

  function NumberText(id: Identity): Bytes {
    if id.price.Some? then Joined(Format(id.number), id.price.value) else Format(id.number)
  }

  function QualifierText(id: Identity): Bytes {
    if id.qualifier.Some? then Joined(id.qualifier.value, NumberText(id)) else NumberText(id)
  }

  lemma KeyTextJoins(x: Item)
    requires Known(x)
    ensures var id := IdentityOf(x); KeyText(x) == Joined(id.exchange, Joined(id.symbol, QualifierText(id)))
  {
    hide Format, Seconds, Millis;
    match x
    case Kline(e, s, tf, open, _, _) => Regroup(e, s, tf, Format(Seconds(open)));
    case Ticker(e, s, mt, t, _, _) => Regroup(e, s, mt, Format(Seconds(t)));
    case Depth(e, s, mt, t, _, _) => Regroup(e, s, mt, Format(Seconds(t)));
    case Trade(_, _, _, _, _) =>
    case MarkPrice(_, _, _, _, _) =>
    case Liquidation(e, s, side, t, price, _, _) =>
      Regroup(e, s, side, Joined(Format(Millis(t)), price));
      assert KeyText(x) == e + SEP + s + SEP + side + SEP + Joined(Format(Millis(t)), price);
  }

  lemma Regroup(e: Bytes, s: Bytes, t: Bytes, u: Bytes)
    ensures e + SEP + s + SEP + t + SEP + u == Joined(e, Joined(s, Joined(t, u)))
  {
  }

  /** The first separator stands right behind a head that contains none. */
  lemma FirstSeparator(s: Bytes, t: Bytes)
    requires NoSeparator(s)
    ensures Joined(s, t)[|s|] == SEP[0] && forall i :: 0 <= i < |s| ==> Joined(s, t)[i] != SEP[0]
  {
  }

  lemma JoinedInjective(s: Bytes, t: Bytes, s': Bytes, t': Bytes)
    requires NoSeparator(s) && NoSeparator(s') && Joined(s, t) == Joined(s', t')
    ensures s == s' && t == t'
  {
    FirstSeparator(s, t);
    FirstSeparator(s', t');
    var whole := Joined(s, t);
    assert s == whole[..|s|] && s' == whole[..|s'|];
    assert t == whole[|s| + 1..] && t' == whole[|s'| + 1..];
  }

  lemma NumbersArePlain(n: int)
    ensures NoSeparator(Format(n))
  {
  }

  lemma NumberTextInjective(a: Identity, b: Identity)
    requires a.price.Some? <==> b.price.Some?
    ensures NumberText(a) == NumberText(b) <==> a.number == b.number && a.price == b.price
  {
    hide Format, Joined;
    NumbersArePlain(a.number);
    NumbersArePlain(b.number);
    if NumberText(a) == NumberText(b) {
      if a.price.Some? { JoinedInjective(Format(a.number), a.price.value, Format(b.number), b.price.value); }
      FormatInjective(a.number, b.number);
    }
  }

  lemma SameShape(x: Item, y: Item)
    requires Known(x) && Known(y) && KindOf(x) == KindOf(y)
    ensures var a, b := IdentityOf(x), IdentityOf(y);
            (a.qualifier.Some? <==> b.qualifier.Some?) && (a.price.Some? <==> b.price.Some?)
  {
  }

  /** Without separators in the names, two items of one type share a key exactly when the fields behind it agree. */
  lemma KeysTellApart(x: Item, y: Item)
    requires Known(x) && Known(y) && KindOf(x) == KindOf(y) && Plain(IdentityOf(x)) && Plain(IdentityOf(y))
    ensures KeyOf(x) == KeyOf(y) <==> IdentityOf(x) == IdentityOf(y)
  {
    hide IdentityOf, KindOf, KeyText, NumberText, Joined, NoSeparator;
    KeyTextJoins(x);
    KeyTextJoins(y);
    SameShape(x, y);
    var a, b := IdentityOf(x), IdentityOf(y);
    NumberTextInjective(a, b);
    if KeyText(x) == KeyText(y) {
      JoinedInjective(a.exchange, Joined(a.symbol, QualifierText(a)), b.exchange, Joined(b.symbol, QualifierText(b)));
      JoinedInjective(a.symbol, QualifierText(a), b.symbol, QualifierText(b));
      if a.qualifier.Some? { JoinedInjective(a.qualifier.value, NumberText(a), b.qualifier.value, NumberText(b)); }
    }
  }

  // ----- The same in the fields of the items -----

  /** The time lies in the n-th second, and in the n-th millisecond. */
  predicate InSecond(t: int, n: int) { n * 1_000_000_000 <= t < (n + 1) * 1_000_000_000 }

  predicate InMilli(t: int, n: int) { n * 1_000_000 <= t < (n + 1) * 1_000_000 }

  ghost predicate SameSecond(t: int, u: int) { exists n :: InSecond(t, n) && InSecond(u, n) }

  ghost predicate SameMilli(t: int, u: int) { exists n :: InMilli(t, n) && InMilli(u, n) }

  /** No underscore in a name of the item. */
  predicate PlainNames(x: Item) {
    match x
    case Kline(e, s, tf, _, _, _) => '_' as int !in e && '_' as int !in s && '_' as int !in tf
    case Ticker(e, s, mt, _, _, _) => '_' as int !in e && '_' as int !in s && '_' as int !in mt
    case Depth(e, s, mt, _, _, _) => '_' as int !in e && '_' as int !in s && '_' as int !in mt
    case Trade(e, s, _, _, _) => '_' as int !in e && '_' as int !in s
    case MarkPrice(e, s, _, _, _) => '_' as int !in e && '_' as int !in s
    case Liquidation(e, s, side, _, _, _, _) => '_' as int !in e && '_' as int !in s && '_' as int !in side
    case Foreign(_) => true
  }

  /** Do the items report on the same thing: one candle, one second of a ticker, book or mark price, one trade, one liquidation? */
  ghost predicate SameFact(x: Item, y: Item) {
    match (x, y)
    case (Kline(e, s, tf, t, _, _), Kline(e', s', tf', t', _, _)) => e == e' && s == s' && tf == tf' && SameSecond(t, t')
    case (Ticker(e, s, mt, t, _, _), Ticker(e', s', mt', t', _, _)) => e == e' && s == s' && mt == mt' && SameSecond(t, t')
    case (Depth(e, s, mt, t, _, _), Depth(e', s', mt', t', _, _)) => e == e' && s == s' && mt == mt' && SameSecond(t, t')
    case (Trade(e, s, id, _, _), Trade(e', s', id', _, _)) => e == e' && s == s' && id == id'
    case (MarkPrice(e, s, t, _, _), MarkPrice(e', s', t', _, _)) => e == e' && s == s' && SameSecond(t, t')
    case (Liquidation(e, s, side, t, price, _, _), Liquidation(e', s', side', t', price', _, _)) =>
      e == e' && s == s' && side == side' && price == price' && SameMilli(t, t')
    case _ => false
  }

  lemma TimesShare(t: int, u: int)
    ensures Seconds(t) == Seconds(u) <==> SameSecond(t, u)
    ensures Millis(t) == Millis(u) <==> SameMilli(t, u)
  {
    assert InSecond(t, t / 1_000_000_000) && InMilli(t, t / 1_000_000);
  }

  lemma SameFactIsSameIdentity(x: Item, y: Item)
    requires Known(x) && Known(y)
    ensures SameFact(x, y) <==> KindOf(x) == KindOf(y) && IdentityOf(x) == IdentityOf(y)
    ensures PlainNames(x) <==> Plain(IdentityOf(x))
  {
    hide Seconds, Millis, SameSecond, SameMilli;
    forall t, u ensures Seconds(t) == Seconds(u) <==> SameSecond(t, u) { TimesShare(t, u); }
    forall t, u ensures Millis(t) == Millis(u) <==> SameMilli(t, u) { TimesShare(t, u); }
  }

  /** Items without underscores in their names share a typed key exactly when they report on the same thing. */
  lemma KeyIsFact(x: Item, y: Item)
    requires Known(x) && Known(y) && PlainNames(x) && PlainNames(y)
    ensures KeyOf(x) == KeyOf(y) <==> SameFact(x, y)
  {
    hide KindOf, IdentityOf, KeyText, Plain, PlainNames, SameFact;
    SameFactIsSameIdentity(x, y);
    SameFactIsSameIdentity(y, y);
    if KindOf(x) == KindOf(y) { KeysTellApart(x, y); }
  }

  /** How many separators a text contains. */
  function Separators(s: Bytes): nat { multiset(s)[SEP[0]] }

  lemma SeparatorsAdd(s: Bytes, t: Bytes)
    ensures Separators(s + t) == Separators(s) + Separators(t)
    ensures Separators(Joined(s, t)) == Separators(s) + 1 + Separators(t)
    ensures NoSeparator(s) <==> Separators(s) == 0
  {
    assert multiset(SEP) == multiset{SEP[0]};
  }

  /** Those in the names of an item. */
  function InNames(id: Identity): nat {
    Separators(id.exchange) + Separators(id.symbol) + if id.qualifier.Some? then Separators(id.qualifier.value) else 0
  }

  /** Those that the key itself puts between its parts. */
  function Between(id: Identity): nat {
    2 + (if id.qualifier.Some? then 1 else 0) + (if id.price.Some? then 1 else 0)
  }

  lemma KeySeparators(x: Item)
    requires Known(x)
    ensures var id := IdentityOf(x);
            && Separators(KeyText(x)) == InNames(id) + Between(id)
            && (Plain(id) <==> InNames(id) == 0)
  {
    hide KeyText, IdentityOf, Joined, NoSeparator, Separators, Format;
    var id := IdentityOf(x);
    KeyTextJoins(x);
    PriceIsPlain(x);
    SeparatorsAdd(id.exchange, Joined(id.symbol, QualifierText(id)));
    SeparatorsAdd(id.symbol, QualifierText(id));
    NumbersArePlain(id.number);
    SeparatorsAdd(Format(id.number), if id.price.Some? then id.price.value else []);
    if id.price.Some? { SeparatorsAdd(id.price.value, []); }
    if id.qualifier.Some? { SeparatorsAdd(id.qualifier.value, NumberText(id)); }
  }

  lemma PriceIsPlain(x: Item)
    requires Known(x)
    ensures IdentityOf(x).price.Some? ==> NoSeparator(IdentityOf(x).price.value)
  {
  }

  lemma SplitAtSeparator(s: Bytes) returns (a: Bytes, b: Bytes)
    requires !NoSeparator(s)
    ensures s == Joined(a, b) && |a| < |s|
  {
    var i :| 0 <= i < |s| && s[i] == SEP[0];
    a, b := s[..i], s[i + 1..];
    assert s == a + [s[i]] + b && [s[i]] == SEP;
  }

  /** The same item with another symbol and, where its type has one, another third name. */
  function Renamed(x: Item, s: Bytes, q: Bytes): Item {
    match x
    case Kline(e, _, _, open, at, rest) => Kline(e, s, q, open, at, rest)
    case Ticker(e, _, _, t, at, rest) => Ticker(e, s, q, t, at, rest)
    case Depth(e, _, _, t, at, rest) => Depth(e, s, q, t, at, rest)
    case Liquidation(e, _, _, t, price, at, rest) => Liquidation(e, s, q, t, price, at, rest)
    case _ => x
  }

  lemma JoinedShifts(a: Bytes, b: Bytes, c: Bytes)
    ensures Joined(Joined(a, b), c) == Joined(a, Joined(b, c))
  {
  }

  /** A separator in a name can always be moved to another name without changing the key, whatever the type. */
  lemma SeparatorCollides(x: Item) returns (y: Item)
    requires Known(x) && !Plain(IdentityOf(x))
    ensures Known(y) && KeyOf(y) == KeyOf(x) && IdentityOf(y) != IdentityOf(x)
  {
    hide KeyText, Joined, NoSeparator, Format, Seconds, Millis;
    var id := IdentityOf(x);
    KeyTextJoins(x);
    if !NoSeparator(id.exchange) {
      var a, b := SplitAtSeparator(id.exchange);
      y := x.(exchange := a, symbol := Joined(b, id.symbol));
      JoinedShifts(b, id.symbol, QualifierText(id));
      JoinedShifts(a, b, Joined(id.symbol, QualifierText(id)));
    } else if !NoSeparator(id.symbol) {
      var a, b := SplitAtSeparator(id.symbol);
      y := x.(exchange := Joined(id.exchange, a), symbol := b);
      JoinedShifts(a, b, QualifierText(id));
      JoinedShifts(id.exchange, a, Joined(b, QualifierText(id)));
      JoinedLonger(id.exchange, a);
    } else {
      var a, b := SplitAtSeparator(id.qualifier.value);
      y := Renamed(x, Joined(id.symbol, a), b);
      JoinedShifts(a, b, NumberText(id));
      JoinedShifts(id.symbol, a, Joined(b, NumberText(id)));
      JoinedLonger(id.symbol, a);
    }
    KeyTextJoins(y);
  }

  lemma JoinedLonger(a: Bytes, b: Bytes)
    ensures |Joined(a, b)| > |a|
  {
  }

  /** Does the key of x belong to its identity alone? */
  ghost predicate Identifies(x: Item)
    requires Known(x)
  {
    forall y | Known(y) && KeyOf(y) == KeyOf(x) :: IdentityOf(y) == IdentityOf(x)
  }

  /** For every type: a key identifies the fields behind it exactly when no name among them contains the separator. */
  lemma KeyIdentifiesIff(x: Item)
    requires Known(x)
    ensures Identifies(x) <==> Plain(IdentityOf(x))
  {
    hide IdentityOf, KindOf, KeyText, InNames, Between, Separators;
    if Plain(IdentityOf(x)) {
      forall y | Known(y) && KeyOf(y) == KeyOf(x) ensures IdentityOf(y) == IdentityOf(x) {
        SameShape(x, y);
        KeySeparators(x);
        KeySeparators(y);
        SameBetween(IdentityOf(x), IdentityOf(y));
        KeysTellApart(x, y);
      }
    } else {
      var y := SeparatorCollides(x);
    }
  }

  lemma SameBetween(a: Identity, b: Identity)
    requires (a.qualifier.Some? <==> b.qualifier.Some?) && (a.price.Some? <==> b.price.Some?)
    ensures Between(a) == Between(b)
  {
  }

  predicate Has(x: Item, key: TypedKey) { Known(x) && KeyOf(x) == key }

  // ----- The winner of a key -----

  /** Keep the earlier item unless the later one has a strictly later event time. */
  function Later(x: Option<Item>, y: Option<Item>): (z: Option<Item>)
    requires x.Some? ==> Known(x.value)
    requires y.Some? ==> Known(y.value)
  {
    if x.None? then y
    else if y.None? then x
    else if y.value.eventTime > x.value.eventTime then y else x
  }

  function Winner(batch: seq<Item>, key: TypedKey): (w: Option<Item>)
    ensures w.Some? ==> Known(w.value) && Has(w.value, key)
  {
    if batch == [] then None
    else
      var x := batch[|batch| - 1];
      Later(Winner(batch[..|batch| - 1], key), if Has(x, key) then Some(x) else None)
  }

  /** Item i has this key; none with the key is later, and none of those before it as late. */
  ghost predicate FirstLatest(batch: seq<Item>, key: TypedKey, i: int) {
    && 0 <= i < |batch| && Has(batch[i], key)
    && forall j :: 0 <= j < |batch| && Has(batch[j], key) ==>
         batch[j].eventTime <= batch[i].eventTime && (j < i ==> batch[j].eventTime < batch[i].eventTime)
  }

  lemma {:induction false} WinnerIndex(batch: seq<Item>, key: TypedKey) returns (i: int)
    ensures Winner(batch, key) == if i < 0 then None else if i < |batch| then Some(batch[i]) else None
    ensures if i < 0 then forall j :: 0 <= j < |batch| ==> !Has(batch[j], key) else FirstLatest(batch, key, i)
  {
    hide Has;
    if batch == [] {
      i := -1;
    } else {
      var n := |batch| - 1;
      i := WinnerIndex(batch[..n], key);
      HasKnown(batch, key);
      if Has(batch[n], key) && (i < 0 || batch[n].eventTime > batch[i].eventTime) { i := n; }
      assert forall j :: 0 <= j < n ==> batch[..n][j] == batch[j];
    }
  }

  /** The winner is the first arrival among the items of its key with the greatest event time. */
  lemma WinnerIsFirstLatest(batch: seq<Item>, key: TypedKey)
    ensures Winner(batch, key) == None <==> forall i :: 0 <= i < |batch| ==> !Has(batch[i], key)
    ensures Winner(batch, key).Some? ==> exists i :: FirstLatest(batch, key, i) && Winner(batch, key) == Some(batch[i])
  {
    hide Winner, Has;
    var i := WinnerIndex(batch, key);
  }

  lemma HasKnown(batch: seq<Item>, key: TypedKey)
    ensures forall i :: 0 <= i < |batch| && Has(batch[i], key) ==> Known(batch[i])
  {
  }

  // ----- What deduplication returns -----

  /** Exactly the winners, one for each key, in any order (the order of Go's map iteration). */
  ghost predicate IsDedup(batch: seq<Item>, d: seq<Item>) {
    && (forall i :: 0 <= i < |d| ==> Known(d[i]) && Winner(batch, KeyOf(d[i])) == Some(d[i]))
    && (forall i, j :: 0 <= i < j < |d| ==> KeyOf(d[i]) != KeyOf(d[j]))
    && (forall key :: Winner(batch, key).Some? ==> Winner(batch, key).value in d)
  }

  ghost predicate SameWinners(a: seq<Item>, b: seq<Item>) {
    forall key :: Winner(a, key) == Winner(b, key)
  }

  lemma DedupOfSame(a: seq<Item>, b: seq<Item>, d: seq<Item>)
    requires SameWinners(a, b)
    ensures IsDedup(a, d) <==> IsDedup(b, d)
  {
    hide Winner;
  }

  lemma DedupKeepsWinners(a: seq<Item>, d: seq<Item>)
    requires IsDedup(a, d)
    ensures SameWinners(d, a)
  {
    hide Winner;
    forall key ensures Winner(d, key) == Winner(a, key) {
      WinnerIsFirstLatest(d, key);
      if Winner(d, key).Some? {
        var j :| FirstLatest(d, key, j) && Winner(d, key) == Some(d[j]);
        assert Has(d[j], key);
      }
      if Winner(a, key).Some? {
        var w := Winner(a, key).value;
        var i :| 0 <= i < |d| && d[i] == w;
        assert Has(d[i], key);
      }
    }
  }

  lemma LaterAssociates(x: Option<Item>, y: Option<Item>, z: Option<Item>)
    requires x.Some? ==> Known(x.value)
    requires y.Some? ==> Known(y.value)
    requires z.Some? ==> Known(z.value)
    ensures Later(Later(x, y), z) == Later(x, Later(y, z))
  {
  }

  lemma {:induction false} WinnerConcat(a: seq<Item>, b: seq<Item>, key: TypedKey)
    ensures Winner(a + b, key) == Later(Winner(a, key), Winner(b, key))
  {
    hide Has;
    if b == [] {
      assert a + b == a;
    } else {
      var n := |b| - 1;
      WinnerConcat(a, b[..n], key);
      assert (a + b)[..|a| + n] == a + b[..n];
      HasKnown(b, key);
      LaterAssociates(Winner(a, key), Winner(b[..n], key), if Has(b[n], key) then Some(b[n]) else None);
    }
  }

  lemma ConcatSame(a: seq<Item>, b: seq<Item>, a': seq<Item>, b': seq<Item>)
    requires SameWinners(a, a') && SameWinners(b, b')
    ensures SameWinners(a + b, a' + b')
  {
    hide Winner;
    forall key ensures Winner(a + b, key) == Winner(a' + b', key) {
      WinnerConcat(a, b, key);
      WinnerConcat(a', b', key);
    }
  }

  /** Wherever the stream is cut into batches, deduplicating them first changes nothing. */
  lemma {:induction false} BoundariesDoNotMatter(parts: seq<seq<Item>>, dedups: seq<seq<Item>>, d: seq<Item>)
    requires |parts| == |dedups| && forall i :: 0 <= i < |parts| ==> IsDedup(parts[i], dedups[i])
    ensures SameWinners(Flatten(dedups), Flatten(parts))
    ensures IsDedup(Flatten(parts), d) <==> IsDedup(Flatten(dedups), d)
  {
    hide Winner, IsDedup;
    if parts == [] {
    } else {
      var n := |parts| - 1;
      BoundariesDoNotMatter(parts[..n], dedups[..n], d);
      DedupKeepsWinners(parts[n], dedups[n]);
      ConcatSame(Flatten(dedups[..n]), dedups[n], Flatten(parts[..n]), parts[n]);
    }
    DedupOfSame(Flatten(dedups), Flatten(parts), d);
  }

  /** The distinct keys of a batch. */
  ghost function Keys(batch: seq<Item>): set<TypedKey> {
    set i | 0 <= i < |batch| && Known(batch[i]) :: KeyOf(batch[i])
  }

  ghost predicate DistinctKeys(batch: seq<Item>) {
    && (forall i :: 0 <= i < |batch| ==> Known(batch[i]))
    && (forall i, j :: 0 <= i < j < |batch| ==> KeyOf(batch[i]) != KeyOf(batch[j]))
  }

  lemma KeysSnoc(batch: seq<Item>)
    requires batch != []
    ensures var n := |batch| - 1;
            Keys(batch) == if Known(batch[n]) then Keys(batch[..n]) + {KeyOf(batch[n])} else Keys(batch[..n])
  {
    hide KindOf, KeyText, KeyOf, Known;
    var n := |batch| - 1;
    forall k | k in Keys(batch) ensures k in Keys(batch[..n]) || (Known(batch[n]) && k == KeyOf(batch[n])) {
      var i :| 0 <= i < |batch| && Known(batch[i]) && KeyOf(batch[i]) == k;
      if i < n { assert batch[..n][i] == batch[i]; }
    }
    forall k | k in Keys(batch[..n]) ensures k in Keys(batch) {
      var i :| 0 <= i < n && Known(batch[..n][i]) && KeyOf(batch[..n][i]) == k;
      assert batch[..n][i] == batch[i];
    }
  }

  /** The last key of a batch of distinct keys is not among the others. */
  lemma LastKeyNew(batch: seq<Item>)
    requires batch != [] && DistinctKeys(batch)
    ensures Known(batch[|batch| - 1]) && KeyOf(batch[|batch| - 1]) !in Keys(batch[..|batch| - 1])
    ensures DistinctKeys(batch[..|batch| - 1])
  {
    hide KindOf, KeyText, KeyOf, Known;
  }

  lemma {:induction false} FewKeys(batch: seq<Item>)
    ensures |Keys(batch)| <= |batch|
    ensures DistinctKeys(batch) ==> |Keys(batch)| == |batch|
  {
    hide KindOf, KeyText, KeyOf, Known, DistinctKeys, Keys;
    if batch == [] {
      NoKeys();
    } else {
      FewKeys(batch[..|batch| - 1]);
      KeysSnoc(batch);
      if DistinctKeys(batch) { LastKeyNew(batch); }
    }
  }

  lemma NoKeys()
    ensures Keys([]) == {}
  {
  }

  /** Deduplicating again changes nothing; all results for one batch hold the same items; none is longer than the batch. */
  lemma DedupIsStable(a: seq<Item>, d: seq<Item>, e: seq<Item>)
    requires IsDedup(a, d) && (IsDedup(a, e) || IsDedup(d, e))
    ensures IsDedup(d, d)
    ensures forall x :: x in d <==> x in e
    ensures |d| == |e| <= |a|
  {
    hide Winner;
    DedupKeepsWinners(a, d);
    DedupOfSame(d, a, d);
    DedupOfSame(d, a, e);
    SameItems(a, d, e);
    SameItems(a, e, d);
    DedupLength(a, d);
    DedupLength(a, e);
  }

  lemma SameItems(a: seq<Item>, d: seq<Item>, e: seq<Item>)
    requires IsDedup(a, d) && IsDedup(a, e)
    ensures forall x :: x in d ==> x in e
  {
    hide Winner;
  }

  lemma DedupLength(a: seq<Item>, d: seq<Item>)
    requires IsDedup(a, d)
    ensures |d| == |Keys(a)| <= |a|
  {
    hide Winner, KindOf, KeyText;
    FewKeys(a);
    FewKeys(d);
    forall k | k in Keys(d) ensures k in Keys(a) {
      var i :| 0 <= i < |d| && Known(d[i]) && KeyOf(d[i]) == k;
      WinnerIsFirstLatest(a, k);
      var j :| 0 <= j < |a| && Has(a[j], k);
    }
    forall k | k in Keys(a) ensures k in Keys(d) {
      var i :| 0 <= i < |a| && Known(a[i]) && KeyOf(a[i]) == k;
      WinnerIsFirstLatest(a, k);
      assert Has(a[i], k);
      var j :| 0 <= j < |d| && d[j] == Winner(a, k).value;
    }
    assert Keys(d) == Keys(a);
  }

  /** Item k is the first arrival among the latest reports on its thing. */
  ghost predicate LeadsFact(batch: seq<Item>, k: int) {
    && 0 <= k < |batch| && !batch[k].Foreign?
    && forall j :: 0 <= j < |batch| && SameFact(batch[j], batch[k]) ==>
         batch[j].eventTime <= batch[k].eventTime && (j < k ==> batch[j].eventTime < batch[k].eventTime)
  }

  lemma LeadsIsFirstLatest(batch: seq<Item>, k: nat)
    requires k < |batch| && !batch[k].Foreign? && forall i :: 0 <= i < |batch| ==> PlainNames(batch[i])
    ensures LeadsFact(batch, k) <==> FirstLatest(batch, KeyOf(batch[k]), k)
  {
    hide KindOf, KeyText, SameFact, PlainNames;
    forall j | 0 <= j < |batch| ensures SameFact(batch[j], batch[k]) <==> Has(batch[j], KeyOf(batch[k])) {
      if Known(batch[j]) { KeyIsFact(batch[j], batch[k]); } else { ForeignIsNoFact(batch[j], batch[k]); }
    }
  }

  lemma ForeignIsNoFact(x: Item, y: Item)
    requires x.Foreign?
    ensures !SameFact(x, y)
  {
  }

  /** With plain names: exactly the leading reports are kept, in the fields of the items and not by their keys. */
  lemma DedupKeepsLeaders(batch: seq<Item>, d: seq<Item>, x: Item)
    requires IsDedup(batch, d) && forall i :: 0 <= i < |batch| ==> PlainNames(batch[i])
    ensures x in d <==> exists k :: 0 <= k < |batch| && LeadsFact(batch, k) && batch[k] == x
  {
    hide Winner, KindOf, KeyText, SameFact, PlainNames, FirstLatest, LeadsFact;
    if x in d {
      var k := WinnerStands(batch, KeyOf(x));
      LeadsIsFirstLatest(batch, k);
    }
    forall k | 0 <= k < |batch| && LeadsFact(batch, k) && batch[k] == x ensures x in d {
      LeaderIsKnown(batch, k);
      LeadsIsFirstLatest(batch, k);
      FirstLatestWins(batch, KeyOf(x), k);
    }
  }

  lemma LeaderIsKnown(batch: seq<Item>, k: nat)
    requires k < |batch| && LeadsFact(batch, k)
    ensures !batch[k].Foreign?
  {
  }

  lemma WinnerStands(batch: seq<Item>, key: TypedKey) returns (k: nat)
    requires Winner(batch, key).Some?
    ensures k < |batch| && FirstLatest(batch, key, k) && Winner(batch, key) == Some(batch[k])
    ensures Known(batch[k]) && KeyOf(batch[k]) == key
  {
    hide Winner, KindOf, KeyText;
    var i := WinnerIndex(batch, key);
    k := i;
  }

  lemma FirstLatestWins(batch: seq<Item>, key: TypedKey, k: int)
    requires FirstLatest(batch, key, k)
    ensures Winner(batch, key) == Some(batch[k])
  {
    hide Winner, KindOf, KeyText;
    var i := WinnerIndex(batch, key);
  }

  // ----- The loops -----

  type Seen = map<Kind, map<Bytes, Item>>

  /** What the six maps hold after a prefix: for each type, the winner of each key. */
  ghost predicate Holds(seen: Seen, batch: seq<Item>) {
    && (forall kind :: kind in seen)
    && (forall kind, text :: Winner(batch, TypedKey(kind, text)) == if text in seen[kind] then Some(seen[kind][text]) else None)
  }

  lemma NothingSeen(seen: Seen)
    requires (forall kind :: kind in seen) && (forall kind :: seen[kind] == map[])
    ensures Holds(seen, [])
  {
  }

  lemma OneMoreSeen(seen: Seen, batch: seq<Item>, x: Item)
    requires Holds(seen, batch)
    ensures !Known(x) ==> Holds(seen, batch + [x])
    ensures Known(x) ==>
              var m, text := seen[KindOf(x)], KeyText(x);
              && (text in m ==> Known(m[text]))
              && (text in m && !(x.eventTime > m[text].eventTime) ==> Holds(seen, batch + [x]))
              && (text !in m || x.eventTime > m[text].eventTime ==> Holds(seen[KindOf(x) := m[text := x]], batch + [x]))
  {
    hide KindOf, KeyText;
    forall key ensures Winner(batch + [x], key) == Later(Winner(batch, key), if Has(x, key) then Some(x) else None) {
      assert (batch + [x])[..|batch|] == batch;
    }
    hide Winner;
    if Known(x) {
      var own := Winner(batch, TypedKey(KindOf(x), KeyText(x)));
    }
  }

  /** Sort an item into the map of its type, keeping the latest of each key. */
  method Note(seen: Seen, ghost batch: seq<Item>, x: Item) returns (r: Seen)
    requires Holds(seen, batch)
    ensures Holds(r, batch + [x])
  {
    hide Holds, KindOf, KeyText;
    OneMoreSeen(seen, batch, x);
    r := seen;
    if Known(x) {
      EveryKindSeen(seen, batch);
      var m, text := seen[KindOf(x)], KeyText(x);
      if text in m {
        if x.eventTime > m[text].eventTime { r := seen[KindOf(x) := m[text := x]]; }
      } else {
        r := seen[KindOf(x) := m[text := x]];
      }
    }
  }

  lemma EveryKindSeen(seen: Seen, batch: seq<Item>)
    requires Holds(seen, batch)
    ensures forall kind :: kind in seen
  {
  }

  /** The part of the result that has been rebuilt: the winners of some keys. */
  ghost predicate Rebuilt(batch: seq<Item>, result: seq<Item>, keys: iset<TypedKey>) {
    && DistinctKeys(result)
    && (forall i :: 0 <= i < |result| ==> KeyOf(result[i]) in keys && Winner(batch, KeyOf(result[i])) == Some(result[i]))
    && (forall key :: key in keys && Winner(batch, key).Some? ==> Winner(batch, key).value in result)
  }

  lemma RebuildOne(batch: seq<Item>, result: seq<Item>, keys: iset<TypedKey>, key: TypedKey, x: Item)
    requires Rebuilt(batch, result, keys) && key !in keys && Winner(batch, key) == Some(x)
    ensures Rebuilt(batch, result + [x], keys + iset{key})
  {
    hide Winner, KindOf, KeyText;
    assert Known(x) && KeyOf(x) == key;
    assert x in result + [x];
  }

  lemma RebuiltWiden(batch: seq<Item>, result: seq<Item>, keys: iset<TypedKey>, more: iset<TypedKey>)
    requires Rebuilt(batch, result, keys) && keys <= more
    requires forall key :: key in more && key !in keys ==> Winner(batch, key).None?
    ensures Rebuilt(batch, result, more)
  {
    hide Winner, KindOf, KeyText;
  }

  lemma RebuiltAll(batch: seq<Item>, result: seq<Item>, keys: iset<TypedKey>)
    requires Rebuilt(batch, result, keys) && forall key :: key in keys
    ensures IsDedup(batch, result)
  {
    hide Winner, KindOf, KeyText;
  }

  ghost function OfKind(kind: Kind): iset<TypedKey> { iset key: TypedKey | key.kind == kind }

  lemma SeenMeans(seen: Seen, batch: seq<Item>, key: TypedKey)
    requires Holds(seen, batch)
    ensures key.kind in seen
    ensures Winner(batch, key) == if key.key in seen[key.kind] then Some(seen[key.kind][key.key]) else None
  {
    hide Winner;
    assert key == TypedKey(key.kind, key.key);
  }

  /** Append the values of one map, in any order. */
  method AppendValues(seen: Seen, ghost batch: seq<Item>, before: seq<Item>, ghost keys: iset<TypedKey>, kind: Kind) returns (result: seq<Item>)
    requires Holds(seen, batch) && Rebuilt(batch, before, keys) && keys !! OfKind(kind)
    ensures Rebuilt(batch, result, keys + OfKind(kind))
  {
    hide Winner, KindOf, KeyText, Rebuilt, Holds;
    result := before;
    EveryKindSeen(seen, batch);
    var m := seen[kind];
    var rest := m.Keys;
    ghost var done := keys;
    while rest != {}
      invariant rest <= m.Keys
      invariant Rebuilt(batch, result, done)
      invariant keys <= done <= keys + OfKind(kind)
      invariant forall text :: TypedKey(kind, text) in done <==> text in m.Keys - rest
    {
      var text :| text in rest;
      SeenMeans(seen, batch, TypedKey(kind, text));
      RebuildOne(batch, result, done, TypedKey(kind, text), m[text]);
      result := result + [m[text]];
      rest := rest - {text};
      done := done + iset{TypedKey(kind, text)};
    }
    forall key | key in OfKind(kind) && key !in done ensures Winner(batch, key).None? {
      SeenMeans(seen, batch, key);
      assert key == TypedKey(kind, key.key);
    }
    RebuiltWiden(batch, result, done, keys + OfKind(kind));
  }

  method Deduplicate(batch: seq<Item>) returns (result: seq<Item>)
    ensures IsDedup(batch, result) && |result| <= |batch|
  {
    hide Holds, Winner, KindOf, KeyText, Rebuilt, IsDedup;
    if |batch| == 0 {
      EmptyDedup();
      return batch;
    }
    var seen: Seen := map kind | kind in KINDS :: map[];
    AllKinds();
    NothingSeen(seen);
    for i := 0 to |batch|
      invariant Holds(seen, batch[..i])
    {
      assert batch[..i + 1] == batch[..i] + [batch[i]];
      seen := Note(seen, batch[..i], batch[i]);
    }
    assert batch[..|batch|] == batch;
    result := [];
    ghost var keys: iset<TypedKey> := iset{};
    NothingRebuilt(batch);
    for k := 0 to |KINDS|
      invariant Rebuilt(batch, result, keys)
      invariant forall key :: key in keys <==> key.kind in KINDS[..k]
    {
      AllKinds();
      result := AppendValues(seen, batch, result, keys, KINDS[k]);
      keys := keys + OfKind(KINDS[k]);
      assert KINDS[..k + 1] == KINDS[..k] + [KINDS[k]];
    }
    AllKinds();
    assert KINDS[..|KINDS|] == KINDS;
    RebuiltAll(batch, result, keys);
    DedupLength(batch, result);
  }

  lemma AllKinds()
    ensures forall kind :: kind in KINDS
    ensures forall i, j :: 0 <= i < j < |KINDS| ==> KINDS[i] != KINDS[j]
  {
    forall kind: Kind ensures kind in KINDS {
      match kind
      case KlineKind => assert KINDS[0] == kind;
      case TickerKind => assert KINDS[1] == kind;
      case DepthKind => assert KINDS[2] == kind;
      case TradeKind => assert KINDS[3] == kind;
      case MarkPriceKind => assert KINDS[4] == kind;
      case LiquidationKind => assert KINDS[5] == kind;
    }
  }

  lemma NothingRebuilt(batch: seq<Item>)
    ensures Rebuilt(batch, [], iset{})
  {
  }

  lemma EmptyDedup()
    ensures IsDedup([], [])
  {
  }
}
