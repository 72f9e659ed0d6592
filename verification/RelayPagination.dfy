/**
 Cursor pagination of pkg/relay/pagination.go beside the list algorithm of section 4.4
 of the GraphQL Cursor Connections Specification. Go's int is 64 bits wide.
 */
module RelayPagination {
  import opened Prelude
  import opened Decimal
  import Base64

  // ----- Cursors -----

  /** "cursor:" */
  const PREFIX: Bytes := ['c' as int, 'u' as int, 'r' as int, 's' as int, 'o' as int, 'r' as int, ':' as int]

  function EncodeCursor(offset: int): Bytes { Base64.Encode(PREFIX + Format(offset)) }

  function DecodeCursor(cursor: Bytes): Result<int> {
    match Base64.Decode(cursor)
    case None => Err("invalid cursor")
    case Some(str) =>
      if !(PREFIX <= str) then Err("invalid cursor format")
      else
        match Parse(str[|PREFIX|..])
        case None => Err("invalid cursor offset")
        case Some(offset) => Ok(offset)
  }

  lemma CursorRoundTrip(n: int)
    requires MIN_INT <= n <= MAX_INT
    ensures DecodeCursor(EncodeCursor(n)) == Ok(n)
  {
    Base64.RoundTrip(PREFIX + Format(n));
    ParseFormat(n);
    assert (PREFIX + Format(n))[|PREFIX|..] == Format(n);
  }

  /** A cursor is the base64 of "cursor:" and the offset in decimal. */
  lemma CursorText(n: int)
    ensures Base64.Decode(EncodeCursor(n))
            == Some(['c' as int, 'u' as int, 'r' as int, 's' as int, 'o' as int, 'r' as int, ':' as int] + Format(n))
  {
    Base64.RoundTrip(PREFIX + Format(n));
  }

  /** Any base64 of "cursor:" and a spelling of the offset is as good, and nothing else. */
  lemma DecodesIff(cursor: Bytes, n: int)
    ensures DecodeCursor(cursor) == Ok(n) <==>
              && -0x8000_0000_0000_0000 <= n < 0x8000_0000_0000_0000
              && exists text: Bytes, zeros: nat ::
                   && Base64.Decode(cursor) == Some(text)
                   && |text| >= 7 && text[..7] == ['c' as int, 'u' as int, 'r' as int, 's' as int, 'o' as int, 'r' as int, ':' as int]
                   && Spells(text[7..], n, zeros)
    ensures Base64.Decode(cursor).None? ==> DecodeCursor(cursor) == Err("invalid cursor")
    ensures Base64.Decode(cursor).Some? && DecodeCursor(cursor).Err? ==>
              DecodeCursor(cursor).error == if PREFIX <= Base64.Decode(cursor).value then "invalid cursor offset" else "invalid cursor format"
  {
    hide Base64.Decode, Parse, Spells;
    if Base64.Decode(cursor).Some? && |Base64.Decode(cursor).value| >= 7 { ParsesIff(Base64.Decode(cursor).value[7..], n); }
  }

  lemma CursorsInjective(m: int, n: int)
    requires MIN_INT <= m <= MAX_INT && MIN_INT <= n <= MAX_INT
    ensures EncodeCursor(m) == EncodeCursor(n) <==> m == n
  {
    CursorRoundTrip(m);
    CursorRoundTrip(n);
  }

  // ----- Parameters and the offset form -----

  datatype Params = Params(first: Option<int>, after: Option<Bytes>, last: Option<int>, before: Option<Bytes>)

  const DEFAULT_LIMIT: int := 20

  function Validate(p: Params): Option<string> {
    if p.first.Some? && p.last.Some? then Some("cannot provide both 'first' and 'last'")
    else if p.first.Some? && p.first.value < 0 then Some("'first' must be non-negative")
    else if p.last.Some? && p.last.value < 0 then Some("'last' must be non-negative")
    else if p.after.Some? && p.before.Some? then Some("cannot provide both 'after' and 'before'")
    else None
  }

  function Limit(p: Params): int {
    if p.first.Some? then p.first.value else if p.last.Some? then p.last.value else DEFAULT_LIMIT
  }

  /** Two's complement wrap-around of 64-bit integers. */
  function Wrap(x: int): int { (x - MIN_INT) % 0x1_0000_0000_0000_0000 + MIN_INT }

  datatype Window = Window(offset: int, limit: int)

  /** Which parameter decides: `before`, then `last`, then `after`. */
  function OffsetLimit(p: Params, totalCount: int): Result<Window> {
    if Validate(p).Some? then Err(Validate(p).value)
    else if p.after.Some? && DecodeCursor(p.after.value).Err? then Err(DecodeCursor(p.after.value).error)
    else if p.before.Some? && DecodeCursor(p.before.value).Err? then Err(DecodeCursor(p.before.value).error)
    else
      var offset :=
        if p.before.Some? then MaxInt(0, Wrap(DecodeCursor(p.before.value).value - Limit(p)))
        else if p.last.Some? then MaxInt(0, Wrap(totalCount - Limit(p)))
        else if p.after.Some? then Wrap(DecodeCursor(p.after.value).value + 1)
        else 0;
      Ok(Window(offset, Limit(p)))
  }

  method CalculateOffsetLimit(p: Params, totalCount: int) returns (r: Result<Window>)
    ensures r == OffsetLimit(p, totalCount)
  {
    hide DecodeCursor;
    if Validate(p).Some? { return Err(Validate(p).value); }
    var limit := Limit(p);
    var offset := 0;
    if p.after.Some? {
      var afterOffset := DecodeCursor(p.after.value);
      if afterOffset.Err? { return Err(afterOffset.error); }
      offset := Wrap(afterOffset.value + 1);
    }
    if p.before.Some? {
      var beforeOffset := DecodeCursor(p.before.value);
      if beforeOffset.Err? { return Err(beforeOffset.error); }
      offset := Wrap(beforeOffset.value - limit);
      if offset < 0 { offset := 0; }
    }
    if p.last.Some? {
      offset := Wrap(totalCount - limit);
      if offset < 0 { offset := 0; }
      if p.before.Some? {
        // Decoded a second time; the same cursor cannot fail now.
        var beforeOffset := DecodeCursor(p.before.value);
        offset := Wrap(beforeOffset.value - limit);
        if offset < 0 { offset := 0; }
      }
    }
    return Ok(Window(offset, limit));
  }

  // ----- Connections -----

  datatype Edge<T> = Edge(node: T, cursor: Bytes)

  datatype PageInfo = PageInfo(hasNextPage: bool, hasPreviousPage: bool, startCursor: Option<Bytes>, endCursor: Option<Bytes>)

  datatype Connection<T> = Connection(edges: seq<Edge<T>>, pageInfo: PageInfo, totalCount: int)

  /** Items with the cursors of their positions, the first standing at startOffset. */
  function Edges<T>(items: seq<T>, startOffset: int): (r: seq<Edge<T>>)
    ensures |r| == |items|
  {
    seq(|items|, i requires 0 <= i < |items| => Edge(items[i], EncodeCursor(Wrap(startOffset + i))))
  }

  function Connect<T>(items: seq<T>, totalCount: int, startOffset: int): Connection<T> {
    var edges := Edges(items, startOffset);
    var info :=
      if items == [] then PageInfo(false, false, None, None)
      else PageInfo(Wrap(startOffset + |items|) < totalCount, startOffset > 0, Some(edges[0].cursor), Some(edges[|edges| - 1].cursor));
    Connection(edges, info, totalCount)
  }

  method NewConnection<T>(items: seq<T>, totalCount: int, p: Params, startOffset: int) returns (r: Result<Connection<T>>)
    ensures Validate(p).Some? ==> r == Err(Validate(p).value)
    ensures Validate(p).None? ==> r == Ok(Connect(items, totalCount, startOffset))
  {
    hide EncodeCursor, Wrap;
    if Validate(p).Some? { return Err(Validate(p).value); }
    var edges: seq<Edge<T>> := [];
    for i := 0 to |items|
      invariant |edges| == i
      invariant forall j :: 0 <= j < i ==> edges[j] == Edge(items[j], EncodeCursor(Wrap(startOffset + j)))
    {
      edges := edges + [Edge(items[i], EncodeCursor(Wrap(startOffset + i)))];
    }
    assert edges == Edges(items, startOffset);
    var info := PageInfo(false, false, None, None);
    if |edges| > 0 {
      info := PageInfo(Wrap(startOffset + |items|) < totalCount, startOffset > 0, Some(edges[0].cursor), Some(edges[|edges| - 1].cursor));
    }
    return Ok(Connection(edges, info, totalCount));
  }

  /**
   The rows that a resolver cuts out (internal/api/graphql/resolvers/strategy.resolvers.go:166-175): both ends
   are clamped to the list, after the end may have wrapped around. None: the slice expression panics.
   */
  function Rows<T>(items: seq<T>, w: Window): Option<seq<T>> {
    var lo, hi := MinInt(w.offset, |items|), MinInt(Wrap(w.offset + w.limit), |items|);
    if 0 <= lo <= hi then Some(items[lo..hi]) else None
  }

  /** One request of a client: the window, its rows, the connection. None: the request fails. */
  function Fetch<T>(items: seq<T>, p: Params): Option<Connection<T>> {
    match OffsetLimit(p, |items|)
    case Err(_) => None
    case Ok(w) =>
      match Rows(items, w)
      case None => None
      case Some(rows) => Some(Connect(rows, |items|, MinInt(w.offset, |items|)))
  }

  // ----- The specification's algorithm on lists of edges -----

  /** Where the edge with this cursor stands, or -1. */
  function Find<T>(edges: seq<Edge<T>>, cursor: Bytes): (i: int)
    ensures -1 <= i < |edges|
    ensures i >= 0 ==> edges[i].cursor == cursor
    ensures i == -1 ==> forall j :: 0 <= j < |edges| ==> edges[j].cursor != cursor
  {
    if edges == [] then -1
    else if edges[|edges| - 1].cursor == cursor then |edges| - 1 else Find(edges[..|edges| - 1], cursor)
  }

  function ApplyCursors<T>(edges: seq<Edge<T>>, before: Option<Bytes>, after: Option<Bytes>): seq<Edge<T>> {
    var rest := if after.Some? && Find(edges, after.value) >= 0 then edges[Find(edges, after.value) + 1..] else edges;
    if before.Some? && Find(rest, before.value) >= 0 then rest[..Find(rest, before.value)] else rest
  }

  /** None: the algorithm throws an error, because a size is negative. */
  function EdgesToReturn<T>(edges: seq<Edge<T>>, before: Option<Bytes>, after: Option<Bytes>, first: Option<int>, last: Option<int>): Option<seq<Edge<T>>> {
    var kept := ApplyCursors(edges, before, after);
    if first.Some? && first.value < 0 then None
    else
      var front := if first.Some? && |kept| > first.value then kept[..first.value] else kept;
      if last.Some? && last.value < 0 then None
      else if last.Some? && |front| > last.value then Some(front[|front| - last.value..])
      else Some(front)
  }

  /** The specification's answer, where a request naming no size means the default one. */
  function SpecAnswer<T>(items: seq<T>, p: Params): Option<seq<Edge<T>>> {
    var first := if p.first.None? && p.last.None? then Some(20) else p.first;
    EdgesToReturn(Edges(items, 0), p.before, p.after, first, p.last)
  }

  /** Two sizes or two cursors: the list algorithm takes them one after the other, the code refuses them. */
  predicate Mixes(p: Params) { (p.first.Some? && p.last.Some?) || (p.after.Some? && p.before.Some?) }

  /**
   Validation lets through exactly the requests on which the list algorithm throws no error and that do
   not mix directions. Of several faults the sizes come first, two sizes before a negative one.
   */
  lemma ValidExactly<T>(items: seq<T>, p: Params)
    ensures Validate(p).None? <==> SpecAnswer(items, p).Some? && !Mixes(p)
    ensures Validate(p) == Some("cannot provide both 'first' and 'last'") <==> p.first.Some? && p.last.Some?
    ensures Validate(p) == Some("'first' must be non-negative") <==> p.last.None? && p.first.Some? && SpecAnswer(items, p).None?
    ensures Validate(p) == Some("'last' must be non-negative") <==> p.first.None? && p.last.Some? && SpecAnswer(items, p).None?
    ensures Validate(p) == Some("cannot provide both 'after' and 'before'") <==>
              (p.first.None? || p.last.None?) && p.after.Some? && p.before.Some? && SpecAnswer(items, p).Some?
  {
    hide Edges, ApplyCursors;
    FaultsDiffer();
  }

  lemma FaultsDiffer()
    ensures "cannot provide both 'first' and 'last'" != "cannot provide both 'after' and 'before'"
    ensures "cannot provide both 'first' and 'last'" != "'first' must be non-negative"
    ensures "cannot provide both 'first' and 'last'" != "'last' must be non-negative"
    ensures "cannot provide both 'after' and 'before'" != "'first' must be non-negative"
    ensures "cannot provide both 'after' and 'before'" != "'last' must be non-negative"
    ensures "'first' must be non-negative" != "'last' must be non-negative"
  {
    assert "cannot provide both 'after' and 'before'"[21] == 'a' && "cannot provide both 'first' and 'last'"[21] == 'f';
    assert "cannot provide both 'after' and 'before'"[0] == "cannot provide both 'first' and 'last'"[0] == 'c';
    assert "'first' must be non-negative"[0] == "'last' must be non-negative"[0] == '\'';
    assert "'first' must be non-negative"[1] == 'f' && "'last' must be non-negative"[1] == 'l';
  }

  /**
   A request fails exactly when the list algorithm throws on it, it mixes directions, a cursor does not
   decode, or a number in it leads the slice out of range.
   */
  lemma RequestFailsIff<T>(items: seq<T>, p: Params)
    requires |items| <= MAX_INT && Limit(p) <= MAX_INT
    ensures OffsetLimit(p, |items|).Err? <==> SpecAnswer(items, p).None? || Mixes(p) || !Decodes(p.after) || !Decodes(p.before)
    ensures Fetch(items, p).None? <==>
              SpecAnswer(items, p).None? || Mixes(p) || !Decodes(p.after) || !Decodes(p.before) || Unsliceable(p)
  {
    hide SpecAnswer, Mixes, DecodeCursor, EncodeCursor, Position, PlainWindow, Connect, Unsliceable, Wrap, Limit;
    ValidExactly(items, p);
    if Validate(p).None? && Decodes(p.after) && Decodes(p.before) { SliceOf(items, p); }
  }

  // ----- When the offset form meets the specification -----

  predicate Decodes(cursor: Option<Bytes>) { cursor.Some? ==> DecodeCursor(cursor.value).Ok? }

  /** The number that a cursor carries. */
  function Position(cursor: Option<Bytes>): int {
    if cursor.None? || DecodeCursor(cursor.value).Err? then -1 else DecodeCursor(cursor.value).value
  }

  /** Is this the cursor of an edge, in a list of length n? Others may decode: a negative number, or one spelled differently. */
  predicate Found(cursor: Option<Bytes>, n: nat) {
    cursor.Some? && 0 <= Position(cursor) < n && cursor.value == EncodeCursor(Position(cursor))
  }

  /** The numbers that lead the slice out of range, whatever the list: too far down, or past the largest integer. */
  predicate Unsliceable(p: Params) {
    if p.before.Some? then Position(p.before) - Limit(p) < MIN_INT
    else p.last.None? && p.after.Some? && (Position(p.after) < -1 || Position(p.after) + 1 + Limit(p) > MAX_INT)
  }

  /** The exact condition, on the request and the list's length n. */
  predicate Meets(p: Params, n: nat) {
    var size, a, b := Limit(p), Position(p.after), Position(p.before);
    if p.before.Some? && p.last.Some? then
      if Found(p.before, n) then size <= b else size == 0 || n == 0 || b == n || (b <= size && n <= size)
    else if p.before.Some? then
      if Found(p.before, n) then size == 0 || b == size else size == 0 || n == 0 || b <= size
    else if p.last.Some? then !Found(p.after, n) || a + 1 <= n - size
    else p.after.None? || Found(p.after, n) || a == -1 || size == 0 || n == 0
  }

  lemma WrapIsIdentity(x: int)
    requires MIN_INT <= x <= MAX_INT
    ensures Wrap(x) == x
  {
  }

  lemma PositionInRange(cursor: Option<Bytes>)
    ensures MIN_INT <= Position(cursor) <= MAX_INT
  {
  }

  lemma FindPosition<T>(items: seq<T>, cursor: Option<Bytes>)
    requires |items| <= MAX_INT && cursor.Some?
    ensures Find(Edges(items, 0), cursor.value) == if Found(cursor, |items|) then Position(cursor) else -1
  {
    hide EncodeCursor, DecodeCursor, Wrap;
    var edges := Edges(items, 0);
    forall j | 0 <= j < |edges| ensures edges[j].cursor == cursor.value <==> Found(cursor, |items|) && Position(cursor) == j {
      WrapIsIdentity(j);
      CursorRoundTrip(j);
    }
    if Found(cursor, |items|) { assert edges[Position(cursor)].cursor == cursor.value; }
  }

  /** The edges of the whole list at positions lo, ..., hi - 1. */
  function Between<T>(items: seq<T>, lo: nat, hi: nat): seq<Edge<T>>
    requires lo <= hi <= |items|
  {
    Edges(items, 0)[lo..hi]
  }

  /** The positions that the cursors leave. */
  function CursorRange(p: Params, n: nat): (r: (nat, nat))
    requires Validate(p).None?
    ensures r.0 <= r.1 <= n
  {
    var a, b := Position(p.after), Position(p.before);
    (if Found(p.after, n) then a + 1 else 0, if Found(p.before, n) then b else n)
  }

  /** The positions that the specification returns. */
  function SpecRange(p: Params, n: nat): (r: (nat, nat))
    requires Validate(p).None?
    ensures r.0 <= r.1 <= n
  {
    var (lo, hi) := CursorRange(p, n);
    if p.last.Some? then (MaxInt(lo, hi - Limit(p)), hi) else (lo, MinInt(lo + Limit(p), hi))
  }

  lemma CursorsCutRange<T>(items: seq<T>, p: Params)
    requires Validate(p).None? && |items| <= MAX_INT
    ensures var (lo, hi) := CursorRange(p, |items|);
            ApplyCursors(Edges(items, 0), p.before, p.after) == Between(items, lo, hi)
  {
    hide EncodeCursor, DecodeCursor, Position, Find, Edges;
    var edges := Edges(items, 0);
    assert edges[0..] == edges == edges[0..|items|];
    if p.after.Some? { FindPosition(items, p.after); } else if p.before.Some? { FindPosition(items, p.before); }
  }

  lemma TrimRange<T>(items: seq<T>, lo: nat, hi: nat, size: nat)
    requires lo <= hi <= |items|
    ensures var kept := Between(items, lo, hi);
            && |kept| == hi - lo
            && (if |kept| > size then kept[..size] else kept) == Between(items, lo, MinInt(lo + size, hi))
            && (if |kept| > size then kept[|kept| - size..] else kept) == Between(items, MaxInt(lo, hi - size), hi)
  {
    hide Edges;
  }

  lemma LimitIsNatural(p: Params)
    requires Validate(p).None?
    ensures Limit(p) >= 0 && (p.last.Some? ==> p.first.None? && Limit(p) == p.last.value)
    ensures p.last.None? ==> Limit(p) == if p.first.Some? then p.first.value else DEFAULT_LIMIT
  {
  }

  lemma SpecIsRange<T>(items: seq<T>, p: Params)
    requires Validate(p).None? && |items| <= MAX_INT
    ensures var (lo, hi) := SpecRange(p, |items|); SpecAnswer(items, p) == Some(Between(items, lo, hi))
  {
    hide MinInt, MaxInt, EncodeCursor, DecodeCursor, Position, Find, Edges, ApplyCursors, EdgesToReturn, CursorRange, Validate, Between;
    CursorsCutRange(items, p);
    var range := CursorRange(p, |items|);
    LimitIsNatural(p);
    var size: nat := Limit(p);
    TrimRange(items, range.0, range.1, size);
    SizeOfKept(Edges(items, 0), p.before, p.after, size);
  }

  lemma SizeOfKept<T>(edges: seq<Edge<T>>, before: Option<Bytes>, after: Option<Bytes>, size: nat)
    ensures var kept := ApplyCursors(edges, before, after);
            && EdgesToReturn(edges, before, after, Some(size), None) == Some(if |kept| > size then kept[..size] else kept)
            && EdgesToReturn(edges, before, after, None, Some(size)) == Some(if |kept| > size then kept[|kept| - size..] else kept)
  {
    hide ApplyCursors, Find;
  }

  /** The positions of a window whose end does not wrap around. */
  function WindowRange(w: Window, n: nat): (r: (nat, nat))
    requires w.offset >= 0 && w.limit >= 0
    ensures r.0 <= r.1 <= n
  {
    (MinInt(w.offset, n), MinInt(w.offset + w.limit, n))
  }

  /** The window of a valid request whose numbers stay in range. */
  function PlainWindow(p: Params, n: nat): Window {
    Window(if p.before.Some? then MaxInt(0, Position(p.before) - Limit(p))
           else if p.last.Some? then MaxInt(0, n - Limit(p))
           else if p.after.Some? then Position(p.after) + 1 else 0, Limit(p))
  }

  /** A window that the store can never slice, however long the list is: it starts below it, or its end has wrapped around. */
  predicate OutOfRange(w: Window) { w.offset < 0 || Wrap(w.offset + w.limit) < 0 }

  lemma WrapAround(x: int)
    ensures MAX_INT < x <= MAX_INT + MAX_INT ==> Wrap(x) < 0
    ensures MIN_INT + MIN_INT < x < MIN_INT ==> Wrap(x) == x + 0x1_0000_0000_0000_0000
  {
  }

  lemma WindowOf(p: Params, n: nat)
    requires Validate(p).None? && n <= MAX_INT && Decodes(p.after) && Decodes(p.before) && Limit(p) <= MAX_INT
    ensures OffsetLimit(p, n).Ok? && OffsetLimit(p, n).value.limit == Limit(p) >= 0
    ensures Unsliceable(p) ==> OutOfRange(OffsetLimit(p, n).value)
    ensures !Unsliceable(p) ==>
              var w := PlainWindow(p, n);
              OffsetLimit(p, n).value == w && 0 <= w.offset <= w.offset + w.limit <= MAX_INT
  {
    hide EncodeCursor, DecodeCursor, Wrap, Position;
    LimitIsNatural(p);
    PositionInRange(p.after);
    PositionInRange(p.before);
    OffsetOf(p, n);
    if p.before.Some? {
      var x := Position(p.before) - Limit(p);
      if Unsliceable(p) {
        WrapAround(x);
        WrapAround(x + 0x1_0000_0000_0000_0000 + Limit(p));
      } else {
        WrapIsIdentity(x);
      }
    } else if p.last.Some? {
      WrapIsIdentity(n - Limit(p));
    } else if p.after.Some? {
      var x := Position(p.after) + 1;
      if x <= MAX_INT { WrapIsIdentity(x); } else { WrapAround(x); }
      WrapAround(x + Limit(p));
    }
  }

  lemma OffsetOf(p: Params, n: nat)
    requires Validate(p).None? && Decodes(p.after) && Decodes(p.before)
    ensures OffsetLimit(p, n) == Ok(Window(
              if p.before.Some? then MaxInt(0, Wrap(Position(p.before) - Limit(p)))
              else if p.last.Some? then MaxInt(0, Wrap(n - Limit(p)))
              else if p.after.Some? then Wrap(Position(p.after) + 1)
              else 0, Limit(p)))
  {
    hide DecodeCursor, Wrap;
  }

  /** The offset itself is negative exactly for an `after` that alone decides and lies below -1 or at the largest integer. */
  lemma NegativeOffsetIff(p: Params, n: nat)
    requires n <= MAX_INT && Limit(p) <= MAX_INT && OffsetLimit(p, n).Ok?
    ensures OffsetLimit(p, n).value.offset < 0 <==>
              p.before.None? && p.last.None? && p.after.Some? && (Position(p.after) < -1 || Position(p.after) >= MAX_INT)
  {
    hide EncodeCursor, DecodeCursor, Wrap, Position;
    PositionInRange(p.after);
    OffsetOf(p, n);
    if p.after.Some? {
      var x := Position(p.after) + 1;
      if x <= MAX_INT { WrapIsIdentity(x); } else { WrapAround(x); }
    }
  }

  /** An input that fails: the cursor decodes, the window starts at -4, and no list can be sliced there. */
  lemma NegativeCursorFails<T>(items: seq<T>)
    requires |items| <= MAX_INT
    ensures var p := Params(Some(10), Some(EncodeCursor(-5)), None, None);
            OffsetLimit(p, |items|) == Ok(Window(-4, 10)) && Fetch(items, p) == None
  {
    hide EncodeCursor, DecodeCursor, Wrap;
    var p := Params(Some(10), Some(EncodeCursor(-5)), None, None);
    CursorRoundTrip(-5);
    OffsetOf(p, |items|);
    WrapIsIdentity(-4);
  }

  /** What a request that passes validation and decodes is answered: nothing, or the edges of the whole list at the window's positions. */
  lemma SliceOf<T>(items: seq<T>, p: Params)
    requires Validate(p).None? && |items| <= MAX_INT && Decodes(p.after) && Decodes(p.before) && Limit(p) <= MAX_INT
    ensures Unsliceable(p) ==> Fetch(items, p) == None
    ensures !Unsliceable(p) ==>
              var w := PlainWindow(p, |items|);
              && 0 <= w.offset && 0 <= w.limit
              && var (lo, hi) := WindowRange(w, |items|);
                 && Fetch(items, p) == Some(Connect(items[lo..hi], |items|, lo))
                 && Fetch(items, p).value.edges == Between(items, lo, hi) && Fetch(items, p).value.totalCount == |items|
  {
    hide PlainWindow, Between, OffsetLimit, Validate, EncodeCursor, Wrap, Connect, Unsliceable, Limit, Decodes;
    WindowOf(p, |items|);
    if !Unsliceable(p) {
      var w := PlainWindow(p, |items|);
      WrapIsIdentity(w.offset + w.limit);
      var (lo, hi) := WindowRange(w, |items|);
      SliceEdges(items, lo, hi);
    }
  }

  lemma SliceEdges<T>(items: seq<T>, lo: nat, hi: nat)
    requires lo <= hi <= |items|
    ensures Connect(items[lo..hi], |items|, lo).edges == Between(items, lo, hi)
    ensures Connect(items[lo..hi], |items|, lo).totalCount == |items|
  {
    hide EncodeCursor, Wrap;
    var rows := items[lo..hi];
    forall i | 0 <= i < |rows| ensures Edges(rows, lo)[i] == Edges(items, 0)[lo + i] {
      assert 0 + (lo + i) == lo + i;
    }
  }

  /** Two intervals of a list of edges are equal lists exactly when they are the same interval, or both empty. */
  lemma RangesDiffer<T>(items: seq<T>, lo: nat, hi: nat, lo': nat, hi': nat)
    requires lo <= hi <= |items| <= MAX_INT && lo' <= hi' <= |items|
    ensures Between(items, lo, hi) == Between(items, lo', hi') <==> (lo == lo' && hi == hi') || (lo == hi && lo' == hi')
  {
    assert |Between(items, lo, hi)| == hi - lo && |Between(items, lo', hi')| == hi' - lo';
    if lo < hi && lo' < hi' {
      assert Between(items, lo, hi)[0] == Edges(items, 0)[lo] && Between(items, lo', hi')[0] == Edges(items, 0)[lo'];
      WrapIsIdentity(lo);
      WrapIsIdentity(lo');
      CursorsInjective(lo, lo');
    }
  }

  lemma SameRangeIff(p: Params, n: nat)
    requires Validate(p).None? && Limit(p) >= 0 && !Unsliceable(p)
    ensures PlainWindow(p, n).offset >= 0
    ensures var spec, window := SpecRange(p, n), WindowRange(PlainWindow(p, n), n);
            spec == window || (spec.0 == spec.1 && window.0 == window.1) <==> Meets(p, n)
  {
    hide Position, EncodeCursor;
  }

  /**
   For all valid requests whose cursors decode, whoever made them, and all lists: the request fails exactly
   when its numbers lead out of range, and otherwise returns the specification's edges exactly when it
   meets the condition.
   */
  lemma OffsetFormMeetsSpec<T>(items: seq<T>, p: Params)
    requires Validate(p).None? && |items| <= MAX_INT && Decodes(p.after) && Decodes(p.before) && Limit(p) <= MAX_INT
    ensures Fetch(items, p).None? <==> Unsliceable(p)
    ensures Fetch(items, p).Some? ==> Fetch(items, p).value.totalCount == |items|
    ensures Fetch(items, p).Some? ==> (Some(Fetch(items, p).value.edges) == SpecAnswer(items, p) <==> Meets(p, |items|))
  {
    hide SpecRange, WindowRange, PlainWindow, Between, Meets, Fetch, SpecAnswer, Position, EncodeCursor, DecodeCursor, Unsliceable, Decodes;
    SliceOf(items, p);
    if !Unsliceable(p) {
      SpecIsRange(items, p);
      LimitIsNatural(p);
      SameRangeIff(p, |items|);
      var spec, window := SpecRange(p, |items|), WindowRange(PlainWindow(p, |items|), |items|);
      RangesDiffer(items, window.0, window.1, spec.0, spec.1);
    }
  }

  /** On a page with edges the two flags say exactly whether the list goes on after and before it. */
  lemma PageInfoExact<T>(items: seq<T>, lo: nat, hi: nat)
    requires lo <= hi <= |items| <= MAX_INT
    ensures var c := Connect(items[lo..hi], |items|, lo);
            && |c.edges| == hi - lo && c.totalCount == |items|
            && (c.pageInfo.hasNextPage <==> c.edges != [] && items[hi..] != [])
            && (c.pageInfo.hasPreviousPage <==> c.edges != [] && items[..lo] != [])
            && (c.edges != [] ==> c.pageInfo.startCursor == Some(EncodeCursor(lo)) && c.pageInfo.endCursor == Some(EncodeCursor(hi - 1)))
            && (c.edges == [] ==> c.pageInfo == PageInfo(false, false, None, None))
  {
    hide EncodeCursor, Wrap;
    if lo < hi {
      WrapIsIdentity(hi);
      WrapIsIdentity(lo);
      WrapIsIdentity(hi - 1);
      assert lo + 0 == lo && lo + (hi - lo) == hi && lo + (hi - lo - 1) == hi - 1;
    }
  }

  function FirstAfter(size: nat, cursor: Bytes): Params { Params(Some(size), Some(cursor), None, None) }

  function LastBefore(size: nat, cursor: Bytes): Params { Params(None, None, Some(size), Some(cursor)) }

  /** The answer is the page of these positions. */
  ghost predicate IsPage<T>(items: seq<T>, page: Option<Connection<T>>, lo: nat, hi: nat)
    requires lo <= hi <= |items|
  {
    page.Some? && page.value.edges == Between(items, lo, hi)
  }

  lemma WindowAround(k: nat, size: nat, n: nat)
    requires k < n <= MAX_INT && size <= MAX_INT
    ensures var p := FirstAfter(size, EncodeCursor(k));
            && Validate(p).None? && Decodes(p.after) && Decodes(p.before) && Limit(p) == size
            && PlainWindow(p, n) == Window(k + 1, size) && (Unsliceable(p) <==> k + 1 + size > MAX_INT)
    ensures var p := LastBefore(size, EncodeCursor(k));
            && Validate(p).None? && Decodes(p.after) && Decodes(p.before) && Limit(p) == size
            && PlainWindow(p, n) == Window(MaxInt(k - size, 0), size) && !Unsliceable(p)
  {
    hide EncodeCursor, DecodeCursor;
    CursorRoundTrip(k);
  }

  lemma NextPage<T>(items: seq<T>, k: nat, size: nat)
    requires k < |items| <= MAX_INT && size <= MAX_INT
    ensures if k + 1 + size <= MAX_INT then IsPage(items, Fetch(items, FirstAfter(size, EncodeCursor(k))), k + 1, MinInt(k + 1 + size, |items|))
            else Fetch(items, FirstAfter(size, EncodeCursor(k))) == None
  {
    hide EncodeCursor, Fetch, Between, Connect, PlainWindow, Validate, Decodes, Limit, Unsliceable, FirstAfter, LastBefore;
    WindowAround(k, size, |items|);
    SliceOf(items, FirstAfter(size, EncodeCursor(k)));
  }

  lemma PreviousPage<T>(items: seq<T>, k: nat, size: nat)
    requires k < |items| <= MAX_INT && size <= MAX_INT
    ensures var start := MaxInt(k - size, 0);
            IsPage(items, Fetch(items, LastBefore(size, EncodeCursor(k))), start, MinInt(start + size, |items|))
  {
    hide EncodeCursor, Fetch, Between, Connect, PlainWindow, Validate, Decodes, Limit, Unsliceable, FirstAfter, LastBefore;
    WindowAround(k, size, |items|);
    SliceOf(items, LastBefore(size, EncodeCursor(k)));
  }

  /**
   Every edge of the list, and so of any page, carries a cursor that is good for a next request: the page
   before it never fails and ends right before the edge as far as there is room for a whole page, and the
   page after it starts right behind the edge and fails only for a size that leads past the largest integer.
   */
  lemma EdgeCursorsContinue<T>(items: seq<T>, k: nat, size: nat)
    requires k < |items| <= MAX_INT && size <= MAX_INT
    ensures Edges(items, 0)[k].cursor == EncodeCursor(k)
    ensures if k + 1 + size <= MAX_INT then IsPage(items, Fetch(items, FirstAfter(size, EncodeCursor(k))), k + 1, MinInt(k + 1 + size, |items|))
            else Fetch(items, FirstAfter(size, EncodeCursor(k))) == None
    ensures var start := MaxInt(k - size, 0);
            IsPage(items, Fetch(items, LastBefore(size, EncodeCursor(k))), start, MinInt(start + size, |items|))
  {
    hide EncodeCursor, Fetch, Wrap, IsPage, FirstAfter, LastBefore;
    WrapIsIdentity(k);
    assert Edges(items, 0)[k].cursor == EncodeCursor(Wrap(0 + k));
    NextPage(items, k, size);
    PreviousPage(items, k, size);
  }
}
