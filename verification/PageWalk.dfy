/** A client that walks a whole list of pkg/relay/pagination.go page by page, in either direction. */
module PageWalk {
  import opened Prelude
  import opened Decimal
  import opened RelayPagination

  function Nodes<T>(c: Connection<T>): (r: seq<T>)
    ensures |r| == |c.edges|
  {
    seq(|c.edges|, i requires 0 <= i < |c.edges| => c.edges[i].node)
  }

  /** The cursor just before position start, absent at the very front. */
  function CursorBefore(start: nat): Option<Bytes> { if start == 0 then None else Some(EncodeCursor(start - 1)) }

  /** The cursor at position stop of n, absent at the very end. */
  function CursorAt(stop: nat, n: nat): Option<Bytes> { if stop == n then None else Some(EncodeCursor(stop)) }

  function ForwardRequest(size: nat, after: Option<Bytes>): Params { Params(Some(size), after, None, None) }

  function BackwardRequest(size: nat, before: Option<Bytes>): Params { Params(None, None, Some(size), before) }

  /** What a client takes from one page: its nodes, and the cursors by which it may go on. */
  datatype Sight<T> = Sight(nodes: seq<T>, back: Option<Bytes>, forth: Option<Bytes>)

  function See<T>(items: seq<T>, p: Params): Option<Sight<T>> {
    match Fetch(items, p)
    case None => None
    case Some(page) =>
      Some(Sight(Nodes(page),
                 if page.pageInfo.hasPreviousPage then page.pageInfo.startCursor else None,
                 if page.pageInfo.hasNextPage then page.pageInfo.endCursor else None))
  }

  /** The pages seen by following EndCursor while HasNextPage; at most `fuel` of them. */
  function ForwardWalk<T>(items: seq<T>, size: nat, after: Option<Bytes>, fuel: nat): seq<seq<T>>
    decreases fuel
  {
    var sight := See(items, ForwardRequest(size, after));
    if fuel == 0 || sight.None? || sight.value.nodes == [] then []
    else [sight.value.nodes] + if sight.value.forth.Some? then ForwardWalk(items, size, sight.value.forth, fuel - 1) else []
  }

  /** The pages seen by following StartCursor while HasPreviousPage; at most `fuel` of them. */
  function BackwardWalk<T>(items: seq<T>, size: nat, before: Option<Bytes>, fuel: nat): seq<seq<T>>
    decreases fuel
  {
    var sight := See(items, BackwardRequest(size, before));
    if fuel == 0 || sight.None? || sight.value.nodes == [] then []
    else [sight.value.nodes] + if sight.value.back.Some? then BackwardWalk(items, size, sight.value.back, fuel - 1) else []
  }

  // ----- The walks as plain cuts of the list -----

  function Chunks<T>(s: seq<T>, start: nat, size: nat): seq<seq<T>>
    requires size > 0 && start <= |s|
    decreases |s| - start
  {
    var stop := MinInt(start + size, |s|);
    if start == stop then [] else [s[start..stop]] + Chunks(s, stop, size)
  }

  /** Cuts of s[..stop] from the back; the last one, at the front, is still `size` long when it can be. */
  function BackChunks<T>(s: seq<T>, stop: nat, size: nat): seq<seq<T>>
    requires size > 0 && stop <= |s|
  {
    if stop == 0 then []
    else if stop <= size then [s[..MinInt(size, |s|)]]
    else [s[stop - size..stop]] + BackChunks(s, stop - size, size)
  }

  lemma NodesOfSlice<T>(items: seq<T>, lo: nat, hi: nat)
    requires lo <= hi <= |items|
    ensures Nodes(Connect(items[lo..hi], |items|, lo)) == items[lo..hi]
  {
    hide EncodeCursor, Wrap;
  }

  lemma ForwardWindow(n: nat, size: nat, start: nat)
    requires 0 < size <= MAX_INT && start <= n <= MAX_INT
    ensures var p := ForwardRequest(size, CursorBefore(start));
            && Decodes(p.after) && Decodes(p.before) && Validate(p).None? && Limit(p) == size && PlainWindow(p, n) == Window(start, size)
            && (Unsliceable(p) <==> start + size > MAX_INT)
  {
    hide EncodeCursor, DecodeCursor;
    if start > 0 { CursorRoundTrip(start - 1); }
  }

  lemma BackwardWindow(n: nat, size: nat, stop: nat)
    requires 0 < size <= MAX_INT && stop <= n <= MAX_INT
    ensures var p := BackwardRequest(size, CursorAt(stop, n));
            && Decodes(p.after) && Decodes(p.before) && Validate(p).None? && Limit(p) == size && !Unsliceable(p)
            && PlainWindow(p, n) == Window(MaxInt(stop - size, 0), size)
  {
    hide EncodeCursor, DecodeCursor;
    if stop < n { CursorRoundTrip(stop); }
  }

  /** What the client sees of one page, whatever request led to this window. */
  lemma PageOfWindow<T>(items: seq<T>, p: Params, w: Window)
    requires Decodes(p.after) && Decodes(p.before) && Validate(p).None? && PlainWindow(p, |items|) == w
    requires 0 <= w.offset <= |items| <= MAX_INT && 0 < w.limit == Limit(p) <= MAX_INT
    ensures var lo, hi := w.offset, MinInt(w.offset + w.limit, |items|);
            See(items, p) == if Unsliceable(p) then None
                             else Some(Sight(items[lo..hi],
                                             if 0 < lo < hi then Some(EncodeCursor(lo)) else None,
                                             if lo < hi < |items| then Some(EncodeCursor(hi - 1)) else None))
  {
    hide EncodeCursor, Fetch, Between, PlainWindow, Validate, Connect, Nodes, Decodes, Unsliceable;
    SliceOf(items, p);
    if !Unsliceable(p) {
      PageInfoExact(items, w.offset, MinInt(w.offset + w.limit, |items|));
      NodesOfSlice(items, w.offset, MinInt(w.offset + w.limit, |items|));
    }
  }

  lemma CursorNames(k: nat, n: nat)
    ensures k > 0 ==> CursorBefore(k) == Some(EncodeCursor(k - 1))
    ensures k < n ==> CursorAt(k, n) == Some(EncodeCursor(k))
  {
  }

  lemma ForwardStep<T>(items: seq<T>, size: nat, start: nat, fuel: nat)
    requires 0 < size <= MAX_INT && start <= |items| <= MAX_INT && fuel > 0
    ensures var stop := MinInt(start + size, |items|);
            ForwardWalk(items, size, CursorBefore(start), fuel)
              == if start == stop || start + size > MAX_INT then []
                 else [items[start..stop]] + if stop < |items| then ForwardWalk(items, size, CursorBefore(stop), fuel - 1) else []
  {
    hide See, EncodeCursor, Decodes, Validate, PlainWindow, CursorBefore, ForwardRequest, Unsliceable;
    ForwardWindow(|items|, size, start);
    PageOfWindow(items, ForwardRequest(size, CursorBefore(start)), Window(start, size));
    var stop := MinInt(start + size, |items|);
    CursorNames(stop, |items|);
  }

  lemma BackwardStep<T>(items: seq<T>, size: nat, stop: nat, fuel: nat)
    requires 0 < size <= MAX_INT && stop <= |items| <= MAX_INT && fuel > 0
    ensures var start := MaxInt(stop - size, 0);
            BackwardWalk(items, size, CursorAt(stop, |items|), fuel)
              == if items == [] then []
                 else
                   [items[start..MinInt(start + size, |items|)]]
                   + (if start > 0 then BackwardWalk(items, size, CursorAt(start, |items|), fuel - 1) else [])
  {
    hide See, EncodeCursor, Decodes, Validate, PlainWindow, CursorAt, BackwardRequest, Unsliceable;
    BackwardWindow(|items|, size, stop);
    var start := MaxInt(stop - size, 0);
    PageOfWindow(items, BackwardRequest(size, CursorAt(stop, |items|)), Window(start, size));
    CursorNames(start, |items|);
  }

  /** Where the last page of n items starts. */
  function LastStart(n: nat, size: nat): (start: nat)
    requires size > 0
    ensures n > 0 ==> start < n <= start + size
  {
    if n <= size then 0 else size + LastStart(n - size, size)
  }

  lemma {:induction false} ForwardIsChunks<T>(items: seq<T>, size: nat, start: nat, fuel: nat)
    requires 0 < size <= MAX_INT && start <= |items| <= MAX_INT && fuel > |items| - start
    requires start + LastStart(|items| - start, size) + size <= MAX_INT
    ensures ForwardWalk(items, size, CursorBefore(start), fuel) == Chunks(items, start, size)
    decreases fuel
  {
    hide ForwardWalk, CursorBefore, EncodeCursor, See;
    ForwardStep(items, size, start, fuel);
    var stop := MinInt(start + size, |items|);
    if start == stop || stop == |items| {
    } else {
      ForwardIsChunks(items, size, stop, fuel - 1);
    }
  }

  lemma {:induction false} ForwardStops<T>(items: seq<T>, size: nat, start: nat, fuel: nat)
    requires 0 < size <= MAX_INT && start < |items| <= MAX_INT && fuel > |items| - start
    requires start + LastStart(|items| - start, size) + size > MAX_INT
    ensures |Flatten(ForwardWalk(items, size, CursorBefore(start), fuel))| < |items| - start
    decreases fuel
  {
    hide ForwardWalk, CursorBefore, EncodeCursor, See, Flatten;
    ForwardStep(items, size, start, fuel);
    FlattenNothing<T>();
    if |items| - start <= size {
    } else {
      ForwardStops(items, size, start + size, fuel - 1);
      FlattenPrepend(items[start..start + size], ForwardWalk(items, size, CursorBefore(start + size), fuel - 1));
    }
  }

  lemma {:induction false} BackwardIsChunks<T>(items: seq<T>, size: nat, stop: nat, fuel: nat)
    requires 0 < size <= MAX_INT && stop <= |items| <= MAX_INT && (stop > 0 || items == []) && fuel > stop
    ensures BackwardWalk(items, size, CursorAt(stop, |items|), fuel) == BackChunks(items, stop, size)
    decreases fuel
  {
    hide BackwardWalk, CursorAt, EncodeCursor, See;
    BackwardStep(items, size, stop, fuel);
    if stop <= size {
    } else {
      BackwardIsChunks(items, size, stop - size, fuel - 1);
    }
  }

  // ----- What a whole walk covers -----

  /** How many items all pages but one hold when they are full. */
  function AllButOne(m: nat, size: nat): int { (m - 1) * size }

  /** The number m of pages of this size that n items fill: the last is neither empty nor too long. */
  ghost predicate Fills(n: nat, size: nat, m: nat) {
    if n == 0 then m == 0 else AllButOne(m, size) < n <= AllButOne(m, size) + size
  }

  lemma {:induction false} FlattenPrepend<T>(part: seq<T>, parts: seq<seq<T>>)
    ensures Flatten([part] + parts) == part + Flatten(parts)
  {
    hide Flatten;
    FlattenNothing<T>();
    if parts == [] {
      FlattenAppend([], part);
      assert [] + [part] == [part] + parts;
    } else {
      var n := |parts| - 1;
      FlattenPrepend(part, parts[..n]);
      FlattenAppend([part] + parts[..n], parts[n]);
      FlattenAppend(parts[..n], parts[n]);
      assert [part] + parts[..n] + [parts[n]] == [part] + parts;
      assert parts[..n] + [parts[n]] == parts;
    }
  }

  lemma {:induction false} ChunksCover<T>(s: seq<T>, start: nat, size: nat)
    requires size > 0 && start <= |s|
    ensures Flatten(Chunks(s, start, size)) == s[start..] && Fills(|s| - start, size, |Chunks(s, start, size)|)
    decreases |s| - start
  {
    var stop := MinInt(start + size, |s|);
    if start == stop {
    } else {
      ChunksCover(s, stop, size);
      FlattenPrepend(s[start..stop], Chunks(s, stop, size));
      assert s[start..stop] + s[stop..] == s[start..];
      if stop < |s| { OneMore(|s| - stop, size, |Chunks(s, stop, size)|); }
    }
  }

  lemma MorePages(m: nat, size: nat)
    ensures AllButOne(m + 1, size) == AllButOne(m, size) + size
    ensures AllButOne(1, size) == 0
  {
  }

  lemma OnePage(n: nat, size: nat)
    requires 0 < n <= size
    ensures Fills(n, size, 1) && AllButOne(1, size) == 0
  {
  }

  lemma OneMore(n: nat, size: nat, m: nat)
    requires n > 0 && size > 0 && Fills(n, size, m)
    ensures m > 0 && Fills(n + size, size, m + 1)
  {
    MorePages(m, size);
    MorePages(0, size);
  }

  /**
   Walking forward ends after ceil(n / size) pages, and they are the whole list, each item once, exactly
   when the last page does not lead past the largest integer; otherwise its request fails and the walk
   ends before it.
   */
  lemma ForwardWalkCoversOnce<T>(items: seq<T>, size: nat, fuel: nat)
    requires 0 < size <= MAX_INT && |items| <= MAX_INT && fuel > |items|
    ensures var pages := ForwardWalk(items, size, None, fuel);
            Flatten(pages) == items && Fills(|items|, size, |pages|) <==> LastStart(|items|, size) + size <= MAX_INT
  {
    hide ForwardWalk, Chunks, Fills, LastStart, Flatten;
    if LastStart(|items|, size) + size <= MAX_INT {
      ForwardIsChunks(items, size, 0, fuel);
      assert items[0..] == items;
      ChunksCover(items, 0, size);
    } else {
      EmptyLastStart(size);
      ForwardStops(items, size, 0, fuel);
    }
  }

  lemma EmptyLastStart(size: nat)
    requires size > 0
    ensures LastStart(0, size) == 0
  {
  }

  /** For lists up to half the largest integer, which no allocated slice exceeds, every page size will do. */
  lemma ForwardWalkOfSlices<T>(items: seq<T>, size: nat, fuel: nat)
    requires 0 < size <= MAX_INT && 2 * |items| <= MAX_INT && fuel > |items|
    ensures var pages := ForwardWalk(items, size, None, fuel);
            Flatten(pages) == items && Fills(|items|, size, |pages|)
  {
    hide ForwardWalk, Fills, Flatten;
    ForwardWalkCoversOnce(items, size, fuel);
  }

  /** The pages in list order: the walk visited them from the back. */
  function Reversed<T>(pages: seq<T>): (r: seq<T>)
    ensures |r| == |pages|
  {
    if pages == [] then [] else Reversed(pages[1..]) + [pages[0]]
  }

  lemma ReversedNothing<T>()
    ensures Reversed<T>([]) == []
  {
  }

  lemma ReversedPrepend<T>(page: T, rest: seq<T>)
    ensures Reversed([page] + rest) == Reversed(rest) + [page]
  {
    assert ([page] + rest)[1..] == rest;
  }

  /** All pages but the one nearest the front tile what follows the first short stretch; that one starts at the front. */
  lemma {:induction false} BackChunksCover<T>(s: seq<T>, stop: nat, size: nat) returns (front: nat)
    requires 0 < size && 0 < stop <= |s|
    ensures var pages := BackChunks(s, stop, size);
            && |pages| > 0 && Fills(stop, size, |pages|)
            && 0 < front <= size && front <= stop && (stop <= size ==> front == stop) && stop == AllButOne(|pages|, size) + front
            && pages[|pages| - 1] == s[..if stop <= size then MinInt(size, |s|) else size]
            && Flatten(Reversed(pages[..|pages| - 1])) == s[front..stop]
    decreases stop
  {
    hide AllButOne, Fills, Flatten, Reversed;
    var pages := BackChunks(s, stop, size);
    if stop <= size {
      front := stop;
      OnePage(stop, size);
      FlattenNothing<T>();
      ReversedNothing<seq<T>>();
      assert pages[..0] == [];
    } else {
      front := BackChunksCover(s, stop - size, size);
      var rest := BackChunks(s, stop - size, size);
      OneMore(stop - size, size, |rest|);
      MorePages(|rest|, size);
      assert pages[..|pages| - 1] == [s[stop - size..stop]] + rest[..|rest| - 1];
      BackPage(s, front, stop, size, rest[..|rest| - 1]);
    }
  }

  lemma BackPage<T>(s: seq<T>, front: nat, stop: nat, size: nat, rest: seq<seq<T>>)
    requires front <= stop - size && stop <= |s|
    requires Flatten(Reversed(rest)) == s[front..stop - size]
    ensures Flatten(Reversed([s[stop - size..stop]] + rest)) == s[front..stop]
  {
    hide Flatten, Reversed;
    var page := s[stop - size..stop];
    ReversedPrepend(page, rest);
    FlattenAppend(Reversed(rest), page);
    assert s[front..stop - size] + page == s[front..stop];
  }

  /**
   In list order the cuts are the first `size` items, then everything from position front on, where
   front is what the list leaves over after whole pages; so only the size - front items between are
   seen twice.
   */
  ghost predicate CoversBackward<T>(items: seq<T>, size: nat, pages: seq<seq<T>>) {
    var n, m := |items|, |pages|;
    var front := n - AllButOne(m, size);
    if n == 0 then pages == []
    else
      && m > 0 && 0 < front <= size && front <= n
      && pages[m - 1] == items[..MinInt(size, n)]
      && Flatten(Reversed(pages[..m - 1])) == items[front..]
      && |Flatten(pages)| == n + (if n <= size then 0 else size - front)
  }

  lemma BackChunksCoverAll<T>(s: seq<T>, size: nat)
    requires 0 < size
    ensures var pages := BackChunks(s, |s|, size);
            Fills(|s|, size, |pages|) && CoversBackward(s, size, pages)
  {
    hide Fills, AllButOne, Flatten, Reversed;
    NothingToCut(size);
    if s == [] { return; }
    var front := BackChunksCover(s, |s|, size);
    var pages := BackChunks(s, |s|, size);
    assert s[front..|s|] == s[front..];
    FlattenLength(pages);
  }

  lemma NothingToCut(size: nat)
    ensures Fills(0, size, 0)
  {
  }

  /** Walking backward also ends after ceil(n / size) pages, and they cover every item. */
  lemma BackwardWalkCovers<T>(items: seq<T>, size: nat, fuel: nat)
    requires 0 < size <= MAX_INT && |items| <= MAX_INT && fuel > |items|
    ensures var pages := BackwardWalk(items, size, None, fuel);
            Fills(|items|, size, |pages|) && CoversBackward(items, size, pages)
  {
    hide BackwardWalk, BackChunks, Fills, CoversBackward;
    BackwardIsChunks(items, size, |items|, fuel);
    BackChunksCoverAll(items, size);
  }

  lemma FlattenLength<T>(pages: seq<seq<T>>)
    requires pages != []
    ensures |Flatten(pages)| == |Flatten(Reversed(pages[..|pages| - 1]))| + |pages[|pages| - 1]|
  {
    SameLength(pages[..|pages| - 1]);
  }

  lemma {:induction false} SameLength<T>(pages: seq<seq<T>>)
    ensures |Flatten(Reversed(pages))| == |Flatten(pages)|
    decreases |pages|
  {
    if pages == [] {
    } else {
      SameLength(pages[1..]);
      FlattenAppend(Reversed(pages[1..]), pages[0]);
      FlattenPrepend(pages[0], pages[1..]);
      assert pages == [pages[0]] + pages[1..];
    }
  }
}
