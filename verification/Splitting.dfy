/**
 The chunked run of a file, spelled out: the items of the whole run with every large key cut into
 pieces of the limit's size.
 */
module Splitting {
  import opened Common
  import opened Types
  import opened Machine
  import opened Chunking
  import Summary
  import Wire

  /** The elements `from..to` of a plain collection. */
  function Slice(v: RdbValue, from: nat, to: nat): RdbValue
    requires from <= to <= v.Size()
  {
    match v
    case List(xs) => List(xs[from..to])
    case Set(xs) => Set(xs[from..to])
    case SortedSet(xs) => SortedSet(xs[from..to])
    case Hash(xs) => Hash(xs[from..to])
    case _ => v
  }

  /** A chunk of a key: a slice, with where it starts and how many elements the key has. */
  function Piece(e: RdbEntry, from: nat, to: nat): RdbEntry
    requires from <= to <= e.value.Size()
  {
    e.(value := Slice(e.value, from, to), totalElements := Some(e.value.Size()), elementOffset := Some(from))
  }

  function End(m: nat, e: RdbEntry, from: nat): (to: nat)
    requires m > 0 && from < e.value.Size()
    ensures from < to <= e.value.Size()
  {
    if from + m < e.value.Size() then from + m else e.value.Size()
  }

  /** Pieces of `m` elements from `from` on; the last may be smaller. */
  function Pieces(m: nat, e: RdbEntry, from: nat): seq<Item>
    requires m > 0 && from <= e.value.Size()
    decreases e.value.Size() - from
  {
    if from == e.value.Size() then [] else [Got(Piece(e, from, End(m, e, from)))] + Pieces(m, e, End(m, e, from))
  }

  /** One item of the whole run, as the chunked run has it. */
  function Split(m: nat, x: Item): seq<Item>
    requires m > 0
  {
    if x.Got? && Large(m, x.entry) then Pieces(m, x.entry, 0) else [x]
  }

  function SplitAll(m: nat, items: seq<Item>): seq<Item>
    requires m > 0
  {
    if items == [] then [] else Split(m, items[0]) + SplitAll(m, items[1..])
  }

  lemma {:induction false} SplitFirst(m: nat, x: Item, rest: seq<Item>)
    requires m > 0
    ensures SplitAll(m, [x] + rest) == Split(m, x) + SplitAll(m, rest)
  {
    assert ([x] + rest)[1..] == rest;
  }

  /** `g` is the whole key of which `a` is the part read so far. */
  predicate WholeOf(m: nat, g: RdbEntry, a: RdbEntry) {
    && Large(m, g) && g.totalElements.None? && g.elementOffset.None?
    && SameKind(a.value, g.value) && a.value.Size() <= g.value.Size() && a.value == Slice(g.value, 0, a.value.Size())
    && a.(value := g.value) == g.(totalElements := Some(g.value.Size()))
  }

  lemma JoinSlices(v: RdbValue, a: RdbValue, b: RdbValue)
    requires SameKind(a, b) && SameKind(a, v)
    requires a.Size() + b.Size() <= v.Size() && Append(a, b) == Slice(v, 0, a.Size() + b.Size())
    ensures a == Slice(v, 0, a.Size()) && b == Slice(v, a.Size(), a.Size() + b.Size())
  {
    var n := a.Size();
    match (a, b, v) {
      case (List(x), List(y), List(z)) => assert x == (x + y)[..n] && y == (x + y)[n..];
      case (Set(x), Set(y), Set(z)) => assert x == (x + y)[..n] && y == (x + y)[n..];
      case (SortedSet(x), SortedSet(y), SortedSet(z)) => assert x == (x + y)[..n] && y == (x + y)[n..];
      case (Hash(x), Hash(y), Hash(z)) => assert x == (x + y)[..n] && y == (x + y)[n..];
    }
  }

  /** A chunk that follows the part `a` is the next piece of the whole key. */
  lemma NextPiece(m: nat, g: RdbEntry, a: RdbEntry, e: RdbEntry)
    requires m > 0 && Continues(m, Some(a), e) && a.value.Size() < g.value.Size() && WholeOf(m, g, Join(Some(a), e))
    ensures WholeOf(m, g, a)
    ensures var n := a.value.Size();
            e == Piece(g, n, End(m, g, n)) && End(m, g, n) == Join(Some(a), e).value.Size()
  {
    Summary.SizesAdd(a.value, e.value);
    JoinSlices(g.value, a.value, e.value);
  }

  lemma FirstPiece(m: nat, g: RdbEntry, e: RdbEntry)
    requires m > 0 && Continues(m, None, e) && WholeOf(m, g, Join(None, e))
    ensures e == Piece(g, 0, End(m, g, 0)) && End(m, g, 0) == e.value.Size()
  {}

  lemma AllOf(v: RdbValue)
    ensures Slice(v, 0, v.Size()) == v
  {}

  lemma CompleteWhole(m: nat, a: RdbEntry, e: RdbEntry)
    requires Continues(m, Some(a), e) && a.elementOffset.None? && a.totalElements == e.totalElements
    requires Join(Some(a), e).value.Size() >= e.totalElements.value
    ensures WholeOf(m, Complete(Join(Some(a), e)), Join(Some(a), e))
  {
    Summary.SizesAdd(a.value, e.value);
    AllOf(Join(Some(a), e).value);
  }

  lemma StartsLater(m: nat, a: RdbEntry, e: RdbEntry)
    requires Continues(m, Some(a), e)
    ensures Join(Some(a), e).value.Size() == a.value.Size() + e.value.Size() > a.value.Size()
    ensures Join(Some(a), e).elementOffset == a.elementOffset && Join(Some(a), e).totalElements == a.totalElements
  {
    Summary.SizesAdd(a.value, e.value);
  }

  /** Inside a key: the first merged item is the whole of it, and the chunks to come are its remaining
      pieces, followed by the rest of the run, cut in the same way. */
  ghost predicate Follows(m: nat, a: RdbEntry, items: seq<Item>, merged: seq<Item>)
    requires m > 0
  {
    && merged != [] && merged[0].Got? && WholeOf(m, merged[0].entry, a) && a.value.Size() < merged[0].entry.value.Size()
    && items == Pieces(m, merged[0].entry, a.value.Size()) + SplitAll(m, merged[1..])
  }

  lemma {:induction false} LastPiece(m: nat, a: RdbEntry, e: RdbEntry, rest: seq<Item>, merged: seq<Item>)
    requires m > 0 && Continues(m, Some(a), e) && a.elementOffset.None? && a.totalElements == e.totalElements
    requires Join(Some(a), e).value.Size() >= e.totalElements.value && rest == SplitAll(m, merged)
    ensures Follows(m, a, [Got(e)] + rest, [Got(Complete(Join(Some(a), e)))] + merged)
  {
    hide SplitAll, Piece, End, Continues, WholeOf, Join, Complete;
    var g := Complete(Join(Some(a), e));
    CompleteWhole(m, a, e);
    StartsLater(m, a, e);
    CompleteSize(Join(Some(a), e));
    NextPiece(m, g, a, e);
    assert ([Got(g)] + merged)[1..] == merged;
    assert Pieces(m, g, g.value.Size()) == [];
    assert Pieces(m, g, a.value.Size()) == [Got(e)];
  }

  lemma CompleteSize(a: RdbEntry)
    ensures Complete(a).value == a.value
  {}

  lemma MiddlePiece(m: nat, a: RdbEntry, e: RdbEntry, rest: seq<Item>, merged: seq<Item>)
    requires m > 0 && Continues(m, Some(a), e) && Follows(m, Join(Some(a), e), rest, merged)
    ensures Follows(m, a, [Got(e)] + rest, merged)
  {
    hide SplitAll, Piece, End, Continues, WholeOf, Join;
    var g := merged[0].entry;
    StartsLater(m, a, e);
    NextPiece(m, g, a, e);
    var n := a.value.Size();
    assert Pieces(m, g, n) == [Got(e)] + Pieces(m, g, Join(Some(a), e).value.Size());
    assert ([Got(e)] + Pieces(m, g, Join(Some(a), e).value.Size())) + SplitAll(m, merged[1..])
        == [Got(e)] + (Pieces(m, g, Join(Some(a), e).value.Size()) + SplitAll(m, merged[1..]));
  }

  lemma {:induction false} OpeningPiece(m: nat, e: RdbEntry, rest: seq<Item>, merged: seq<Item>)
    requires m > 0 && Continues(m, None, e) && Follows(m, Join(None, e), rest, merged)
    ensures [Got(e)] + rest == SplitAll(m, merged)
  {
    hide SplitAll, Piece, End, Continues, WholeOf, Large, RdbValue.Size;
    var g := merged[0].entry;
    FirstPiece(m, g, e);
    LargeOf(m, g, Join(None, e));
    assert merged == [Got(g)] + merged[1..];
    SplitFirst(m, Got(g), merged[1..]);
    var later, rests := Pieces(m, g, e.value.Size()), SplitAll(m, merged[1..]);
    assert Pieces(m, g, 0) == [Got(e)] + later;
    hide Pieces;
    assert ([Got(e)] + later) + rests == [Got(e)] + (later + rests);
  }

  lemma LargeOf(m: nat, g: RdbEntry, a: RdbEntry)
    requires WholeOf(m, g, a)
    ensures Large(m, g) && g.value.Size() > 0
  {}

  lemma {:induction false} ChunksAreSplit(m: nat, pending: Option<RdbEntry>, items: seq<Item>)
    requires m > 0 && WellChunked(m, pending, items) && Summary.FirstError(items).None?
    requires pending.Some? ==> pending.value.elementOffset.None?
    ensures var merged := Merge(pending, items);
            if pending.None? then items == SplitAll(m, merged) else Follows(m, pending.value, items, merged)
    decreases |items|
  {
    hide Continues, Join, Complete, Follows, SplitAll, Large;
    if items == [] {
      NothingSplit(m);
    } else {
      var x, rest := items[0], items[1..];
      assert items == [x] + rest;
      if x.Err? {
        ChunksAreSplit(m, None, rest);
        SplitFirst(m, x, Merge(None, rest));
      } else if x.entry.totalElements.None? {
        ChunksAreSplit(m, None, rest);
        SplitFirst(m, x, Merge(None, rest));
      } else {
        var e := x.entry;
        var j := Join(pending, e);
        if pending.None? {
          StartsShort(m, e);
          ChunksAreSplit(m, Some(j), rest);
          OpeningPiece(m, e, rest, Merge(Some(j), rest));
        } else {
          var a := pending.value;
          StartsLater(m, a, e);
          SameTotal(m, a, e);
          if j.value.Size() >= e.totalElements.value {
            ChunksAreSplit(m, None, rest);
            LastPiece(m, a, e, rest, Merge(None, rest));
          } else {
            ChunksAreSplit(m, Some(j), rest);
            MiddlePiece(m, a, e, rest, Merge(Some(j), rest));
          }
        }
      }
    }
  }

  lemma SameTotal(m: nat, a: RdbEntry, e: RdbEntry)
    requires Continues(m, Some(a), e)
    ensures a.totalElements == e.totalElements && e.totalElements.Some?
  {}

  lemma StartsShort(m: nat, e: RdbEntry)
    requires Continues(m, None, e)
    ensures var j := Join(None, e);
            j.elementOffset.None? && j.value.Size() < e.totalElements.value
  {}

  lemma {:induction false} NothingSplit(m: nat)
    requires m > 0
    ensures SplitAll(m, []) == []
  {}

  // ----- runs that end in an error -----

  /** Chunks of one key, each continuing those before it, that do not complete the key. */
  ghost predicate Unfinished(m: nat, pending: Option<RdbEntry>, part: seq<Item>)
    decreases |part|
  {
    part != [] ==>
      && part[0].Got? && Continues(m, pending, part[0].entry)
      && var j := Join(pending, part[0].entry);
         j.value.Size() < part[0].entry.totalElements.value && Unfinished(m, Some(j), part[1..])
  }

  /** The only error that is not recoverable is the last item. */
  predicate EndsInError(items: seq<Item>) {
    items != [] && var last := items[|items| - 1];
                   last.Err? && !last.error.UnknownType? && Summary.FirstError(items[..|items| - 1]).None?
  }

  lemma {:induction false} ErrorLater(x: Item, rest: seq<Item>)
    requires x.Got? || x.error.UnknownType?
    ensures Summary.FirstError([x] + rest) == Summary.FirstError(rest)
    ensures EndsInError(rest) ==> EndsInError([x] + rest)
  {
    var all := [x] + rest;
    assert all[1..] == rest;
    if rest != [] {
      var front := all[..|all| - 1];
      assert front == [x] + rest[..|rest| - 1];
      assert front[1..] == rest[..|rest| - 1];
    }
  }

  lemma ErrorOnly(e: RdbError)
    requires !e.UnknownType?
    ensures EndsInError([Err(e)])
  {
    assert [Err(e)][..0] == [];
  }

  /** A run has at most one error that is not recoverable, as its last item. */
  lemma {:induction false} RunEndsInError(cfg: Config, d: Bytes, s: State)
    requires s.pos <= |d| && (s.finished || Valid(cfg, d, s))
    ensures var items := Run(cfg, d, s).items; Summary.FirstError(items).Some? ==> EndsInError(items)
    decreases if s.finished then 0 else 1, Unread(d, s)
  {
    hide NextInner, EndsInError;
    if !s.finished {
      var (reply, s1) := Next(cfg, d, s);
      RunEndsInError(cfg, d, s1);
      if reply.Yield? {
        var x := reply.item;
        if x.Err? && !x.error.UnknownType? {
          ErrorOnly(x.error);
          assert [x] + [] == [Err(x.error)];
        } else {
          ErrorLater(x, Run(cfg, d, s1).items);
        }
      }
    }
  }

  /** The key that is incomplete after one more item, and what the item completes. */
  function NextPending(pending: Option<RdbEntry>, x: Item): Option<RdbEntry> {
    if x.Err? || x.entry.totalElements.None? then None
    else
      var a := Join(pending, x.entry);
      if a.value.Size() >= x.entry.totalElements.value then None else Some(a)
  }

  function Completed(pending: Option<RdbEntry>, x: Item): seq<Item> {
    if x.Err? || x.entry.totalElements.None? then [x]
    else
      var a := Join(pending, x.entry);
      if a.value.Size() >= x.entry.totalElements.value then [Got(Complete(a))] else []
  }

  predicate Follow(m: nat, pending: Option<RdbEntry>, x: Item) {
    if x.Err? then pending.Some? ==> Wire.Terminal(x.error)
    else if x.entry.totalElements.None? then pending.None? && Unchunked(m, x.entry)
    else Continues(m, pending, x.entry)
  }

  lemma {:induction false} MergeFront(pending: Option<RdbEntry>, x: Item, rest: seq<Item>)
    ensures Merge(pending, [x] + rest) == Completed(pending, x) + Merge(NextPending(pending, x), rest)
  {
    hide Join, Complete;
    assert ([x] + rest)[1..] == rest;
  }

  lemma {:induction false} ChunkedFront(m: nat, pending: Option<RdbEntry>, x: Item, rest: seq<Item>)
    ensures WellChunked(m, pending, [x] + rest) <==>
              Follow(m, pending, x) && WellChunked(m, NextPending(pending, x), rest)
  {
    hide Join, Continues, Unchunked;
    assert ([x] + rest)[1..] == rest;
  }

  lemma {:induction false} NoErrorFront(x: Item, rest: seq<Item>)
    ensures Summary.FirstError([x] + rest).None? <==>
              (x.Err? ==> x.error.UnknownType?) && Summary.FirstError(rest).None?
  {
    assert ([x] + rest)[1..] == rest;
  }

  lemma {:induction false} NothingRead(m: nat, pending: Option<RdbEntry>)
    ensures Merge(pending, []) == [] && (WellChunked(m, pending, []) <==> pending.None?) && Unfinished(m, pending, [])
    ensures Summary.FirstError([]).None?
  {}

  lemma {:induction false} ErrorMerges(pending: Option<RdbEntry>, x: RdbError)
    ensures Merge(pending, [Err(x)]) == [Err(x)]
  {
    assert [Err(x)][1..] == [];
  }

  /** The first `n` items are read to their end, and an unfinished key follows. */
  ghost predicate CutAt(m: nat, pending: Option<RdbEntry>, front: seq<Item>, n: nat) {
    && n <= |front| && WellChunked(m, pending, front[..n]) && Unfinished(m, None, front[n..])
    && Summary.FirstError(front[..n]).None?
  }

  lemma CutLater(m: nat, pending: Option<RdbEntry>, y: Item, rest: seq<Item>, n: nat, x: RdbError)
    requires Follow(m, pending, y) && (y.Err? ==> y.error.UnknownType?)
    requires var next := NextPending(pending, y);
             CutAt(m, next, rest, n) && Merge(next, rest + [Err(x)]) == Merge(next, rest[..n]) + [Err(x)]
    ensures var front := [y] + rest;
            && CutAt(m, pending, front, n + 1)
            && Merge(pending, front + [Err(x)]) == Merge(pending, front[..n + 1]) + [Err(x)]
  {
    hide Merge, WellChunked, Unfinished, Summary.FirstError, NextPending, Completed, Follow;
    var front := [y] + rest;
    assert front[..n + 1] == [y] + rest[..n] && front[n + 1..] == rest[n..];
    assert front + [Err(x)] == [y] + (rest + [Err(x)]);
    ChunkedFront(m, pending, y, rest[..n]);
    MergeFront(pending, y, rest[..n]);
    MergeFront(pending, y, rest + [Err(x)]);
    NoErrorFront(y, rest[..n]);
    var done, later := Completed(pending, y), Merge(NextPending(pending, y), rest[..n]);
    assert done + (later + [Err(x)]) == (done + later) + [Err(x)];
  }

  lemma {:induction false} CutNever(m: nat, pending: Option<RdbEntry>, y: Item, rest: seq<Item>, x: RdbError)
    requires Follow(m, pending, y) && NextPending(pending, y).Some?
    requires Unfinished(m, NextPending(pending, y), rest) && Merge(NextPending(pending, y), rest + [Err(x)]) == [Err(x)]
    ensures Unfinished(m, pending, [y] + rest) && Merge(pending, ([y] + rest) + [Err(x)]) == [Err(x)]
  {
    hide Merge, WellChunked, Continues, Join;
    assert ([y] + rest)[1..] == rest;
    assert ([y] + rest) + [Err(x)] == [y] + (rest + [Err(x)]);
    MergeFront(pending, y, rest + [Err(x)]);
    assert [] + [Err(x)] == [Err(x)];
  }

  /** Where the key that the error cut off begins; `found` when the key read at the start is not it. */
  lemma {:induction false} CutPoint(m: nat, pending: Option<RdbEntry>, front: seq<Item>, x: RdbError)
      returns (found: bool, n: nat)
    requires WellChunked(m, pending, front + [Err(x)]) && Summary.FirstError(front).None? && !x.UnknownType?
    ensures pending.None? ==> found
    ensures if found then
              CutAt(m, pending, front, n) && Merge(pending, front + [Err(x)]) == Merge(pending, front[..n]) + [Err(x)]
            else Unfinished(m, pending, front) && Merge(pending, front + [Err(x)]) == [Err(x)]
    decreases |front|
  {
    hide Merge, WellChunked, Unfinished, Summary.FirstError, NextPending, Completed, Follow;
    found, n := pending.None?, 0;
    NothingRead(m, pending);
    assert front[..0] == [] && front[0..] == front;
    assert [] + [Err(x)] == [Err(x)];
    if front == [] {
      ErrorMerges(pending, x);
    } else {
      var y, rest := front[0], front[1..];
      assert front == [y] + rest;
      assert front + [Err(x)] == [y] + (rest + [Err(x)]);
      ChunkedFront(m, pending, y, rest + [Err(x)]);
      NoErrorFront(y, rest);
      var later, k := CutPoint(m, NextPending(pending, y), rest, x);
      if later {
        CutLater(m, pending, y, rest, k, x);
        found, n := true, k + 1;
      } else {
        CutNever(m, pending, y, rest, x);
      }
    }
  }

  /** For every file, under every limit: the chunked run is the whole run with each large key cut into
      its pieces, in place and in order; and when the whole run ends in an error, the chunks of the key
      that the error cut off, if any, come just before it. */
  lemma ChunkedRunIsSplit(cfg: Config, m: nat, d: Bytes, s: State) returns (part: seq<Item>)
    requires m > 0 && Valid(Limited(cfg, m), d, s) && s.chunked.None? && !s.finished
    ensures Unfinished(m, None, part)
    ensures var chunked, whole := Run(Limited(cfg, m), d, s).items, Run(Whole(cfg), d, s).items;
            if Summary.FirstError(whole).None? then part == [] && chunked == SplitAll(m, whole)
            else
              && EndsInError(whole)
              && var good, last := whole[..|whole| - 1], whole[|whole| - 1];
                 chunked == SplitAll(m, good) + part + [last]
  {
    hide Run, Merge, WellChunked, Summary.FirstError, SplitAll, EndsInError, Unfinished;
    var chunked, whole := Run(Limited(cfg, m), d, s).items, Run(Whole(cfg), d, s).items;
    Refines(cfg, m, d, s);
    Summary.SameFirstError(m, None, chunked);
    if Summary.FirstError(whole).None? {
      ChunksAreSplit(m, None, chunked);
      part := [];
      NoPart(m);
    } else {
      RunEndsInError(Limited(cfg, m), d, s);
      RunEndsInError(Whole(cfg), d, s);
      part := CutRun(m, chunked);
    }
  }

  lemma {:induction false} NoPart(m: nat)
    ensures Unfinished(m, None, [])
  {}

  lemma CutRun(m: nat, chunked: seq<Item>) returns (part: seq<Item>)
    requires m > 0 && WellChunked(m, None, chunked) && EndsInError(chunked)
    ensures Unfinished(m, None, part)
    ensures var whole := Merge(None, chunked);
            whole != [] && chunked == SplitAll(m, whole[..|whole| - 1]) + part + [whole[|whole| - 1]]
  {
    hide Merge, WellChunked, SplitAll, Unfinished, Summary.FirstError;
    var front, x := chunked[..|chunked| - 1], chunked[|chunked| - 1].error;
    assert chunked == front + [Err(x)];
    var _, n := CutPoint(m, None, front, x);
    part := front[n..];
    ChunksAreSplit(m, None, front[..n]);
    var whole := Merge(None, chunked);
    assert whole[..|whole| - 1] == Merge(None, front[..n]) && whole[|whole| - 1] == Err(x);
    assert chunked == front[..n] + front[n..] + [Err(x)];
  }
}
