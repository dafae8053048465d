/**
 A whole export: the table of every native type is the same whatever the reader's chunk limit and
 whatever the batch thresholds.
 */
module Export {
  import opened Common
  import opened Types
  import opened Schema
  import opened Builders
  import opened Machine
  import Batcher
  import Chunking
  import FileFormat
  import Reader
  import Splitting
  import Summary
  import Verdict
  import WholeFile

  // ----- the rows of one piece -----

  /** An entry as the reader without a limit yields it. */
  predicate Plainly(e: RdbEntry) { e.totalElements.None? && e.elementOffset.None? }

  /** A piece of a key has the rows that its elements have in the whole key. */
  lemma PieceRows(e: RdbEntry, from: nat, to: nat)
    requires Plainly(e) && from < to <= e.value.Size()
    ensures var p, tag := Splitting.Piece(e, from, to), TypeTagFor(e);
            && TypeTagFor(p) == tag && |RowsFor(tag, e)| == e.value.Size()
            && RowsFor(tag, p) == RowsFor(tag, e)[from..to]
  {
    hide ListRows, SetRows, ZSetRows, HashRows;
    var p := Splitting.Piece(e, from, to);
    match e.value {
      case List(xs) => ListPiece(e, p, xs, from, to);
      case Set(xs) => SetPiece(e, p, xs, from, to);
      case SortedSet(xs) => ZSetPiece(e, p, xs, from, to);
      case Hash(xs) => HashPiece(e, p, xs, from, to);
    }
  }

  lemma SameLine(e: RdbEntry, p: RdbEntry, n: nat, kind: string, own: seq<Cell>, bytes: nat)
    requires p == e.(value := p.value, totalElements := p.totalElements, elementOffset := p.elementOffset)
    ensures Line(p, n, kind, own, bytes) == Line(e, n, kind, own, bytes)
  {}

  lemma ListPiece(e: RdbEntry, p: RdbEntry, xs: seq<Bytes>, from: nat, to: nat)
    requires Plainly(e) && e.value == List(xs) && from < to <= |xs| && p == Splitting.Piece(e, from, to)
    ensures ListRows(p, xs[from..to]) == ListRows(e, xs)[from..to]
  {
    hide Line;
    forall i | 0 <= i < to - from
      ensures ListRows(p, xs[from..to])[i] == ListRows(e, xs)[from..to][i]
    {
      var x := xs[from + i];
      assert ListRows(p, xs[from..to])[i] == ListLine(p, to - from, i, x);
      assert ListRows(e, xs)[from..to][i] == ListLine(e, |xs|, from + i, x);
      SameLine(e, p, |xs|, TypeName(e.typeCode), [Num(SaturatingAdd(0, from + i)), Bin(x)], |x|);
    }
  }

  lemma SetPiece(e: RdbEntry, p: RdbEntry, xs: seq<Bytes>, from: nat, to: nat)
    requires Plainly(e) && e.value == Set(xs) && from < to <= |xs| && p == Splitting.Piece(e, from, to)
    ensures SetRows(p, xs[from..to]) == SetRows(e, xs)[from..to]
  {
    hide Line;
    forall i | 0 <= i < to - from
      ensures SetRows(p, xs[from..to])[i] == SetRows(e, xs)[from..to][i]
    {
      var x := xs[from + i];
      assert SetRows(p, xs[from..to])[i] == SetLine(p, to - from, x);
      assert SetRows(e, xs)[from..to][i] == SetLine(e, |xs|, x);
      SameLine(e, p, |xs|, TypeName(e.typeCode), [Bin(x)], |x|);
    }
  }

  lemma ZSetPiece(e: RdbEntry, p: RdbEntry, xs: seq<(Bytes, F64)>, from: nat, to: nat)
    requires Plainly(e) && e.value == SortedSet(xs) && from < to <= |xs| && p == Splitting.Piece(e, from, to)
    ensures ZSetRows(p, xs[from..to]) == ZSetRows(e, xs)[from..to]
  {
    hide Line;
    forall i | 0 <= i < to - from
      ensures ZSetRows(p, xs[from..to])[i] == ZSetRows(e, xs)[from..to][i]
    {
      var x := xs[from + i];
      assert ZSetRows(p, xs[from..to])[i] == ZSetLine(p, to - from, x);
      assert ZSetRows(e, xs)[from..to][i] == ZSetLine(e, |xs|, x);
      SameLine(e, p, |xs|, TypeName(e.typeCode), [Bin(x.0), Real(x.1)], |x.0| + 8);
    }
  }

  lemma HashPiece(e: RdbEntry, p: RdbEntry, xs: seq<HashField>, from: nat, to: nat)
    requires Plainly(e) && e.value == Hash(xs) && from < to <= |xs| && p == Splitting.Piece(e, from, to)
    ensures HashRows(p, xs[from..to]) == HashRows(e, xs)[from..to]
  {
    hide Line;
    forall i | 0 <= i < to - from
      ensures HashRows(p, xs[from..to])[i] == HashRows(e, xs)[from..to][i]
    {
      var f := xs[from + i];
      assert HashRows(p, xs[from..to])[i] == HashLine(p, to - from, f);
      assert HashRows(e, xs)[from..to][i] == HashLine(e, |xs|, f);
      var own := [Bin(f.field), Bin(f.value), OptNum(f.expiryMs)];
      SameLine(e, p, |xs|, TypeName(e.typeCode), own, |f.field| + |f.value|);
    }
  }

  /** Plain collections are weighed exactly. */
  lemma PlainExact(e: RdbEntry)
    requires e.value.Size() > 0
    ensures Batcher.ExactlyEstimated(TypeTagFor(e))
  {}

  /** No piece weighs more than its key. */
  lemma PieceLighter(e: RdbEntry, from: nat, to: nat)
    requires Plainly(e) && from < to <= e.value.Size()
    ensures Batcher.EstimateEntryBytes(Splitting.Piece(e, from, to)) <= Batcher.EstimateEntryBytes(e)
  {
    hide RowsFor, SumBytes, Batcher.EstimateEntryBytes, TypeTagFor, Splitting.Piece;
    var rows := RowsFor(TypeTagFor(e), e);
    PieceRows(e, from, to);
    PlainExact(e);
    Batcher.EstimateIsGrowth(e);
    Batcher.EstimateIsGrowth(Splitting.Piece(e, from, to));
    SumBytesAppend(rows[..from], rows[from..to]);
    SumBytesAppend(rows[..to], rows[to..]);
    assert rows[..from] + rows[from..to] == rows[..to] && rows[..to] + rows[to..] == rows;
  }

  // ----- what the pieces of one key add to a table -----

  ghost predicate SomePieceFits(cfg: Batcher.Config, k: nat, e: RdbEntry)
    requires k > 0
  {
    exists x :: x in Splitting.Pieces(k, e, 0) && x.Got? && !Batcher.Oversized(cfg, x.entry)
  }

  /** A large key that exceeds the entry cap whole, but of which some piece is within it. */
  ghost predicate Spared(cfg: Batcher.Config, k: nat, e: RdbEntry)
    requires k > 0
  {
    Chunking.Large(k, e) && Batcher.Oversized(cfg, e) && SomePieceFits(cfg, k, e)
  }

  lemma PieceContribution(cfg: Batcher.Config, tag: TypeTag, e: RdbEntry, from: nat, to: nat)
    requires Plainly(e) && from < to <= e.value.Size()
    ensures var p := Splitting.Piece(e, from, to);
            Batcher.Contribution(cfg, tag, p)
            == if !Batcher.Oversized(cfg, p) && tag == TypeTagFor(e) then RowsFor(tag, e)[from..to] else []
    ensures |RowsFor(TypeTagFor(e), e)| == e.value.Size()
  {
    hide RowsFor, Batcher.Oversized, TypeTagFor, IsGeo;
    PieceRows(e, from, to);
    assert !IsGeoEntry(Splitting.Piece(e, from, to));
  }

  /** When the key itself is within the cap, so are its pieces, and they add the key's rows. */
  lemma {:induction false} PiecesAdd(cfg: Batcher.Config, tag: TypeTag, k: nat, e: RdbEntry, from: nat)
    requires k > 0 && Plainly(e) && from <= e.value.Size() && e.value.Size() > 0 && !Batcher.Oversized(cfg, e)
    ensures |RowsFor(TypeTagFor(e), e)| == e.value.Size()
    ensures Batcher.Contributions(cfg, tag, Splitting.Pieces(k, e, from))
         == if tag == TypeTagFor(e) then RowsFor(tag, e)[from..] else []
    decreases e.value.Size() - from
  {
    hide RowsFor, Batcher.Contribution, Batcher.EstimateEntryBytes, TypeTagFor, Splitting.Piece;
    PieceContribution(cfg, tag, e, 0, 1);
    if from < e.value.Size() {
      var to := Splitting.End(k, e, from);
      PiecesAdd(cfg, tag, k, e, to);
      PieceContribution(cfg, tag, e, from, to);
      PieceLighter(e, from, to);
      ContributionsFirst(cfg, tag, Got(Splitting.Piece(e, from, to)), Splitting.Pieces(k, e, to));
    }
  }

  /** Otherwise they add rows exactly when one of them is within the cap. */
  lemma {:induction false} PiecesOfOversized(cfg: Batcher.Config, tag: TypeTag, k: nat, e: RdbEntry, from: nat)
    requires k > 0 && Plainly(e) && from <= e.value.Size()
    ensures var out := Batcher.Contributions(cfg, tag, Splitting.Pieces(k, e, from));
            if tag == TypeTagFor(e) then
              out != [] <==>
                exists x :: x in Splitting.Pieces(k, e, from) && x.Got? && !Batcher.Oversized(cfg, x.entry)
            else out == []
    decreases e.value.Size() - from
  {
    hide RowsFor, Batcher.Contribution, Batcher.Oversized, TypeTagFor, Splitting.Piece;
    if from < e.value.Size() {
      var to := Splitting.End(k, e, from);
      var first, rest := Got(Splitting.Piece(e, from, to)), Splitting.Pieces(k, e, to);
      PiecesOfOversized(cfg, tag, k, e, to);
      PieceContribution(cfg, tag, e, from, to);
      ContributionsFirst(cfg, tag, first, rest);
      assert Splitting.Pieces(k, e, from) == [first] + rest;
      assert forall x :: x in [first] + rest <==> x == first || x in rest;
    }
  }

  lemma {:induction false} ContributionsFirst(cfg: Batcher.Config, tag: TypeTag, x: Item, rest: seq<Item>)
    ensures Batcher.Contributions(cfg, tag, [x] + rest) ==
            (if x.Got? then Batcher.Contribution(cfg, tag, x.entry) else []) + Batcher.Contributions(cfg, tag, rest)
  {
    hide Batcher.Contribution;
    assert ([x] + rest)[1..] == rest;
  }

  lemma {:induction false} ContributionsAppend(cfg: Batcher.Config, tag: TypeTag, a: seq<Item>, b: seq<Item>)
    ensures Batcher.Contributions(cfg, tag, a + b)
            == Batcher.Contributions(cfg, tag, a) + Batcher.Contributions(cfg, tag, b)
    decreases |a|
  {
    hide Batcher.Contribution;
    if a == [] {
      assert a + b == b;
    } else {
      assert (a + b)[1..] == a[1..] + b && (a + b)[0] == a[0];
      ContributionsAppend(cfg, tag, a[1..], b);
    }
  }

  /** Where the chunk limit shows in a tag's table: a spared key adds rows only when it is chunked; a
      large geo set within the cap adds geo rows only when it is not. */
  ghost predicate Shows(cfg: Batcher.Config, tag: TypeTag, k: nat, e: RdbEntry)
    requires k > 0
  {
    if tag == GeoTag then Chunking.Large(k, e) && ShouldEmitGeo(cfg.geo, TypeTagFor(e), e) && !Batcher.Oversized(cfg, e)
    else tag == TypeTagFor(e) && Spared(cfg, k, e)
  }

  lemma {:induction false} GeoOfLarge(cfg: Batcher.Config, k: nat, e: RdbEntry)
    requires k > 0 && Plainly(e) && Chunking.Large(k, e)
    ensures Batcher.Contributions(cfg, GeoTag, Splitting.Pieces(k, e, 0)) == []
    ensures Batcher.Contribution(cfg, GeoTag, e) != [] <==> Shows(cfg, GeoTag, k, e)
  {
    hide RowsFor, Batcher.Oversized, TypeTagFor, Splitting.Pieces, IsGeo, Batcher.Contributions;
    NotGeo(e);
    PiecesOfOversized(cfg, GeoTag, k, e, 0);
    RowsForEntry(GeoTag, e);
  }

  lemma NotGeo(e: RdbEntry)
    ensures TypeTagFor(e) != GeoTag
    ensures TypeTagFor(e) == ZSetTag ==> Takes(GeoTag, e)
  {}

  lemma {:induction false} NativeOfLarge(cfg: Batcher.Config, tag: TypeTag, k: nat, e: RdbEntry)
    requires k > 0 && Plainly(e) && Chunking.Large(k, e) && tag != GeoTag
    ensures var chunked, whole := Batcher.Contributions(cfg, tag, Splitting.Pieces(k, e, 0)),
            Batcher.Contribution(cfg, tag, e);
            if Shows(cfg, tag, k, e) then whole == [] && chunked != [] else chunked == whole
  {
    hide RowsFor, TypeTagFor, Splitting.Pieces, Batcher.Contributions, Batcher.EstimateEntryBytes, Batcher.Oversized;
    if Batcher.Oversized(cfg, e) {
      PiecesOfOversized(cfg, tag, k, e, 0);
    } else {
      PiecesAdd(cfg, tag, k, e, 0);
      if tag == TypeTagFor(e) { assert RowsFor(tag, e)[0..] == RowsFor(tag, e); }
    }
  }

  /** One item cut, against the same item whole: more rows for a native tag, fewer for geo, exactly
      where the limit shows; otherwise the same rows. */
  lemma {:induction false} SplitContribution(cfg: Batcher.Config, tag: TypeTag, k: nat, x: Item)
    requires k > 0 && (x.Got? ==> Plainly(x.entry))
    ensures var chunked, whole := Batcher.Contributions(cfg, tag, Splitting.Split(k, x)),
            Batcher.Contributions(cfg, tag, [x]);
            if x.Got? && Shows(cfg, tag, k, x.entry) then
              if tag == GeoTag then |chunked| < |whole| else |chunked| > |whole|
            else chunked == whole
  {
    hide Batcher.Contribution, Splitting.Pieces, Shows, Chunking.Large;
    ContributionsFirst(cfg, tag, x, []);
    Batcher.Trailing(if x.Got? then Batcher.Contribution(cfg, tag, x.entry) else []);
    if x.Got? {
      if Chunking.Large(k, x.entry) {
        if tag == GeoTag { GeoOfLarge(cfg, k, x.entry); } else { NativeOfLarge(cfg, tag, k, x.entry); }
      } else {
        OnlyLarge(cfg, tag, k, x.entry);
      }
    }
  }

  lemma OnlyLarge(cfg: Batcher.Config, tag: TypeTag, k: nat, e: RdbEntry)
    requires k > 0 && !Chunking.Large(k, e)
    ensures !Shows(cfg, tag, k, e)
  {}

  // ----- whole tables -----

  ghost predicate ShowsIn(cfg: Batcher.Config, tag: TypeTag, k: nat, items: seq<Item>)
    requires k > 0
  {
    exists x :: x in items && x.Got? && Shows(cfg, tag, k, x.entry)
  }

  predicate AllPlainly(items: seq<Item>) { forall x | x in items :: x.Got? ==> Plainly(x.entry) }

  lemma {:induction false} SplitContributions(cfg: Batcher.Config, tag: TypeTag, k: nat, items: seq<Item>)
    requires k > 0 && AllPlainly(items)
    ensures var chunked := Batcher.Contributions(cfg, tag, Splitting.SplitAll(k, items));
            var whole := Batcher.Contributions(cfg, tag, items);
            if ShowsIn(cfg, tag, k, items) then
              if tag == GeoTag then |chunked| < |whole| else |chunked| > |whole|
            else chunked == whole
    decreases |items|
  {
    hide Batcher.Contributions, Splitting.Split, Shows, Plainly;
    if items != [] {
      var x, rest := items[0], items[1..];
      assert items == [x] + rest;
      SplitContribution(cfg, tag, k, x);
      SplitContributions(cfg, tag, k, rest);
      ContributionsAppend(cfg, tag, Splitting.Split(k, x), Splitting.SplitAll(k, rest));
      ContributionsAppend(cfg, tag, [x], rest);
      assert forall y :: y in items <==> y == x || y in rest;
    }
  }

  lemma {:induction false} MergedPlainly(k: nat, pending: Option<RdbEntry>, items: seq<Item>)
    requires Chunking.WellChunked(k, pending, items)
    ensures AllPlainly(Chunking.Merge(pending, items))
    decreases |items|
  {
    hide Chunking.Continues, Chunking.Join;
    if items != [] {
      var rest := items[1..];
      if items[0].Err? || items[0].entry.totalElements.None? {
        MergedPlainly(k, None, rest);
      } else {
        var a := Chunking.Join(pending, items[0].entry);
        MergedPlainly(k, if a.value.Size() >= items[0].entry.totalElements.value then None else Some(a), rest);
      }
    }
  }

  /** The table a tag's batches make when the reader's items are exported from empty builders. */
  function TableOf(cfg: Batcher.Config, tag: TypeTag, items: seq<Item>): seq<Row> {
    Batcher.RowsOf(tag, Batcher.BatchesOf(Batcher.Iterate(cfg, Batcher.EmptyBuffers(), items)))
  }

  lemma {:induction false} TableIsContributions(cfg: Batcher.Config, tag: TypeTag, items: seq<Item>)
    ensures TableOf(cfg, tag, items) == Batcher.Contributions(cfg, tag, items)
  {
    hide Batcher.Contributions, Batcher.Iterate, Batcher.RowsOf, Batcher.BatchesOf;
    Batcher.IterateKeeps(cfg, Batcher.EmptyBuffers(), items, tag);
    Batcher.Leading(Batcher.Contributions(cfg, tag, items));
  }

  lemma {:induction false} NoGeoInPart(cfg: Batcher.Config, k: nat, pending: Option<RdbEntry>, part: seq<Item>)
    requires Splitting.Unfinished(k, pending, part)
    ensures Batcher.Contributions(cfg, GeoTag, part) == []
    decreases |part|
  {
    hide Batcher.Oversized, TypeTagFor, RowsFor, Chunking.Join;
    if part != [] {
      var e := part[0].entry;
      ChunkNotGeo(cfg, k, pending, e);
      NoGeoInPart(cfg, k, Some(Chunking.Join(pending, e)), part[1..]);
    }
  }

  lemma ChunkNotGeo(cfg: Batcher.Config, k: nat, pending: Option<RdbEntry>, e: RdbEntry)
    requires Chunking.Continues(k, pending, e)
    ensures Batcher.Contribution(cfg, GeoTag, e) == []
  {
    hide RowsFor, Batcher.Oversized;
    NotGeo(e);
  }

  lemma {:induction false} ErrorAddsNothing(cfg: Batcher.Config, tag: TypeTag, items: seq<Item>, x: RdbError)
    ensures Batcher.Contributions(cfg, tag, items + [Err(x)]) == Batcher.Contributions(cfg, tag, items)
  {
    hide Batcher.Contribution;
    ContributionsAppend(cfg, tag, items, [Err(x)]);
    ContributionsFirst(cfg, tag, Err(x), []);
    assert [Err(x)] + [] == [Err(x)];
    Batcher.Trailing(Batcher.Contributions(cfg, tag, items));
  }

  /** The items of a run that are not the error it ends in. */
  function Good(items: seq<Item>): seq<Item> {
    if Summary.FirstError(items).None? || items == [] then items else items[..|items| - 1]
  }

  lemma {:induction false} GoodContributes(cfg: Batcher.Config, tag: TypeTag, items: seq<Item>)
    requires Summary.FirstError(items).Some? ==> Splitting.EndsInError(items)
    ensures Batcher.Contributions(cfg, tag, Good(items)) == Batcher.Contributions(cfg, tag, items)
  {
    hide Batcher.Contributions, Summary.FirstError;
    if Summary.FirstError(items).Some? {
      var last := items[|items| - 1].error;
      assert items == Good(items) + [Err(last)];
      ErrorAddsNothing(cfg, tag, Good(items), last);
    }
  }

  lemma {:induction false} PartContributes(cfg: Batcher.Config, tag: TypeTag, a: seq<Item>, part: seq<Item>,
      last: seq<Item>)
    requires last == [] || (|last| == 1 && last[0].Err?)
    ensures Batcher.Contributions(cfg, tag, a + part + last)
         == Batcher.Contributions(cfg, tag, a) + Batcher.Contributions(cfg, tag, part)
  {
    hide Batcher.Contributions;
    ContributionsAppend(cfg, tag, a, part);
    if last == [] {
      assert a + part + [] == a + part;
    } else {
      assert last == [Err(last[0].error)];
      ErrorAddsNothing(cfg, tag, a + part, last[0].error);
    }
  }

  lemma GoodPlainly(items: seq<Item>)
    requires AllPlainly(items)
    ensures AllPlainly(Good(items))
  {
    hide Summary.FirstError;
  }

  /** For every file, tag, chunk limit and entry cap, and any two settings of the batch thresholds: the
      table exported from the chunked run is that of the whole run, its large keys cut, followed by the
      rows of `part`: the chunks, within the cap, of the key that an error cut off, and nothing when the
      file is read to its end. The two tables are equal if and only if no key shows the limit and
      `part` has no rows. Native tables can only gain rows and geo tables only lose them. */
  lemma TablesUnderLimit(
    a: Batcher.Config, b: Batcher.Config, cfg: Machine.Config, k: nat, d: Bytes, s: State, tag: TypeTag)
      returns (part: seq<Item>)
    requires a.maxEntryBytes == b.maxEntryBytes && a.geo == b.geo
    requires k > 0 && Valid(Chunking.Limited(cfg, k), d, s) && s.chunked.None? && !s.finished
    ensures Splitting.Unfinished(k, None, part)
    ensures var items := Run(Chunking.Whole(cfg), d, s).items;
            var chunked, whole := TableOf(a, tag, Run(Chunking.Limited(cfg, k), d, s).items), TableOf(b, tag, items);
            var cut := Batcher.Contributions(a, tag, part);
            && (Summary.FirstError(items).None? ==> part == [])
            && chunked == Batcher.Contributions(a, tag, Splitting.SplitAll(k, Good(items))) + cut
            && (chunked == whole <==> !ShowsIn(a, tag, k, Good(items)) && cut == [])
            && (!ShowsIn(a, tag, k, Good(items)) ==> chunked == whole + cut)
            && (if tag == GeoTag then cut == [] && |chunked| <= |whole| else |chunked| >= |whole|)
  {
    hide Run, Chunking.Merge, Chunking.WellChunked, Batcher.Contributions, Summary.FirstError, TableOf;
    hide ShowsIn, AllPlainly, Splitting.SplitAll, Splitting.EndsInError, Splitting.Unfinished;
    var limited, whole := Run(Chunking.Limited(cfg, k), d, s).items, Run(Chunking.Whole(cfg), d, s).items;
    part := Splitting.ChunkedRunIsSplit(cfg, k, d, s);
    Chunking.Refines(cfg, k, d, s);
    MergedPlainly(k, None, limited);
    GoodPlainly(whole);
    SplitContributions(a, tag, k, Good(whole));
    TableIsContributions(a, tag, limited);
    TableIsContributions(b, tag, whole);
    Batcher.SameContributions(a, b, whole, tag);
    LimitedItems(k, part, limited, whole);
    GoodContributes(a, tag, whole);
    PartContributes(a, tag, Splitting.SplitAll(k, Good(whole)), part, whole[|Good(whole)|..]);
    if tag == GeoTag { NoGeoInPart(a, k, None, part); }
    Batcher.Trailing(Batcher.Contributions(a, tag, Good(whole)));
    Batcher.Trailing(Batcher.Contributions(a, tag, Splitting.SplitAll(k, Good(whole))));
  }

  lemma {:induction false} LimitedItems(k: nat, part: seq<Item>, limited: seq<Item>, whole: seq<Item>)
    requires k > 0
    requires if Summary.FirstError(whole).None? then part == [] && limited == Splitting.SplitAll(k, whole)
             else
               && Splitting.EndsInError(whole)
               && limited == Splitting.SplitAll(k, whole[..|whole| - 1]) + part + [whole[|whole| - 1]]
    ensures limited == Splitting.SplitAll(k, Good(whole)) + part + whole[|Good(whole)|..]
    ensures var last := whole[|Good(whole)|..]; last == [] || (|last| == 1 && last[0].Err?)
  {
    hide Summary.FirstError, Splitting.SplitAll;
    var front := Splitting.SplitAll(k, Good(whole));
    assert front + [] + [] == front;
    if Summary.FirstError(whole).Some? { assert whole[|whole| - 1..] == [whole[|whole| - 1]]; }
  }

  lemma NeverShows(cfg: Batcher.Config, tag: TypeTag, k: nat, items: seq<Item>)
    requires k > 0 && cfg.maxEntryBytes.None? && tag != GeoTag
    ensures !ShowsIn(cfg, tag, k, items)
  {
    hide SomePieceFits;
  }

  /** So without an entry cap, the exported table of every native type is row for row the same whether
      the reader chunks large keys or not. */
  lemma {:induction false} TablesIgnoreLimits(
    a: Batcher.Config, b: Batcher.Config, cfg: Machine.Config, k: nat, d: Bytes, s: State, tag: TypeTag)
    requires a.maxEntryBytes.None? && b.maxEntryBytes.None? && a.geo == b.geo && tag != GeoTag
    requires k > 0 && Valid(Chunking.Limited(cfg, k), d, s) && s.chunked.None? && !s.finished
    requires Summary.FirstError(Run(Chunking.Whole(cfg), d, s).items).None?
    ensures TableOf(a, tag, Run(Chunking.Limited(cfg, k), d, s).items)
            == TableOf(b, tag, Run(Chunking.Whole(cfg), d, s).items)
  {
    hide Run, Summary.FirstError, TableOf, ShowsIn, Splitting.SplitAll, Splitting.Unfinished;
    var part := TablesUnderLimit(a, b, cfg, k, d, s, tag);
    NeverShows(a, tag, k, Good(Run(Chunking.Whole(cfg), d, s).items));
  }

  // ----- from a printed file to its tables -----

  /** A printed record yields nothing that stops an export. */
  lemma {:induction false} RecordsNeverFail(env: Env, rs: seq<FileFormat.Record>, s: State)
    requires FileFormat.FitAll(env, rs)
    ensures Summary.FirstError(FileFormat.YieldAll(env, rs, s)).None?
    decreases |rs|
  {
    hide FileFormat.Fits, FileFormat.After;
    if rs != [] {
      assert FileFormat.Fits(env, rs[0]);
      var first, s1 := FileFormat.Yields(env, rs[0], s), FileFormat.After(env, rs[0], s);
      var later := FileFormat.YieldAll(env, rs[1..], s1);
      RecordsNeverFail(env, rs[1..], s1);
      if first == [] {
        Batcher.Leading(later);
      } else {
        assert (first + later)[1..] == later;
      }
    }
  }

  /** End to end: the table of a native type, exported from a printed file whose trailer is not a
      wrong checksum, is the rows of the keys its records stand for, in file order, whatever the chunk
      limit and the thresholds. */
  lemma {:induction false} PrintedFileExports(
    cfg: Batcher.Config, env: Env, h: Reader.Header, k: nat, rs: seq<FileFormat.Record>, trailer: Bytes, rest: Bytes,
    tag: TypeTag)
    requires cfg.maxEntryBytes.None? && tag != GeoTag
    requires k > 0 && WholeFile.Accepted(h) && FileFormat.FitAll(env, rs) && |trailer| == 8
    requires var d := WholeFile.PrintFile(env, h, rs, trailer, rest);
             Verdict.TrailerPasses(Machine.Config(env, h.version, None), d, 9 + |FileFormat.PrintAll(env, rs)| + 1)
    ensures var d := WholeFile.PrintFile(env, h, rs, trailer, rest);
            && Reader.Start(env, d).Success?
            && TableOf(cfg, tag, Verdict.FileRun(env, d, Some(k)).items)
               == Batcher.Contributions(cfg, tag, FileFormat.YieldAll(env, rs, Reader.Fresh(9)))
  {
    hide Run, Reader.Start, WholeFile.PrintFile, FileFormat.FitAll, FileFormat.PrintAll, FileFormat.YieldAll;
    hide Batcher.Contributions, TableOf, Summary.FirstError, FileFormat.BadTrailer;
    var d := WholeFile.PrintFile(env, h, rs, trailer, rest);
    var whole := Machine.Config(env, h.version, None);
    WholeFile.FileReadsBack(env, h, rs, trailer, rest);
    var s := Reader.Start(env, d).value.state;
    RecordsNeverFail(env, rs, Reader.Fresh(9));
    Batcher.Trailing(FileFormat.YieldAll(env, rs, Reader.Fresh(9)));
    assert Chunking.Whole(whole) == whole && Chunking.Limited(whole, k) == Machine.Config(env, h.version, Some(k));
    TablesIgnoreLimits(cfg, cfg, whole, k, d, s, tag);
    TableIsContributions(cfg, tag, Run(whole, d, s).items);
  }
}
