/** Reading the tables back: the rows of an entry, under the schema's column names, hold the entry. */
module Tables {
  import opened Common
  import opened Types
  import opened Schema
  import opened Builders
  import Geohash
  import StreamPack

  /** The `c`-th column of a tag's table has this name. */
  predicate Named(tag: TypeTag, c: nat, name: string) { c < |Fields(tag)| && Fields(tag)[c].name == name }

  /** A text cell with these bytes as its characters. */
  predicate Spells(c: Cell, b: Bytes) {
    c.Txt? && |c.s| == |b| && forall i | 0 <= i < |b| :: c.s[i] as int == b[i]
  }

  lemma AsciiSpells(b: Bytes)
    ensures Spells(Txt(Ascii(b)), b)
  {}

  lemma SpelledOnce(c: Cell, a: Bytes, b: Bytes)
    requires Spells(c, a) && Spells(c, b)
    ensures a == b
  {
    forall i | 0 <= i < |a|
      ensures a[i] == b[i]
    {
      assert c.s[i] as int == a[i];
    }
  }

  predicate HoldsOption(c: Cell, o: Option<int>) { c == if o.None? then Null else Num(o.value) }

  /** One row whose own columns are all null: an empty collection. */
  predicate IsSentinel(tag: TypeTag, rows: seq<Row>) {
    |rows| == 1 && forall c :: |CommonFields| <= c < |Fields(tag)| ==> Nth(rows[0].cells, c).Null?
  }

  lemma OwnCells(e: RdbEntry, n: nat, kind: string, own: seq<Cell>, bytes: nat, c: nat)
    requires c < |own|
    ensures Nth(Line(e, n, kind, own, bytes).cells, |CommonFields| + c) == own[c]
  {
    hide CommonCells;
  }

  lemma LineSentinel(tag: TypeTag, e: RdbEntry, n: nat, kind: string, own: seq<Cell>, bytes: nat)
    requires |own| == |OwnFields(tag)| && forall c :: 0 <= c < |own| ==> own[c].Null?
    ensures IsSentinel(tag, [Line(e, n, kind, own, bytes)])
  {
    hide OwnFields, Line;
    forall c | |CommonFields| <= c < |Fields(tag)|
      ensures Nth(Line(e, n, kind, own, bytes).cells, c).Null?
    {
      OwnCells(e, n, kind, own, bytes, c - |CommonFields|);
    }
  }

  /** A list's table: elements in order, numbered from the chunk's offset up to the largest 64-bit
      number; one all-null row when empty. */
  lemma ListReadsBack(e: RdbEntry)
    requires e.value.List?
    ensures Named(ListTag, 8, "index") && Named(ListTag, 9, "element")
    ensures var rows, xs := RowsFor(ListTag, e), e.value.elems;
            var offset := if e.elementOffset.Some? then e.elementOffset.value else 0;
            if xs == [] then IsSentinel(ListTag, rows)
            else
              && |rows| == |xs|
              && (forall i :: 0 <= i < |rows| ==> Nth(rows[i].cells, 9) == Bin(xs[i]))
              && (forall i :: 0 <= i < |rows| ==>
                    Nth(rows[i].cells, 8)
                    == Num(if offset + i < 0x1_0000_0000_0000_0000 then offset + i else 0xFFFF_FFFF_FFFF_FFFF))
  {
    hide Line, IsSentinel;
    var xs := e.value.elems;
    var offset := if e.elementOffset.Some? then e.elementOffset.value else 0;
    LineSentinel(ListTag, e, 0, TypeName(e.typeCode), [Null, Null], 0);
    forall i | 0 <= i < |xs|
      ensures Nth(ListLine(e, |xs|, i, xs[i]).cells, 9) == Bin(xs[i])
      ensures Nth(ListLine(e, |xs|, i, xs[i]).cells, 8) == Num(SaturatingAdd(offset, i))
    {
      var own := [Num(SaturatingAdd(offset, i)), Bin(xs[i])];
      OwnCells(e, NumElements(e, |xs|), TypeName(e.typeCode), own, |xs[i]|, 0);
      OwnCells(e, NumElements(e, |xs|), TypeName(e.typeCode), own, |xs[i]|, 1);
    }
  }

  lemma SetReadsBack(e: RdbEntry)
    requires e.value.Set?
    ensures Named(SetTag, 8, "member")
    ensures var rows, xs := RowsFor(SetTag, e), e.value.members;
            if xs == [] then IsSentinel(SetTag, rows)
            else |rows| == |xs| && forall i :: 0 <= i < |rows| ==> Nth(rows[i].cells, 8) == Bin(xs[i])
  {
    hide Line, IsSentinel;
    var xs := e.value.members;
    LineSentinel(SetTag, e, 0, TypeName(e.typeCode), [Null], 0);
    forall i | 0 <= i < |xs|
      ensures Nth(SetLine(e, |xs|, xs[i]).cells, 8) == Bin(xs[i])
    {
      OwnCells(e, NumElements(e, |xs|), TypeName(e.typeCode), [Bin(xs[i])], |xs[i]|, 0);
    }
  }

  lemma ZSetReadsBack(e: RdbEntry)
    requires e.value.SortedSet?
    ensures Named(ZSetTag, 8, "member") && Named(ZSetTag, 9, "score")
    ensures var rows, xs := RowsFor(ZSetTag, e), e.value.pairs;
            if xs == [] then IsSentinel(ZSetTag, rows)
            else
              |rows| == |xs| && forall i :: 0 <= i < |rows| ==>
                Nth(rows[i].cells, 8) == Bin(xs[i].0) && Nth(rows[i].cells, 9) == Real(xs[i].1)
  {
    hide Line, IsSentinel;
    var xs := e.value.pairs;
    LineSentinel(ZSetTag, e, 0, TypeName(e.typeCode), [Null, Null], 0);
    forall i | 0 <= i < |xs|
      ensures var cells := ZSetLine(e, |xs|, xs[i]).cells;
              Nth(cells, 8) == Bin(xs[i].0) && Nth(cells, 9) == Real(xs[i].1)
    {
      var own := [Bin(xs[i].0), Real(xs[i].1)];
      OwnCells(e, NumElements(e, |xs|), TypeName(e.typeCode), own, |xs[i].0| + 8, 0);
      OwnCells(e, NumElements(e, |xs|), TypeName(e.typeCode), own, |xs[i].0| + 8, 1);
    }
  }

  /** A hash's table; an empty hash is told from a one-field one, whose field cell is never null. */
  lemma HashReadsBack(e: RdbEntry)
    requires e.value.Hash?
    ensures Named(HashTag, 8, "field") && Named(HashTag, 9, "field_value") && Named(HashTag, 10, "field_expiry_ms")
    ensures var rows, xs := RowsFor(HashTag, e), e.value.fields;
            if xs == [] then IsSentinel(HashTag, rows)
            else
              |rows| == |xs| && forall i :: 0 <= i < |rows| ==>
                && Nth(rows[i].cells, 8) == Bin(xs[i].field) && Nth(rows[i].cells, 9) == Bin(xs[i].value)
                && HoldsOption(Nth(rows[i].cells, 10), xs[i].expiryMs)
  {
    hide Line, IsSentinel;
    var xs := e.value.fields;
    LineSentinel(HashTag, e, 0, TypeName(e.typeCode), [Null, Null, Null], 0);
    forall i | 0 <= i < |xs|
      ensures var cells := HashLine(e, |xs|, xs[i]).cells;
              && Nth(cells, 8) == Bin(xs[i].field) && Nth(cells, 9) == Bin(xs[i].value)
              && HoldsOption(Nth(cells, 10), xs[i].expiryMs)
    {
      var own, bytes := [Bin(xs[i].field), Bin(xs[i].value), OptNum(xs[i].expiryMs)], |xs[i].field| + |xs[i].value|;
      OwnCells(e, NumElements(e, |xs|), TypeName(e.typeCode), own, bytes, 0);
      OwnCells(e, NumElements(e, |xs|), TypeName(e.typeCode), own, bytes, 1);
      OwnCells(e, NumElements(e, |xs|), TypeName(e.typeCode), own, bytes, 2);
    }
  }

  /** A string's table holds the value; a sketch's holds the raw bytes and what its header says. */
  lemma StringReadsBack(e: RdbEntry)
    requires e.value.Str?
    ensures Named(StringTag, 8, "value") && Named(HllTag, 10, "raw_value")
    ensures Named(HllTag, 8, "hll_encoding") && Named(HllTag, 9, "cached_cardinality")
    ensures var data := e.value.data;
            var plain, sketch := RowsFor(StringTag, e), RowsFor(HllTag, e);
            && |plain| == 1 && Nth(plain[0].cells, 8) == Bin(data)
            && |sketch| == 1 && Nth(sketch[0].cells, 10) == Bin(data)
            && Nth(sketch[0].cells, 8)
               == Txt(if |data| < 5 || data[4] > 1 then "unknown" else if data[4] == 0 then "dense" else "sparse")
            && Nth(sketch[0].cells, 9) == Num(if |data| < 16 || data[15] >= 128 then -1 else Le(data[8..16]))
  {
    hide Line, Le;
    var data := e.value.data;
    var own := [Txt(HllEncoding(data)), Num(HllCachedCardinality(data)), Bin(data)];
    OwnCells(e, 1, TypeName(e.typeCode), [Bin(data)], |data|, 0);
    OwnCells(e, 1, "hyperloglog", own, |data|, 0);
    OwnCells(e, 1, "hyperloglog", own, |data|, 1);
    OwnCells(e, 1, "hyperloglog", own, |data|, 2);
    HllColumns(data);
  }

  /** The emptiest entry of a tag: no metadata, and nothing in it. */
  function Blank(tag: TypeTag): RdbEntry {
    var value := match tag
      case StringTag => Str([])
      case HllTag => Str([])
      case ListTag => List([])
      case SetTag => Set([])
      case ZSetTag => SortedSet([])
      case GeoTag => SortedSet([])
      case HashTag => Hash([])
      case ModuleTag => Module([], 0, [])
      case StreamTag => Stream([], 0, []);
    RdbEntry(0, [], value, 0, None, None, None, None, None)
  }

  lemma BlankCommon(tag: TypeTag, c: nat)
    requires c < 8
    ensures Fields(tag)[c].nullable <==> Nth(RowsFor(tag, Blank(tag))[0].cells, c).Null?
  {
    hide RowsFor, OwnFields, KindIn, KeySize, EncodingName;
    var e := Blank(tag);
    RowsForEntry(tag, e);
    EveryRowCarriesItsKey(tag, e);
    assert CarriesKey(e, KindIn(tag, e), KeySize(e), RowsFor(tag, e)[0]);
    assert c == 0 || c == 1 || c == 2 || c == 3 || c == 4 || c == 5 || c == 6 || c == 7;
  }

  lemma BlankOwn(tag: TypeTag, c: nat)
    requires 8 <= c < |Fields(tag)|
    ensures Fields(tag)[c].nullable <==> Nth(RowsFor(tag, Blank(tag))[0].cells, c).Null?
  {
    hide CommonCells, Ascii, HllEncoding, HllCachedCardinality, TypeName;
  }

  /** A column is declared nullable exactly when some row has a null in it, which the emptiest one then does. */
  lemma NullableExactly(tag: TypeTag, c: nat)
    requires c < |Fields(tag)|
    ensures Fields(tag)[c].nullable <==> Nth(RowsFor(tag, Blank(tag))[0].cells, c).Null?
    ensures forall e, i ::
              0 <= i < |RowsFor(tag, e)| && Nth(RowsFor(tag, e)[i].cells, c).Null? ==> Fields(tag)[c].nullable
  {
    hide RowsFor, Blank, Fields;
    if c < 8 { BlankCommon(tag, c); } else { BlankOwn(tag, c); }
    forall e, i | 0 <= i < |RowsFor(tag, e)| && Nth(RowsFor(tag, e)[i].cells, c).Null?
      ensures Fields(tag)[c].nullable
    {
      NullAllowed(tag, e, i, c);
    }
  }

  lemma NullAllowed(tag: TypeTag, e: RdbEntry, i: nat, c: nat)
    requires i < |RowsFor(tag, e)| && c < |Fields(tag)| && Nth(RowsFor(tag, e)[i].cells, c).Null?
    ensures Fields(tag)[c].nullable
  {
    hide RowsFor, Fields;
    RowsForEntry(tag, e);
    assert RowFits(tag, RowsFor(tag, e)[i]);
  }

  /** Two entries of the same collection type whose tables agree hold the same value: no type's rows
      lose an element, its place, its score, or a field's expiry, nor confuse empty with full. */
  lemma TablesDetermineValues(tag: TypeTag, a: RdbEntry, b: RdbEntry)
    requires tag == ListTag || tag == SetTag || tag == ZSetTag || tag == HashTag
    requires Takes(tag, a) && Takes(tag, b) && RowsFor(tag, a) == RowsFor(tag, b)
    ensures a.value == b.value
  {
    hide Line, RowsFor;
    match tag {
      case ListTag =>
        ListReadsBack(a);
        ListReadsBack(b);
        SentinelIsEmpty(tag, RowsFor(tag, a), 9);
        assert a.value.elems == b.value.elems;
      case SetTag =>
        SetReadsBack(a);
        SetReadsBack(b);
        SentinelIsEmpty(tag, RowsFor(tag, a), 8);
        assert a.value.members == b.value.members;
      case ZSetTag =>
        ZSetReadsBack(a);
        ZSetReadsBack(b);
        SentinelIsEmpty(tag, RowsFor(tag, a), 8);
        assert forall i :: 0 <= i < |a.value.pairs| ==> a.value.pairs[i] == b.value.pairs[i];
      case HashTag =>
        HashReadsBack(a);
        HashReadsBack(b);
        SentinelIsEmpty(tag, RowsFor(tag, a), 8);
        assert forall i :: 0 <= i < |a.value.fields| ==> a.value.fields[i] == b.value.fields[i];
    }
  }

  lemma SentinelIsEmpty(tag: TypeTag, rows: seq<Row>, c: nat)
    requires |CommonFields| <= c < |Fields(tag)|
    ensures IsSentinel(tag, rows) ==> Nth(rows[0].cells, c).Null?
  {}

  // ----- streams -----

  /** A stream flattened: each entry's identifier with each of its fields, or with none. */
  function EntryTriples(x: StreamPack.StreamEntry): (r: seq<(Bytes, Option<(Bytes, Bytes)>)>)
    ensures |r| == AtLeastOne(|x.fields|)
  {
    if x.fields == [] then [(x.id, None)]
    else seq(|x.fields|, i requires 0 <= i < |x.fields| => (x.id, Some(x.fields[i])))
  }

  function StreamTriples(es: seq<StreamPack.StreamEntry>): (r: seq<(Bytes, Option<(Bytes, Bytes)>)>)
    ensures |r| == StreamRowCount(es)
  {
    if es == [] then [] else EntryTriples(es[0]) + StreamTriples(es[1..])
  }

  predicate HoldsTriple(row: Row, t: (Bytes, Option<(Bytes, Bytes)>)) {
    && Spells(Nth(row.cells, 8), t.0)
    && Nth(row.cells, 9) == (if t.1.Some? then Bin(t.1.value.0) else Null)
    && Nth(row.cells, 10) == (if t.1.Some? then Bin(t.1.value.1) else Null)
  }

  lemma EntryReadsBack(e: RdbEntry, n: nat, x: StreamPack.StreamEntry, i: nat)
    requires i < AtLeastOne(|x.fields|)
    ensures HoldsTriple(EntryLines(e, n, x)[i], EntryTriples(x)[i])
  {
    hide Line, Ascii, Spells;
    AsciiSpells(x.id);
    if x.fields == [] {
      var own := [Txt(Ascii(x.id)), Null, Null];
      OwnCells(e, n, "stream", own, |x.id|, 0);
      OwnCells(e, n, "stream", own, |x.id|, 1);
      OwnCells(e, n, "stream", own, |x.id|, 2);
    } else {
      var f := x.fields[i];
      var own, bytes := [Txt(Ascii(x.id)), Bin(f.0), Bin(f.1)], |x.id| + |f.0| + |f.1|;
      assert EntryLines(e, n, x)[i] == FieldLine(e, n, x.id, f);
      OwnCells(e, n, "stream", own, bytes, 0);
      OwnCells(e, n, "stream", own, bytes, 1);
      OwnCells(e, n, "stream", own, bytes, 2);
    }
  }

  lemma {:induction false} StreamLinesReadBack(e: RdbEntry, n: nat, es: seq<StreamPack.StreamEntry>, i: nat)
    requires i < StreamRowCount(es)
    ensures HoldsTriple(StreamLines(e, n, es)[i], StreamTriples(es)[i])
    decreases |es|
  {
    hide EntryLines, EntryTriples, HoldsTriple;
    var first := AtLeastOne(|es[0].fields|);
    if i < first {
      EntryReadsBack(e, n, es[0], i);
    } else {
      StreamLinesReadBack(e, n, es[1..], i - first);
    }
  }

  /** A stream's table: every entry's identifier, once for each field and its value, in order. */
  lemma StreamReadsBack(e: RdbEntry)
    requires e.value.Stream?
    ensures Named(StreamTag, 8, "stream_id") && Named(StreamTag, 9, "field") && Named(StreamTag, 10, "field_value")
    ensures var rows, es := RowsFor(StreamTag, e), e.value.entries;
            if es == [] then IsSentinel(StreamTag, rows)
            else
              && |rows| == |StreamTriples(es)|
              && forall i :: 0 <= i < |rows| ==> HoldsTriple(rows[i], StreamTriples(es)[i])
  {
    hide Line, IsSentinel, HoldsTriple, StreamLines, StreamTriples;
    var n, es := StreamSize(e), e.value.entries;
    LineSentinel(StreamTag, e, n, "stream", [Null, Null, Null], 0);
    SomeRow(es);
    forall i | 0 <= i < StreamRowCount(es)
      ensures HoldsTriple(StreamLines(e, n, es)[i], StreamTriples(es)[i])
    {
      StreamLinesReadBack(e, n, es, i);
    }
  }

  lemma {:induction false} SomeRow(es: seq<StreamPack.StreamEntry>)
    ensures es != [] ==> StreamRowCount(es) > 0
  {}

  /** Neighbouring entries have different identifiers, as in every stream whose identifiers increase. */
  predicate IdsStep(es: seq<StreamPack.StreamEntry>) { forall i :: 0 <= i && i + 1 < |es| ==> es[i].id != es[i + 1].id }

  lemma HoldsOne(row: Row, s: (Bytes, Option<(Bytes, Bytes)>), t: (Bytes, Option<(Bytes, Bytes)>))
    requires HoldsTriple(row, s) && HoldsTriple(row, t)
    ensures s == t
  {
    hide Spells;
    SpelledOnce(Nth(row.cells, 8), s.0, t.0);
  }

  lemma {:induction false} InFirst(es: seq<StreamPack.StreamEntry>, k: nat)
    requires es != [] && k < AtLeastOne(|es[0].fields|)
    ensures k < |StreamTriples(es)| && StreamTriples(es)[k] == EntryTriples(es[0])[k]
    ensures EntryTriples(es[0])[k].0 == es[0].id && (EntryTriples(es[0])[k].1.Some? <==> es[0].fields != [])
  {}

  lemma {:induction false} AfterFirst(es: seq<StreamPack.StreamEntry>)
    requires es != [] && es[0].fields != [] && IdsStep(es) && |es[0].fields| < |StreamTriples(es)|
    ensures StreamTriples(es)[|es[0].fields|].0 != es[0].id
  {
    assert es[1..] != [];
    InFirst(es[1..], 0);
    assert es[0].id != es[0 + 1].id;
  }

  /** The entry of the first stream is not shorter than that of the second: where it ended, the next
      identifier would come. */
  lemma {:induction false} FirstNotShorter(a: seq<StreamPack.StreamEntry>, b: seq<StreamPack.StreamEntry>)
    requires a != [] && b != [] && IdsStep(a) && StreamTriples(a) == StreamTriples(b)
    ensures a[0].id == b[0].id && |b[0].fields| <= |a[0].fields|
  {
    hide StreamTriples, EntryTriples, IdsStep;
    InFirst(a, 0);
    InFirst(b, 0);
    if a[0].fields != [] && |a[0].fields| < |StreamTriples(a)| { AfterFirst(a); }
    if |a[0].fields| < |b[0].fields| { InFirst(b, |a[0].fields|); }
  }

  lemma {:induction false} TriplesDetermine(a: seq<StreamPack.StreamEntry>, b: seq<StreamPack.StreamEntry>)
    requires IdsStep(a) && IdsStep(b) && StreamTriples(a) == StreamTriples(b)
    ensures a == b
    decreases |a|
  {
    SomeRow(a);
    SomeRow(b);
    if a != [] && b != [] {
      FirstNotShorter(a, b);
      FirstNotShorter(b, a);
      var ta, tb := EntryTriples(a[0]), EntryTriples(b[0]);
      var ra, rb := StreamTriples(a[1..]), StreamTriples(b[1..]);
      SplitAlike(ta, ra, tb, rb);
      SameFields(a[0], b[0]);
      LaterStep(a);
      LaterStep(b);
      TriplesDetermine(a[1..], b[1..]);
      assert a == [a[0]] + a[1..] && b == [b[0]] + b[1..];
    }
  }

  lemma SplitAlike<T>(a: seq<T>, b: seq<T>, c: seq<T>, d: seq<T>)
    requires a + b == c + d && |a| == |c|
    ensures a == c && b == d
  {
    assert a == (a + b)[..|a|] && c == (c + d)[..|c|];
    assert b == (a + b)[|a|..] && d == (c + d)[|c|..];
  }

  lemma SameFields(x: StreamPack.StreamEntry, y: StreamPack.StreamEntry)
    requires EntryTriples(x) == EntryTriples(y) && x.id == y.id && |x.fields| == |y.fields|
    ensures x == y
  {
    forall i | 0 <= i < |x.fields|
      ensures x.fields[i] == y.fields[i]
    {
      assert EntryTriples(x)[i] == EntryTriples(y)[i];
    }
    assert x.fields == y.fields;
  }

  lemma LaterStep(es: seq<StreamPack.StreamEntry>)
    requires es != [] && IdsStep(es)
    ensures IdsStep(es[1..])
  {
    forall i | 0 <= i && i + 1 < |es[1..]|
      ensures es[1..][i].id != es[1..][i + 1].id
    {
      assert es[i + 1].id != es[(i + 1) + 1].id;
    }
  }

  /** Two streams with equal tables, neighbouring identifiers being different in each, have the same
      entries. */
  lemma StreamTablesDetermine(a: RdbEntry, b: RdbEntry)
    requires a.value.Stream? && b.value.Stream? && RowsFor(StreamTag, a) == RowsFor(StreamTag, b)
    requires IdsStep(a.value.entries) && IdsStep(b.value.entries)
    ensures a.value.entries == b.value.entries
  {
    hide RowsFor, IdsStep, HoldsTriple, StreamTriples, IsSentinel;
    var rows, s, t := RowsFor(StreamTag, a), StreamTriples(a.value.entries), StreamTriples(b.value.entries);
    StreamReadsBack(a);
    StreamReadsBack(b);
    if a.value.entries == [] || b.value.entries == [] {
      if a.value.entries != [] { StreamNotSentinel(a); }
      if b.value.entries != [] { StreamNotSentinel(b); }
    } else {
      forall i | 0 <= i < |rows|
        ensures s[i] == t[i]
      {
        HoldsOne(rows[i], s[i], t[i]);
      }
      assert s == t;
      TriplesDetermine(a.value.entries, b.value.entries);
    }
  }

  lemma StreamNotSentinel(e: RdbEntry)
    requires e.value.Stream? && e.value.entries != []
    ensures !IsSentinel(StreamTag, RowsFor(StreamTag, e))
  {
    hide RowsFor, StreamTriples;
    StreamReadsBack(e);
    SomeRow(e.value.entries);
    SentinelIsEmpty(StreamTag, RowsFor(StreamTag, e), 8);
  }

  /** Without that the entries are not determined: a field may belong to either of two neighbours that
      share their identifier. */
  lemma SharedIdentifier(e: RdbEntry, id: Bytes, f: (Bytes, Bytes), g: (Bytes, Bytes), h: (Bytes, Bytes), last: Bytes)
    ensures var a := [StreamPack.StreamEntry(id, [f, g]), StreamPack.StreamEntry(id, [h])];
            var b := [StreamPack.StreamEntry(id, [f]), StreamPack.StreamEntry(id, [g, h])];
            var x, y := e.(value := Stream(a, 2, last)), e.(value := Stream(b, 2, last));
            a != b && RowsFor(StreamTag, x) == RowsFor(StreamTag, y)
  {
    hide Ascii;
    var a := [StreamPack.StreamEntry(id, [f, g]), StreamPack.StreamEntry(id, [h])];
    var b := [StreamPack.StreamEntry(id, [f]), StreamPack.StreamEntry(id, [g, h])];
    var x, y := e.(value := Stream(a, 2, last)), e.(value := Stream(b, 2, last));
    assert a[0] != b[0];
    TwoEntries(x, a[0], a[1]);
    TwoEntries(y, b[0], b[1]);
    var lines := [FieldLine(x, 2, id, f), FieldLine(x, 2, id, g), FieldLine(x, 2, id, h)];
    assert EntryLines(x, 2, a[0]) + EntryLines(x, 2, a[1]) == lines;
    assert EntryLines(y, 2, b[0]) + EntryLines(y, 2, b[1]) == lines;
  }

  lemma TwoEntries(e: RdbEntry, p: StreamPack.StreamEntry, q: StreamPack.StreamEntry)
    requires e.value.Stream? && e.value.entries == [p, q] && e.value.length == 2
    ensures RowsFor(StreamTag, e) == EntryLines(e, 2, p) + EntryLines(e, 2, q)
  {
    hide EntryLines;
    assert [p, q][1..] == [q] && [q][1..] == [];
    assert StreamLines(e, 2, [q]) == EntryLines(e, 2, q) + [];
    assert StreamLines(e, 2, [p, q]) == EntryLines(e, 2, p) + StreamLines(e, 2, [q]);
    assert StreamLines(e, 2, [p, q]) == EntryLines(e, 2, p) + EntryLines(e, 2, q);
  }

  // ----- modules -----

  /** A module's table: name and version in every row, and the values numbered, each under the opcode
      of its variant; one row marked `eof` when there are none. */
  lemma ModuleReadsBack(e: RdbEntry)
    requires e.value.Module?
    ensures Named(ModuleTag, 8, "module_name") && Named(ModuleTag, 9, "module_version")
    ensures Named(ModuleTag, 10, "value_index") && Named(ModuleTag, 11, "opcode") && Named(ModuleTag, 12, "int_value")
    ensures Named(ModuleTag, 13, "double_value") && Named(ModuleTag, 14, "string_value")
    ensures var rows, vs := RowsFor(ModuleTag, e), e.value.values;
            && |rows| == AtLeastOne(|vs|)
            && (forall i :: 0 <= i < |rows| ==>
                  && Spells(Nth(rows[i].cells, 8), e.value.name) && Nth(rows[i].cells, 9) == Num(e.value.version)
                  && Nth(rows[i].cells, 10) == Num(i % 0x1_0000_0000))
            && (if vs == [] then Nth(rows[0].cells, 11) == Txt("eof")
                else forall i :: 0 <= i < |rows| ==> HoldsValue(rows[i], vs[i]))
  {
    hide Line, Ascii, HoldsValue, Spells;
    AsciiSpells(e.value.name);
    var vs, name := e.value.values, Ascii(e.value.name);
    if vs == [] {
      var own := [Txt(name), Num(e.value.version), Num(0), Txt("eof"), Null, Null, Null];
      var bytes := |e.value.name| + 4 + 4 + |"eof"|;
      OwnCells(e, 0, "module", own, bytes, 0);
      OwnCells(e, 0, "module", own, bytes, 1);
      OwnCells(e, 0, "module", own, bytes, 2);
      OwnCells(e, 0, "module", own, bytes, 3);
    } else {
      forall i | 0 <= i < |vs|
        ensures var cells := ModuleLine(e, |vs|, i, vs[i]).cells;
                && Spells(Nth(cells, 8), e.value.name) && Nth(cells, 9) == Num(e.value.version)
                && Nth(cells, 10) == Num(i % 0x1_0000_0000)
        ensures HoldsValue(ModuleLine(e, |vs|, i, vs[i]), vs[i])
      {
        ModuleLineHolds(e, |vs|, i, vs[i]);
      }
    }
  }

  /** A value under its opcode, in one of the three value columns: integers as unsigned 64-bit numbers. */
  predicate HoldsValue(row: Row, v: ModuleValue) {
    var opcode, num, float, text := Nth(row.cells, 11), Nth(row.cells, 12), Nth(row.cells, 13), Nth(row.cells, 14);
    match v
    case SignedInt(i) => opcode == Txt("sint") && num == Num(i % 0x1_0000_0000_0000_0000) && float.Null? && text.Null?
    case UnsignedInt(n) => opcode == Txt("uint") && num == Num(n) && float.Null? && text.Null?
    case Float(x) => opcode == Txt("float") && num.Null? && float == Real(x) && text.Null?
    case Double(x) => opcode == Txt("double") && num.Null? && float == Real(x) && text.Null?
    case Text(s) => opcode == Txt("string") && num.Null? && float.Null? && text == Bin(s)
  }

  lemma ModuleLineHolds(e: RdbEntry, n: nat, i: nat, v: ModuleValue)
    requires e.value.Module?
    ensures var row := ModuleLine(e, n, i, v);
            && Spells(Nth(row.cells, 8), e.value.name) && Nth(row.cells, 9) == Num(e.value.version)
            && Nth(row.cells, 10) == Num(i % 0x1_0000_0000) && HoldsValue(row, v)
  {
    hide Line, Ascii, ModuleRowBytes, NumElements, Spells;
    AsciiSpells(e.value.name);
    var head := [Txt(Ascii(e.value.name)), Num(e.value.version), Num(i % U32), Txt(ModuleOpcode(v))];
    var own, m, bytes := head + ModuleCells(v), NumElements(e, n), ModuleRowBytes(e.value.name, v);
    OwnCells(e, m, "module", own, bytes, 0);
    OwnCells(e, m, "module", own, bytes, 1);
    OwnCells(e, m, "module", own, bytes, 2);
    OwnCells(e, m, "module", own, bytes, 3);
    OwnCells(e, m, "module", own, bytes, 4);
    OwnCells(e, m, "module", own, bytes, 5);
    OwnCells(e, m, "module", own, bytes, 6);
  }

  /** Signed values are 64 bits wide, as the reader makes them. */
  predicate Wide64(vs: seq<ModuleValue>) { forall i :: 0 <= i < |vs| && vs[i].SignedInt? ==> InRange(vs[i].i, U64) }

  /** The opcodes' names, told apart by two of their letters. */
  lemma OpcodesDiffer()
    ensures "sint" != "uint" && "sint" != "float" && "sint" != "double" && "sint" != "string"
    ensures "uint" != "float" && "uint" != "double" && "uint" != "string"
    ensures "float" != "double" && "float" != "string" && "double" != "string"
  {
    assert "sint"[0] != "uint"[0] && "sint"[1] != "string"[1] && "sint"[0] != "float"[0] && "sint"[0] != "double"[0];
    assert "uint"[0] != "float"[0] && "uint"[0] != "double"[0] && "uint"[0] != "string"[0];
    assert "float"[0] != "double"[0] && "float"[0] != "string"[0] && "double"[0] != "string"[0];
  }

  lemma HoldsOneValue(row: Row, v: ModuleValue, w: ModuleValue)
    requires HoldsValue(row, v) && HoldsValue(row, w)
    requires (v.SignedInt? ==> InRange(v.i, U64)) && (w.SignedInt? ==> InRange(w.i, U64))
    ensures v == w
  {
    OpcodesDiffer();
    if v.SignedInt? { WrapInjective(v.i, w.i); }
  }

  lemma WrapInjective(i: int, j: int)
    requires InRange(i, U64) && InRange(j, U64) && i % U64 == j % U64
    ensures i == j
  {}

  /** Two modules with equal tables have the same name, version and values. */
  lemma ModuleTablesDetermine(a: RdbEntry, b: RdbEntry)
    requires a.value.Module? && b.value.Module? && RowsFor(ModuleTag, a) == RowsFor(ModuleTag, b)
    requires Wide64(a.value.values) && Wide64(b.value.values)
    ensures a.value == b.value
  {
    hide RowsFor, HoldsValue, Spells;
    var rows, vs, ws := RowsFor(ModuleTag, a), a.value.values, b.value.values;
    ModuleReadsBack(a);
    ModuleReadsBack(b);
    assert Spells(Nth(rows[0].cells, 8), a.value.name) && Nth(rows[0].cells, 9) == Num(a.value.version);
    assert Spells(Nth(rows[0].cells, 8), b.value.name) && Nth(rows[0].cells, 9) == Num(b.value.version);
    SpelledOnce(Nth(rows[0].cells, 8), a.value.name, b.value.name);
    if vs == [] || ws == [] {
      if vs != [] { EofIsNone(rows[0], vs[0]); }
      if ws != [] { EofIsNone(rows[0], ws[0]); }
    } else {
      forall i | 0 <= i < |rows|
        ensures vs[i] == ws[i]
      {
        HoldsOneValue(rows[i], vs[i], ws[i]);
      }
      assert vs == ws;
    }
  }

  lemma EofIsNone(row: Row, v: ModuleValue)
    requires HoldsValue(row, v)
    ensures Nth(row.cells, 11) != Txt("eof")
  {
    assert "eof"[0] == 'e' && "sint"[0] == 's' && "uint"[0] == 'u' && "float"[0] == 'f' && "double"[0] == 'd';
    assert "string"[0] == 's';
  }

  // ----- geo -----

  /** A geo row's point encodes back to the score beside it, and lies strictly inside the limits. */
  lemma GeoReadsBack(e: RdbEntry, i: nat)
    requires IsGeoEntry(e) && i < |e.value.pairs|
    ensures Named(GeoTag, 8, "member") && Named(GeoTag, 9, "longitude") && Named(GeoTag, 10, "latitude")
    ensures Named(GeoTag, 11, "geohash_score") && |RowsFor(GeoTag, e)| == |e.value.pairs|
    ensures var (member, score) := e.value.pairs[i];
            var cells := RowsFor(GeoTag, e)[i].cells;
            var long, lat := Nth(cells, 9), Nth(cells, 10);
            && Nth(cells, 8) == Bin(member) && Nth(cells, 11) == Real(score)
            && long.Real? && long.f.Finite? && lat.Real? && lat.f.Finite?
            && -180.0 < long.f.value < 180.0 && -85.05112878 < lat.f.value < 85.05112878
            && score == Finite(Geohash.Encode(long.f.value, lat.f.value) as real)
  {
    hide Line, Geohash.Decode, Geohash.Encode;
    var xs := e.value.pairs;
    Geohash.DecodeEncode(xs[i].1);
    var p := Geohash.Decode(xs[i].1).value;
    var own := [Bin(xs[i].0), Real(Finite(p.0)), Real(Finite(p.1)), Real(xs[i].1)];
    assert RowsFor(GeoTag, e)[i] == GeoLine(e, |xs|, xs[i]);
    OwnCells(e, NumElements(e, |xs|), "geo", own, |xs[i].0| + 24, 0);
    OwnCells(e, NumElements(e, |xs|), "geo", own, |xs[i].0| + 24, 1);
    OwnCells(e, NumElements(e, |xs|), "geo", own, |xs[i].0| + 24, 2);
    OwnCells(e, NumElements(e, |xs|), "geo", own, |xs[i].0| + 24, 3);
  }

  /** What the `type` column says in a table: the virtual type, or the type the entry was stored as. */
  function KindIn(tag: TypeTag, e: RdbEntry): string {
    match tag
    case GeoTag => "geo"
    case HllTag => "hyperloglog"
    case ModuleTag => "module"
    case StreamTag => "stream"
    case _ => TypeName(e.typeCode)
  }

  /** The size of the whole key: a chunk carries the total, and a stream its declared length. */
  function KeySize(e: RdbEntry): nat {
    match e.value
    case Str(_) => 1
    case Stream(es, length, _) => if length == 0 then |es| else length
    case List(xs) => SizeOf(e, |xs|)
    case Set(xs) => SizeOf(e, |xs|)
    case SortedSet(xs) => SizeOf(e, |xs|)
    case Hash(xs) => SizeOf(e, |xs|)
    case Module(_, _, vs) => SizeOf(e, |vs|)
  }

  function SizeOf(e: RdbEntry, n: nat): nat { if n > 0 && e.totalElements.Some? then e.totalElements.value else n }

  /** A row carries its entry's database, key and metadata, with the type, encoding and size of the key. */
  predicate CarriesKey(e: RdbEntry, kind: string, size: nat, row: Row) {
    && Nth(row.cells, 0) == Num(e.db) && Nth(row.cells, 1) == Bin(e.key) && Nth(row.cells, 2) == Txt(kind)
    && HoldsOption(Nth(row.cells, 3), e.expiryMs)
    && Nth(row.cells, 4) == (if e.lruIdle.None? then Null else Num(e.lruIdle.value))
    && Nth(row.cells, 5) == (if e.lfuFreq.None? then Null else Num(e.lfuFreq.value as int))
    && Nth(row.cells, 6) == Txt(EncodingName(e.typeCode)) && Nth(row.cells, 7) == Num(size)
  }

  lemma LineCarries(e: RdbEntry, n: nat, kind: string, own: seq<Cell>, bytes: nat)
    ensures CarriesKey(e, kind, n, Line(e, n, kind, own, bytes))
  {
    hide EncodingName;
  }

  lemma AllLinesCarry(e: RdbEntry)
    ensures forall n: nat, kind: string, own: seq<Cell>, bytes: nat ::
              CarriesKey(e, kind, n, Line(e, n, kind, own, bytes))
  {
    forall n: nat, kind: string, own: seq<Cell>, bytes: nat
      ensures CarriesKey(e, kind, n, Line(e, n, kind, own, bytes))
    {
      LineCarries(e, n, kind, own, bytes);
    }
  }

  lemma {:induction false} StreamCarries(e: RdbEntry, n: nat, xs: seq<StreamPack.StreamEntry>)
    ensures forall i :: 0 <= i < |StreamLines(e, n, xs)| ==> CarriesKey(e, "stream", n, StreamLines(e, n, xs)[i])
  {
    hide Line, CarriesKey;
    if xs != [] {
      AllLinesCarry(e);
      StreamCarries(e, n, xs[1..]);
      var first := EntryLines(e, n, xs[0]);
      assert forall i :: 0 <= i < |first| ==> CarriesKey(e, "stream", n, first[i]);
    }
  }

  lemma EveryRowCarriesItsKey(tag: TypeTag, e: RdbEntry)
    ensures Named(tag, 0, "db") && Named(tag, 1, "key") && Named(tag, 2, "type") && Named(tag, 3, "expiry_ms")
    ensures Named(tag, 4, "lru_idle_secs") && Named(tag, 5, "lfu_frequency") && Named(tag, 6, "encoding")
    ensures Named(tag, 7, "num_elements")
    ensures forall i :: 0 <= i < |RowsFor(tag, e)| ==> CarriesKey(e, KindIn(tag, e), KeySize(e), RowsFor(tag, e)[i])
  {
    CommonNames(tag);
    hide Line, CarriesKey, Named, StreamLines, Geohash.Decode, OwnFields, TypeName;
    AllLinesCarry(e);
    if e.value.Stream? { StreamCarries(e, StreamSize(e), e.value.entries); }
  }

  lemma CommonNames(tag: TypeTag)
    ensures Named(tag, 0, "db") && Named(tag, 1, "key") && Named(tag, 2, "type") && Named(tag, 3, "expiry_ms")
    ensures Named(tag, 4, "lru_idle_secs") && Named(tag, 5, "lfu_frequency") && Named(tag, 6, "encoding")
    ensures Named(tag, 7, "num_elements")
  {
    hide OwnFields;
  }

  // ----- bytes -----

  /** How much data a cell holds: bytes and text by length, a number or a double eight bytes. */
  function Held(c: Cell): nat {
    match c
    case Null => 0
    case Bin(b) => |b|
    case Txt(s) => |s|
    case Num(_) => 8
    case Real(_) => 8
  }

  /** The columns whose data a row counts beside its key; of a module's two small numbers four bytes each. */
  function OwnBytes(tag: TypeTag, cells: seq<Cell>): nat {
    match tag
    case StringTag => Held(Nth(cells, 8))
    case ListTag => Held(Nth(cells, 9))
    case SetTag => Held(Nth(cells, 8))
    case ZSetTag => Held(Nth(cells, 8)) + Held(Nth(cells, 9))
    case HashTag => Held(Nth(cells, 8)) + Held(Nth(cells, 9))
    case GeoTag => Held(Nth(cells, 8)) + if Nth(cells, 11).Null? then 0 else 24
    case HllTag => Held(Nth(cells, 10))
    case ModuleTag =>
      Held(Nth(cells, 8)) + 4 + 4 + Held(Nth(cells, 11))
      + Held(Nth(cells, 12)) + Held(Nth(cells, 13)) + Held(Nth(cells, 14))
    case StreamTag => Held(Nth(cells, 8)) + Held(Nth(cells, 9)) + Held(Nth(cells, 10))
  }

  predicate CountsItsData(tag: TypeTag, e: RdbEntry, row: Row) { row.bytes == |e.key| + OwnBytes(tag, row.cells) }

  lemma ElementCounts(tag: TypeTag, e: RdbEntry, i: nat)
    requires tag != ModuleTag && tag != StreamTag && i < |RowsFor(tag, e)|
    ensures CountsItsData(tag, e, RowsFor(tag, e)[i])
  {
    hide CommonCells, Geohash.Decode, HllEncoding, HllCachedCardinality, SaturatingAdd, NumElements, TypeName;
  }

  lemma {:induction false} StreamCounts(e: RdbEntry, n: nat, xs: seq<StreamPack.StreamEntry>, i: nat)
    requires i < |StreamLines(e, n, xs)|
    ensures CountsItsData(StreamTag, e, StreamLines(e, n, xs)[i])
    decreases |xs|
  {
    hide CommonCells;
    var first := EntryLines(e, n, xs[0]);
    if i >= |first| { StreamCounts(e, n, xs[1..], i - |first|); }
  }

  lemma ModuleCounts(e: RdbEntry, i: nat)
    requires e.value.Module? && i < |RowsFor(ModuleTag, e)|
    ensures CountsItsData(ModuleTag, e, RowsFor(ModuleTag, e)[i])
  {
    hide CommonCells, NumElements;
  }

  /** What a row adds to its builder's byte count is the key and the data in its own columns. */
  lemma RowsCountTheirData(tag: TypeTag, e: RdbEntry, i: nat)
    requires i < |RowsFor(tag, e)|
    ensures CountsItsData(tag, e, RowsFor(tag, e)[i])
  {
    if tag == StreamTag {
      var n := StreamSize(e);
      if e.value.entries != [] { StreamCounts(e, n, e.value.entries, i); }
    } else if tag == ModuleTag {
      ModuleCounts(e, i);
    } else {
      ElementCounts(tag, e, i);
    }
  }

  // ----- widths -----

  /** An integer cell is within the width of its column. */
  predicate InWidth(c: Cell, k: Kind) {
    c.Num? ==>
      match k
      case UInt8 => 0 <= c.n < 0x100
      case UInt32 => 0 <= c.n < 0x1_0000_0000
      case UInt64 => 0 <= c.n < 0x1_0000_0000_0000_0000
      case Int64 => -0x8000_0000_0000_0000 <= c.n < 0x8000_0000_0000_0000
      case _ => true
  }

  predicate Signed64(o: Option<int>) { o.Some? ==> -0x8000_0000_0000_0000 <= o.value < 0x8000_0000_0000_0000 }

  /** The entry's numbers have the widths of the fields they are kept in. */
  predicate Typed(e: RdbEntry) {
    && e.db < 0x1_0000_0000 && Signed64(e.expiryMs)
    && (e.lruIdle.Some? ==> e.lruIdle.value < 0x1_0000_0000_0000_0000)
    && KeySize(e) < 0x1_0000_0000_0000_0000
    && match e.value
       case Hash(fs) => forall i | 0 <= i < |fs| :: Signed64(fs[i].expiryMs)
       case Module(_, version, vs) =>
         && version < 0x1_0000_0000
         && forall i | 0 <= i < |vs| && vs[i].UnsignedInt? :: vs[i].u < 0x1_0000_0000_0000_0000
       case _ => true
  }

  lemma CommonWidths(tag: TypeTag, e: RdbEntry, i: nat, c: nat)
    requires Typed(e) && i < |RowsFor(tag, e)| && c < 8
    ensures InWidth(Nth(RowsFor(tag, e)[i].cells, c), Fields(tag)[c].kind)
  {
    hide RowsFor, OwnFields, KindIn, KeySize, EncodingName;
    EveryRowCarriesItsKey(tag, e);
    assert CarriesKey(e, KindIn(tag, e), KeySize(e), RowsFor(tag, e)[i]);
    assert c == 0 || c == 1 || c == 2 || c == 3 || c == 4 || c == 5 || c == 6 || c == 7;
  }

  lemma OwnWidths(tag: TypeTag, e: RdbEntry, i: nat, c: nat)
    requires Typed(e) && i < |RowsFor(tag, e)| && 8 <= c < |Fields(tag)|
    ensures InWidth(Nth(RowsFor(tag, e)[i].cells, c), Fields(tag)[c].kind)
  {
    hide RowsFor, KeySize, Le, Spells;
    RowsForEntry(tag, e);
    match tag {
      case ListTag => ListReadsBack(e);
      case HashTag => HashReadsBack(e);
      case HllTag =>
        StringReadsBack(e);
        HllColumns(e.value.data);
      case ModuleTag => ModuleWidths(e, i, c);
      case _ =>
    }
  }

  lemma ModuleWidths(e: RdbEntry, i: nat, c: nat)
    requires e.value.Module? && Typed(e) && i < |RowsFor(ModuleTag, e)| && 8 <= c < |Fields(ModuleTag)|
    ensures InWidth(Nth(RowsFor(ModuleTag, e)[i].cells, c), Fields(ModuleTag)[c].kind)
  {
    hide RowsFor, KeySize, Spells;
    ModuleReadsBack(e);
    if e.value.values != [] {
      assert HoldsValue(RowsFor(ModuleTag, e)[i], e.value.values[i]);
    } else {
      EofCells(e);
    }
  }

  lemma EofCells(e: RdbEntry)
    requires e.value.Module? && e.value.values == []
    ensures Nth(RowsFor(ModuleTag, e)[0].cells, 12).Null?
  {
    hide Ascii, EncodingName;
  }

  /** No integer column overflows: whatever an entry whose numbers fit their own fields puts into a table
      fits the width of its column. */
  lemma WidthsHold(tag: TypeTag, e: RdbEntry, i: nat, c: nat)
    requires Typed(e) && i < |RowsFor(tag, e)| && c < |Fields(tag)|
    ensures InWidth(Nth(RowsFor(tag, e)[i].cells, c), Fields(tag)[c].kind)
  {
    if c < 8 { CommonWidths(tag, e, i, c); } else { OwnWidths(tag, e, i, c); }
  }
}
