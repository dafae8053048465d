/**
 The nine column builders: the rows each entry becomes, the byte accounting, and the record batch
 a builder finishes to.
 */
module Builders {
  import opened Common
  import opened Types
  import opened Schema
  import Geohash
  import StreamPack

  // ----- rows -----

  /** One row: its cells, and the bytes it counts for in the flush budget. */
  datatype Row = Row(cells: seq<Cell>, bytes: nat)

  function OptNum(o: Option<int>): Cell { if o.Some? then Num(o.value) else Null }
  function OptNat(o: Option<nat>): Cell { if o.Some? then Num(o.value) else Null }
  function OptByte(o: Option<Byte>): Cell { if o.Some? then Num(o.value as int) else Null }

  function Ascii(b: Bytes): (s: string)
    ensures |s| == |b|
  {
    seq(|b|, i requires 0 <= i < |b| => b[i] as int as char)
  }

  function CommonCells(e: RdbEntry, numElements: nat, kind: string): (r: seq<Cell>)
    ensures |r| == |CommonFields|
  {
    [Num(e.db), Bin(e.key), Txt(kind), OptNum(e.expiryMs), OptNat(e.lruIdle), OptByte(e.lfuFreq),
     Txt(EncodingName(e.typeCode)), Num(numElements)]
  }

  /** A row of entry `e`; the key is counted with every row. */
  function Line(e: RdbEntry, numElements: nat, kind: string, own: seq<Cell>, bytes: nat): Row {
    Row(CommonCells(e, numElements, kind) + own, |e.key| + bytes)
  }

  /** The logical size of the whole key, also for a chunk of it. */
  function NumElements(e: RdbEntry, n: nat): nat { if e.totalElements.Some? then e.totalElements.value else n }

  const MAX_U64: nat := 0xFFFF_FFFF_FFFF_FFFF

  function SaturatingAdd(a: nat, b: nat): nat { if a + b > MAX_U64 then MAX_U64 else a + b }

  function ListLine(e: RdbEntry, n: nat, i: nat, x: Bytes): Row {
    var offset := if e.elementOffset.Some? then e.elementOffset.value else 0;
    Line(e, NumElements(e, n), TypeName(e.typeCode), [Num(SaturatingAdd(offset, i)), Bin(x)], |x|)
  }

  function SetLine(e: RdbEntry, n: nat, x: Bytes): Row {
    Line(e, NumElements(e, n), TypeName(e.typeCode), [Bin(x)], |x|)
  }

  function ZSetLine(e: RdbEntry, n: nat, x: (Bytes, F64)): Row {
    Line(e, NumElements(e, n), TypeName(e.typeCode), [Bin(x.0), Real(x.1)], |x.0| + 8)
  }

  function HashLine(e: RdbEntry, n: nat, f: HashField): Row {
    var own := [Bin(f.field), Bin(f.value), OptNum(f.expiryMs)];
    Line(e, NumElements(e, n), TypeName(e.typeCode), own, |f.field| + |f.value|)
  }

  function GeoCells(x: (Bytes, F64)): (r: seq<Cell>)
    ensures |r| == 4
  {
    var p := Geohash.Decode(x.1);
    if p.Some? then [Bin(x.0), Real(Finite(p.value.0)), Real(Finite(p.value.1)), Real(x.1)]
    else [Bin(x.0), Null, Null, Real(x.1)]
  }

  function GeoLine(e: RdbEntry, n: nat, x: (Bytes, F64)): Row {
    Line(e, NumElements(e, n), "geo", GeoCells(x), |x.0| + 24)
  }

  function HllLine(e: RdbEntry, data: Bytes): Row {
    Line(e, 1, "hyperloglog", [Txt(HllEncoding(data)), Num(HllCachedCardinality(data)), Bin(data)], |data|)
  }

  function ModuleOpcode(v: ModuleValue): string {
    match v
    case SignedInt(_) => "sint"
    case UnsignedInt(_) => "uint"
    case Float(_) => "float"
    case Double(_) => "double"
    case Text(_) => "string"
  }

  function ModuleValueBytes(v: ModuleValue): nat { if v.Text? then |v.s| else 8 }

  function ModuleRowBytes(name: Bytes, v: ModuleValue): nat { |name| + 4 + 4 + |ModuleOpcode(v)| + ModuleValueBytes(v) }

  /** The integer, double and string cells of a module value. */
  function ModuleCells(v: ModuleValue): (r: seq<Cell>)
    ensures |r| == 3
  {
    match v
    case SignedInt(x) => [Num(x % U64), Null, Null]
    case UnsignedInt(x) => [Num(x), Null, Null]
    case Float(x) => [Null, Real(x), Null]
    case Double(x) => [Null, Real(x), Null]
    case Text(s) => [Null, Null, Bin(s)]
  }

  function ModuleLine(e: RdbEntry, n: nat, i: nat, v: ModuleValue): Row
    requires e.value.Module?
  {
    var head := [Txt(Ascii(e.value.name)), Num(e.value.version), Num(i % U32), Txt(ModuleOpcode(v))];
    Line(e, NumElements(e, n), "module", head + ModuleCells(v), ModuleRowBytes(e.value.name, v))
  }

  function StreamSize(e: RdbEntry): nat
    requires e.value.Stream?
  {
    if e.value.length > 0 then e.value.length else |e.value.entries|
  }

  function FieldLine(e: RdbEntry, n: nat, id: Bytes, f: (Bytes, Bytes)): Row {
    Line(e, n, "stream", [Txt(Ascii(id)), Bin(f.0), Bin(f.1)], |id| + |f.0| + |f.1|)
  }

  function EntryLines(e: RdbEntry, n: nat, x: StreamPack.StreamEntry): (r: seq<Row>)
    ensures |r| == AtLeastOne(|x.fields|)
  {
    if x.fields == [] then [Line(e, n, "stream", [Txt(Ascii(x.id)), Null, Null], |x.id|)]
    else seq(|x.fields|, i requires 0 <= i < |x.fields| => FieldLine(e, n, x.id, x.fields[i]))
  }

  function StreamLines(e: RdbEntry, n: nat, xs: seq<StreamPack.StreamEntry>): (r: seq<Row>)
    ensures |r| == StreamRowCount(xs)
  {
    if xs == [] then [] else EntryLines(e, n, xs[0]) + StreamLines(e, n, xs[1..])
  }

  /** One row an element, or one row of nulls for an empty collection. */
  function OrSentinel(rows: seq<Row>, sentinel: Row): (r: seq<Row>)
    ensures |r| == AtLeastOne(|rows|)
  {
    if rows == [] then [sentinel] else rows
  }

  function EmptyLine(e: RdbEntry, own: seq<Cell>): Row { Line(e, 0, TypeName(e.typeCode), own, 0) }

  function ListRows(e: RdbEntry, xs: seq<Bytes>): (r: seq<Row>)
    ensures |r| == |xs|
  {
    seq(|xs|, i requires 0 <= i < |xs| => ListLine(e, |xs|, i, xs[i]))
  }

  function SetRows(e: RdbEntry, xs: seq<Bytes>): (r: seq<Row>)
    ensures |r| == |xs|
  {
    seq(|xs|, i requires 0 <= i < |xs| => SetLine(e, |xs|, xs[i]))
  }

  function ZSetRows(e: RdbEntry, xs: seq<(Bytes, F64)>): (r: seq<Row>)
    ensures |r| == |xs|
  {
    seq(|xs|, i requires 0 <= i < |xs| => ZSetLine(e, |xs|, xs[i]))
  }

  function HashRows(e: RdbEntry, xs: seq<HashField>): (r: seq<Row>)
    ensures |r| == |xs|
  {
    seq(|xs|, i requires 0 <= i < |xs| => HashLine(e, |xs|, xs[i]))
  }

  function GeoRows(e: RdbEntry, xs: seq<(Bytes, F64)>): (r: seq<Row>)
    ensures |r| == |xs|
  {
    seq(|xs|, i requires 0 <= i < |xs| => GeoLine(e, |xs|, xs[i]))
  }

  function ModuleRows(e: RdbEntry, vs: seq<ModuleValue>): seq<Row>
    requires e.value.Module?
  {
    seq(|vs|, i requires 0 <= i < |vs| => ModuleLine(e, |vs|, i, vs[i]))
  }

  function EmptyModuleLine(e: RdbEntry): Row
    requires e.value.Module?
  {
    var own := [Txt(Ascii(e.value.name)), Num(e.value.version), Num(0), Txt("eof"), Null, Null, Null];
    Line(e, 0, "module", own, |e.value.name| + 4 + 4 + |"eof"|)
  }

  /** Whether the value is of the variant that a tag's builder takes. */
  predicate Takes(tag: TypeTag, e: RdbEntry) {
    match tag
    case StringTag => e.value.Str?
    case ListTag => e.value.List?
    case SetTag => e.value.Set?
    case ZSetTag => e.value.SortedSet?
    case HashTag => e.value.Hash?
    case GeoTag => e.value.SortedSet?
    case HllTag => e.value.Str?
    case ModuleTag => e.value.Module?
    case StreamTag => e.value.Stream?
  }

  /** The rows that the builder of `tag` appends for an entry: none when the variant does not match. */
  function RowsFor(tag: TypeTag, e: RdbEntry): seq<Row> {
    if !Takes(tag, e) then []
    else
      match tag
      case StringTag => [Line(e, 1, TypeName(e.typeCode), [Bin(e.value.data)], |e.value.data|)]
      case ListTag => OrSentinel(ListRows(e, e.value.elems), EmptyLine(e, [Null, Null]))
      case SetTag => OrSentinel(SetRows(e, e.value.members), EmptyLine(e, [Null]))
      case ZSetTag => OrSentinel(ZSetRows(e, e.value.pairs), EmptyLine(e, [Null, Null]))
      case HashTag => OrSentinel(HashRows(e, e.value.fields), EmptyLine(e, [Null, Null, Null]))
      case GeoTag => OrSentinel(GeoRows(e, e.value.pairs), Line(e, 0, "geo", [Null, Null, Null, Null], 0))
      case HllTag => [HllLine(e, e.value.data)]
      case ModuleTag => OrSentinel(ModuleRows(e, e.value.values), EmptyModuleLine(e))
      case StreamTag =>
        var n := StreamSize(e);
        OrSentinel(StreamLines(e, n, e.value.entries), Line(e, n, "stream", [Null, Null, Null], 0))
  }

  function SumBytes(rows: seq<Row>): nat {
    if rows == [] then 0 else SumBytes(rows[..|rows| - 1]) + rows[|rows| - 1].bytes
  }

  lemma {:induction false} SumBytesAppend(a: seq<Row>, b: seq<Row>)
    ensures SumBytes(a + b) == SumBytes(a) + SumBytes(b)
    decreases |b|
  {
    if b == [] {
      assert a + b == a;
    } else {
      var all, front := a + b, b[..|b| - 1];
      assert all[..|all| - 1] == a + front;
      SumBytesAppend(a, front);
    }
  }

  // ----- what the schema promises -----

  predicate RowFits(tag: TypeTag, row: Row) { FitsFields(row.cells, Fields(tag)) }
  predicate RowsFit(tag: TypeTag, rows: seq<Row>) { forall i :: 0 <= i < |rows| ==> RowFits(tag, rows[i]) }

  lemma LineFits(tag: TypeTag, e: RdbEntry, n: nat, kind: string, own: seq<Cell>, bytes: nat)
    requires FitsFields(own, OwnFields(tag))
    ensures RowFits(tag, Line(e, n, kind, own, bytes))
  {
    hide EncodingName, OwnFields;
    var row, fields := Line(e, n, kind, own, bytes), Fields(tag);
    forall i | 0 <= i < |fields|
      ensures FitsField(row.cells[i], fields[i])
    {
      if i < |CommonFields| {
        CommonFits(e, n, kind, i);
      } else {
        assert row.cells[i] == own[i - |CommonFields|];
      }
    }
  }

  lemma CommonFits(e: RdbEntry, n: nat, kind: string, i: nat)
    requires i < |CommonFields|
    ensures FitsField(CommonCells(e, n, kind)[i], CommonFields[i])
  {
    hide EncodingName;
    assert i == 0 || i == 1 || i == 2 || i == 3 || i == 4 || i == 5 || i == 6 || i == 7;
  }

  lemma {:induction false} StreamFits(e: RdbEntry, n: nat, xs: seq<StreamPack.StreamEntry>)
    ensures RowsFit(StreamTag, StreamLines(e, n, xs))
  {
    hide Line, RowFits;
    if xs != [] {
      StreamFits(e, n, xs[1..]);
      var x := xs[0];
      LineFits(StreamTag, e, n, "stream", [Txt(Ascii(x.id)), Null, Null], |x.id|);
      forall i | 0 <= i < |x.fields|
        ensures RowFits(StreamTag, FieldLine(e, n, x.id, x.fields[i]))
      {
        var f := x.fields[i];
        LineFits(StreamTag, e, n, "stream", [Txt(Ascii(x.id)), Bin(f.0), Bin(f.1)], |x.id| + |f.0| + |f.1|);
      }
    }
  }

  lemma ModuleFits(e: RdbEntry, n: nat, i: nat, v: ModuleValue)
    requires e.value.Module?
    ensures RowFits(ModuleTag, ModuleLine(e, n, i, v))
  {
    hide Line, RowFits, Fields;
    var head := [Txt(Ascii(e.value.name)), Num(e.value.version), Num(i % U32), Txt(ModuleOpcode(v))];
    LineFits(ModuleTag, e, NumElements(e, n), "module", head + ModuleCells(v), ModuleRowBytes(e.value.name, v));
  }

  /** Exactly the announced number of rows, each with a cell of the right kind in every column and a
      null in none that is required; other tags' builders get nothing. */
  lemma RowsForEntry(tag: TypeTag, e: RdbEntry)
    ensures RowsFit(tag, RowsFor(tag, e))
    ensures |RowsFor(tag, e)| == if Takes(tag, e) then ExpectedRowCount(e) else 0
    ensures Takes(tag, e) ==> |RowsFor(tag, e)| > 0
    ensures Takes(TypeTagFor(e), e)
  {
    if Takes(tag, e) { RowsFitAll(tag, e); }
  }

  lemma RowsFitAll(tag: TypeTag, e: RdbEntry)
    requires Takes(tag, e)
    ensures RowsFit(tag, RowsFor(tag, e))
  {
    hide RowFits, Line, StreamLines, ModuleLine;
    var kind := TypeName(e.typeCode);
    match tag {
      case StringTag =>
        LineFits(tag, e, 1, kind, [Bin(e.value.data)], |e.value.data|);
      case ListTag => ListFits(e);
      case SetTag =>
        LineFits(tag, e, 0, kind, [Null], 0);
        forall i | 0 <= i < |e.value.members|
          ensures RowFits(tag, SetLine(e, |e.value.members|, e.value.members[i]))
        {
          var x := e.value.members[i];
          LineFits(tag, e, NumElements(e, |e.value.members|), kind, [Bin(x)], |x|);
        }
      case ZSetTag => ZSetFits(e);
      case HashTag => HashFits(e);
      case GeoTag => GeoFits(e);
      case HllTag =>
        var data := e.value.data;
        LineFits(tag, e, 1, "hyperloglog", [Txt(HllEncoding(data)), Num(HllCachedCardinality(data)), Bin(data)],
            |data|);
      case ModuleTag =>
        var own := [Txt(Ascii(e.value.name)), Num(e.value.version), Num(0), Txt("eof"), Null, Null, Null];
        LineFits(tag, e, 0, "module", own, |e.value.name| + 4 + 4 + |"eof"|);
        forall i | 0 <= i < |e.value.values|
          ensures RowFits(tag, ModuleLine(e, |e.value.values|, i, e.value.values[i]))
        {
          ModuleFits(e, |e.value.values|, i, e.value.values[i]);
        }
      case StreamTag =>
        StreamFits(e, StreamSize(e), e.value.entries);
        LineFits(tag, e, StreamSize(e), "stream", [Null, Null, Null], 0);
    }
  }

  lemma ListFits(e: RdbEntry)
    requires e.value.List?
    ensures RowsFit(ListTag, RowsFor(ListTag, e))
  {
    hide RowFits, Line;
    var n, kind := |e.value.elems|, TypeName(e.typeCode);
    var offset := if e.elementOffset.Some? then e.elementOffset.value else 0;
    LineFits(ListTag, e, 0, kind, [Null, Null], 0);
    forall i | 0 <= i < n
      ensures RowFits(ListTag, ListLine(e, n, i, e.value.elems[i]))
    {
      var x := e.value.elems[i];
      LineFits(ListTag, e, NumElements(e, n), kind, [Num(SaturatingAdd(offset, i)), Bin(x)], |x|);
    }
  }

  lemma ZSetFits(e: RdbEntry)
    requires e.value.SortedSet?
    ensures RowsFit(ZSetTag, RowsFor(ZSetTag, e))
  {
    hide RowFits, Line;
    var n, kind := |e.value.pairs|, TypeName(e.typeCode);
    LineFits(ZSetTag, e, 0, kind, [Null, Null], 0);
    forall i | 0 <= i < n
      ensures RowFits(ZSetTag, ZSetLine(e, n, e.value.pairs[i]))
    {
      var x := e.value.pairs[i];
      LineFits(ZSetTag, e, NumElements(e, n), kind, [Bin(x.0), Real(x.1)], |x.0| + 8);
    }
  }

  lemma HashFits(e: RdbEntry)
    requires e.value.Hash?
    ensures RowsFit(HashTag, RowsFor(HashTag, e))
  {
    hide RowFits, Line;
    var n, kind := |e.value.fields|, TypeName(e.typeCode);
    LineFits(HashTag, e, 0, kind, [Null, Null, Null], 0);
    forall i | 0 <= i < n
      ensures RowFits(HashTag, HashLine(e, n, e.value.fields[i]))
    {
      var f := e.value.fields[i];
      var own := [Bin(f.field), Bin(f.value), OptNum(f.expiryMs)];
      LineFits(HashTag, e, NumElements(e, n), kind, own, |f.field| + |f.value|);
    }
  }

  lemma GeoFits(e: RdbEntry)
    requires e.value.SortedSet?
    ensures RowsFit(GeoTag, RowsFor(GeoTag, e))
  {
    hide RowFits, Line, Geohash.Decode;
    var n := |e.value.pairs|;
    LineFits(GeoTag, e, 0, "geo", [Null, Null, Null, Null], 0);
    forall i | 0 <= i < n
      ensures RowFits(GeoTag, GeoLine(e, n, e.value.pairs[i]))
    {
      var x := e.value.pairs[i];
      LineFits(GeoTag, e, NumElements(e, n), "geo", GeoCells(x), |x.0| + 24);
    }
  }

  // ----- columns -----

  function Nth(cells: seq<Cell>, c: nat): Cell { if c < |cells| then cells[c] else Null }

  function Column(rows: seq<Row>, c: nat): (r: seq<Cell>)
    ensures |r| == |rows|
  {
    seq(|rows|, i requires 0 <= i < |rows| => Nth(rows[i].cells, c))
  }

  /** The columns that hold these rows. */
  function Table(tag: TypeTag, rows: seq<Row>): (r: seq<seq<Cell>>)
    ensures |r| == |Fields(tag)|
  {
    seq(|Fields(tag)|, c requires 0 <= c < |Fields(tag)| => Column(rows, c))
  }

  datatype ArrowError = Parser(error: RdbError) | Arrow | Sink(detail: nat)
  datatype ArrowResult<+T> = Fine(value: T) | Bad(error: ArrowError)

  datatype RecordBatch = RecordBatch(columns: seq<seq<Cell>>)

  predicate ColumnFits(col: seq<Cell>, f: Field) { forall i :: 0 <= i < |col| ==> FitsField(col[i], f) }

  /** A record batch is refused unless it has the schema's columns, all of one length, each of its
      field's kind, and without nulls where the field is required. */
  predicate WellFormed(fields: seq<Field>, columns: seq<seq<Cell>>) {
    && |columns| == |fields|
    && (forall c :: 0 <= c < |columns| ==> |columns[c]| == |columns[0]|)
    && (forall c :: 0 <= c < |columns| ==> ColumnFits(columns[c], fields[c]))
  }

  function TryNew(fields: seq<Field>, columns: seq<seq<Cell>>): ArrowResult<RecordBatch> {
    if WellFormed(fields, columns) then Fine(RecordBatch(columns)) else Bad(Arrow)
  }

  lemma TableWellFormed(tag: TypeTag, rows: seq<Row>)
    requires RowsFit(tag, rows)
    ensures WellFormed(Fields(tag), Table(tag, rows))
  {
    hide Fields;
    var fields, columns := Fields(tag), Table(tag, rows);
    forall c | 0 <= c < |columns|
      ensures ColumnFits(columns[c], fields[c])
    {
      forall i | 0 <= i < |rows|
        ensures FitsField(columns[c][i], fields[c])
      {
        assert RowFits(tag, rows[i]);
      }
    }
  }

  /** The columns while `row` is being added to the table of `rows`: the first `k` have its cell. */
  predicate Partly(columns: seq<seq<Cell>>, tag: TypeTag, rows: seq<Row>, row: Row, k: nat) {
    && |columns| == |row.cells| == |Fields(tag)|
    && (forall c :: 0 <= c < k && c < |columns| ==> columns[c] == Column(rows, c) + [row.cells[c]])
    && (forall c :: k <= c < |columns| ==> columns[c] == Column(rows, c))
  }

  lemma PartlyNone(tag: TypeTag, rows: seq<Row>, row: Row)
    requires RowFits(tag, row)
    ensures Partly(Table(tag, rows), tag, rows, row, 0)
  {
    hide Fields;
  }

  lemma PartlyNext(columns: seq<seq<Cell>>, tag: TypeTag, rows: seq<Row>, row: Row, k: nat)
    requires Partly(columns, tag, rows, row, k) && k < |columns|
    ensures Partly(columns[k := columns[k] + [row.cells[k]]], tag, rows, row, k + 1)
  {
    hide Fields, Column;
  }

  /** Once every column has its cell, the row is part of the table. */
  lemma PartlyAll(columns: seq<seq<Cell>>, tag: TypeTag, rows: seq<Row>, row: Row)
    requires Partly(columns, tag, rows, row, |columns|)
    ensures columns == Table(tag, rows + [row])
  {
    hide Fields;
    forall c | 0 <= c < |columns|
      ensures columns[c] == Column(rows + [row], c)
    {
      assert Column(rows + [row], c) == Column(rows, c) + [row.cells[c]];
    }
  }

  /** A column builder: the growing columns, the row counter and the byte counter. `rows` is what
      they hold, row by row. */
  class Builder {
    const tag: TypeTag
    var columns: seq<seq<Cell>>
    var len: nat
    var dataBytes: nat
    ghost var rows: seq<Row>

    ghost predicate Valid()
      reads this
    {
      && columns == Table(tag, rows)
      && len == |rows|
      && dataBytes == SumBytes(rows)
      && RowsFit(tag, rows)
    }

    /** The counters are the number of buffered rows and their bytes. */
    lemma Counts()
      requires Valid()
      ensures len == |rows| && dataBytes == SumBytes(rows)
    {}

    constructor (t: TypeTag)
      ensures Valid() && tag == t && rows == []
    {
      tag := t;
      columns := seq(|Fields(t)|, _ => []);
      len, dataBytes, rows := 0, 0, [];
      new;
      hide Fields;
      assert columns == Table(tag, rows);
    }

    /** The first `k` columns are one cell ahead: they hold the cells of `row`. */
    ghost predicate Filling(row: Row, k: nat)
      reads this
    {
      Partly(columns, tag, rows, row, k) && RowsFit(tag, rows) && RowFits(tag, row)
    }

    /** The counters are one row ahead. */
    ghost predicate Counted(row: Row)
      reads this
    {
      len == |rows| + 1 && dataBytes == SumBytes(rows) + row.bytes
    }

    /** The common columns of one row, each in turn, and the counters. */
    method AppendCommon(e: RdbEntry, numElements: nat, kind: string, bytes: nat, ghost own: seq<Cell>)
        returns (ghost row: Row)
      requires Valid() && RowFits(tag, Line(e, numElements, kind, own, bytes))
      modifies this
      ensures row == Line(e, numElements, kind, own, bytes) && rows == old(rows)
      ensures Filling(row, 8) && Counted(row) && |row.cells| == 8 + |own| && row.cells[8..] == own
    {
      hide Fields, RowFits, Table, Partly, SumBytes, EncodingName;
      row := Line(e, numElements, kind, own, bytes);
      PartlyNone(tag, rows, row);
      AppendCell(row, 0, Num(e.db));
      AppendCell(row, 1, Bin(e.key));
      AppendCell(row, 2, Txt(kind));
      AppendCell(row, 3, OptNum(e.expiryMs));
      AppendCell(row, 4, OptNat(e.lruIdle));
      AppendCell(row, 5, OptByte(e.lfuFreq));
      AppendCell(row, 6, Txt(EncodingName(e.typeCode)));
      AppendCell(row, 7, Num(numElements));
      len := len + 1;
      dataBytes := dataBytes + |e.key| + bytes;
    }

    /** One cell at the end of one column. */
    method AppendCell(ghost row: Row, c: nat, x: Cell)
      requires Filling(row, c) && c < |row.cells| && x == row.cells[c]
      modifies this`columns
      ensures Filling(row, c + 1) && Counted(row) == old(Counted(row))
    {
      hide RowFits, SumBytes;
      PartlyNext(columns, tag, rows, row, c);
      columns := columns[c := columns[c] + [x]];
    }

    /** A row is complete when every column has its cell. */
    ghost method Complete(row: Row)
      requires Filling(row, |row.cells|) && Counted(row)
      modifies this`rows
      ensures Valid() && rows == old(rows) + [row]
    {
      hide RowFits, Fields, Table;
      PartlyAll(columns, tag, rows, row);
      SumBytesAppend(rows, [row]);
      assert SumBytes([row]) == row.bytes by { assert [row][..0] == []; }
      rows := rows + [row];
    }

    method PushString(e: RdbEntry)
      requires Valid() && tag == StringTag && e.value.Str?
      modifies this
      ensures Valid() && rows == old(rows) + RowsFor(StringTag, e)
    {
      hide RowFits, Line, Table, SumBytes, Filling, Counted, Partly;
      RowsFitAll(StringTag, e);
      assert RowFits(tag, RowsFor(StringTag, e)[0]);
      var data := e.value.data;
      ghost var row := AppendCommon(e, 1, TypeName(e.typeCode), |data|, [Bin(data)]);
      AppendCell(row, 8, Bin(data));
      Complete(row);
    }

    method PushHll(e: RdbEntry)
      requires Valid() && tag == HllTag && e.value.Str?
      modifies this
      ensures Valid() && rows == old(rows) + RowsFor(HllTag, e)
    {
      hide RowFits, Line, Table, SumBytes, Filling, Counted, Partly, HllEncoding, HllCachedCardinality;
      RowsFitAll(HllTag, e);
      assert RowFits(tag, RowsFor(HllTag, e)[0]);
      var data := e.value.data;
      ghost var own := [Txt(HllEncoding(data)), Num(HllCachedCardinality(data)), Bin(data)];
      ghost var row := AppendCommon(e, 1, "hyperloglog", |data|, own);
      AppendCell(row, 8, Txt(HllEncoding(data)));
      AppendCell(row, 9, Num(HllCachedCardinality(data)));
      AppendCell(row, 10, Bin(data));
      Complete(row);
    }

    method PushList(e: RdbEntry)
      requires Valid() && tag == ListTag && e.value.List?
      modifies this
      ensures Valid() && rows == old(rows) + RowsFor(ListTag, e)
    {
      hide RowFits, Line, Table, SumBytes, Filling, Counted, Partly;
      RowsFitAll(ListTag, e);
      var xs, kind := e.value.elems, TypeName(e.typeCode);
      var numElements := NumElements(e, |xs|);
      var offset := if e.elementOffset.Some? then e.elementOffset.value else 0;
      if xs == [] {
        assert RowFits(tag, RowsFor(ListTag, e)[0]);
        ghost var row := AppendCommon(e, 0, kind, 0, [Null, Null]);
        AppendCell(row, 8, Null);
        AppendCell(row, 9, Null);
        Complete(row);
      } else {
        var i := 0;
        while i < |xs|
          invariant 0 <= i <= |xs| && Valid()
          invariant rows == old(rows) + RowsFor(ListTag, e)[..i]
        {
          assert RowsFor(ListTag, e)[i] == ListLine(e, |xs|, i, xs[i]);
          ghost var row := AppendCommon(e, numElements, kind, |xs[i]|, [Num(SaturatingAdd(offset, i)), Bin(xs[i])]);
          AppendCell(row, 8, Num(SaturatingAdd(offset, i)));
          AppendCell(row, 9, Bin(xs[i]));
          Complete(row);
          i := i + 1;
        }
      }
    }

    method PushSet(e: RdbEntry)
      requires Valid() && tag == SetTag && e.value.Set?
      modifies this
      ensures Valid() && rows == old(rows) + RowsFor(SetTag, e)
    {
      hide RowFits, Line, Table, SumBytes, Filling, Counted, Partly;
      RowsFitAll(SetTag, e);
      var xs, kind := e.value.members, TypeName(e.typeCode);
      var numElements := NumElements(e, |xs|);
      if xs == [] {
        assert RowFits(tag, RowsFor(SetTag, e)[0]);
        ghost var row := AppendCommon(e, 0, kind, 0, [Null]);
        AppendCell(row, 8, Null);
        Complete(row);
      } else {
        var i := 0;
        while i < |xs|
          invariant 0 <= i <= |xs| && Valid()
          invariant rows == old(rows) + RowsFor(SetTag, e)[..i]
        {
          assert RowsFor(SetTag, e)[i] == SetLine(e, |xs|, xs[i]);
          ghost var row := AppendCommon(e, numElements, kind, |xs[i]|, [Bin(xs[i])]);
          AppendCell(row, 8, Bin(xs[i]));
          Complete(row);
          i := i + 1;
        }
      }
    }

    method PushSortedSet(e: RdbEntry)
      requires Valid() && tag == ZSetTag && e.value.SortedSet?
      modifies this
      ensures Valid() && rows == old(rows) + RowsFor(ZSetTag, e)
    {
      hide RowFits, Line, Table, SumBytes, Filling, Counted, Partly;
      RowsFitAll(ZSetTag, e);
      var xs, kind := e.value.pairs, TypeName(e.typeCode);
      var numElements := NumElements(e, |xs|);
      if xs == [] {
        assert RowFits(tag, RowsFor(ZSetTag, e)[0]);
        ghost var row := AppendCommon(e, 0, kind, 0, [Null, Null]);
        AppendCell(row, 8, Null);
        AppendCell(row, 9, Null);
        Complete(row);
      } else {
        var i := 0;
        while i < |xs|
          invariant 0 <= i <= |xs| && Valid()
          invariant rows == old(rows) + RowsFor(ZSetTag, e)[..i]
        {
          assert RowsFor(ZSetTag, e)[i] == ZSetLine(e, |xs|, xs[i]);
          ghost var row := AppendCommon(e, numElements, kind, |xs[i].0| + 8, [Bin(xs[i].0), Real(xs[i].1)]);
          AppendCell(row, 8, Bin(xs[i].0));
          AppendCell(row, 9, Real(xs[i].1));
          Complete(row);
          i := i + 1;
        }
      }
    }

    method PushHash(e: RdbEntry)
      requires Valid() && tag == HashTag && e.value.Hash?
      modifies this
      ensures Valid() && rows == old(rows) + RowsFor(HashTag, e)
    {
      hide RowFits, Line, Table, SumBytes, Filling, Counted, Partly;
      RowsFitAll(HashTag, e);
      var xs, kind := e.value.fields, TypeName(e.typeCode);
      var numElements := NumElements(e, |xs|);
      if xs == [] {
        assert RowFits(tag, RowsFor(HashTag, e)[0]);
        ghost var row := AppendCommon(e, 0, kind, 0, [Null, Null, Null]);
        AppendCell(row, 8, Null);
        AppendCell(row, 9, Null);
        AppendCell(row, 10, Null);
        Complete(row);
      } else {
        var i := 0;
        while i < |xs|
          invariant 0 <= i <= |xs| && Valid()
          invariant rows == old(rows) + RowsFor(HashTag, e)[..i]
        {
          var f := xs[i];
          assert RowsFor(HashTag, e)[i] == HashLine(e, |xs|, f);
          ghost var own := [Bin(f.field), Bin(f.value), OptNum(f.expiryMs)];
          ghost var row := AppendCommon(e, numElements, kind, |f.field| + |f.value|, own);
          AppendCell(row, 8, Bin(f.field));
          AppendCell(row, 9, Bin(f.value));
          AppendCell(row, 10, OptNum(f.expiryMs));
          Complete(row);
          i := i + 1;
        }
      }
    }

    method PushGeo(e: RdbEntry)
      requires Valid() && tag == GeoTag && e.value.SortedSet?
      modifies this
      ensures Valid() && rows == old(rows) + RowsFor(GeoTag, e)
    {
      hide RowFits, Line, Table, SumBytes, Filling, Counted, Partly, Geohash.Decode;
      RowsFitAll(GeoTag, e);
      var xs := e.value.pairs;
      var numElements := NumElements(e, |xs|);
      if xs == [] {
        assert RowFits(tag, RowsFor(GeoTag, e)[0]);
        ghost var row := AppendCommon(e, 0, "geo", 0, [Null, Null, Null, Null]);
        AppendCell(row, 8, Null);
        AppendCell(row, 9, Null);
        AppendCell(row, 10, Null);
        AppendCell(row, 11, Null);
        Complete(row);
      } else {
        var i := 0;
        while i < |xs|
          invariant 0 <= i <= |xs| && Valid()
          invariant rows == old(rows) + RowsFor(GeoTag, e)[..i]
        {
          assert RowsFor(GeoTag, e)[i] == GeoLine(e, |xs|, xs[i]);
          PushPoint(e, numElements, xs[i].0, xs[i].1);
          i := i + 1;
        }
      }
    }

    /** One member of a geo set: its point, or nulls where the score has none. */
    method PushPoint(e: RdbEntry, numElements: nat, m: Bytes, score: F64)
      requires Valid() && RowFits(tag, Line(e, numElements, "geo", GeoCells((m, score)), |m| + 24))
      modifies this
      ensures Valid() && rows == old(rows) + [Line(e, numElements, "geo", GeoCells((m, score)), |m| + 24)]
    {
      hide RowFits, Line, Table, SumBytes, Filling, Counted, Partly, Geohash.Decode;
      ghost var row := AppendCommon(e, numElements, "geo", |m| + 24, GeoCells((m, score)));
      AppendCell(row, 8, Bin(m));
      var point := Geohash.GeohashDecode(score);
      if point.Some? {
        AppendCell(row, 9, Real(Finite(point.value.0)));
        AppendCell(row, 10, Real(Finite(point.value.1)));
      } else {
        AppendCell(row, 9, Null);
        AppendCell(row, 10, Null);
      }
      AppendCell(row, 11, Real(score));
      Complete(row);
    }

    method PushModule(e: RdbEntry)
      requires Valid() && tag == ModuleTag && e.value.Module?
      modifies this
      ensures Valid() && rows == old(rows) + RowsFor(ModuleTag, e)
    {
      hide RowFits, Line, Table, SumBytes, Filling, Counted, Partly, Ascii;
      RowsFitAll(ModuleTag, e);
      var vs := e.value.values;
      var numElements := NumElements(e, |vs|);
      var name := Ascii(e.value.name);
      if vs == [] {
        assert RowFits(tag, RowsFor(ModuleTag, e)[0]);
        ghost var own := [Txt(name), Num(e.value.version), Num(0), Txt("eof"), Null, Null, Null];
        ghost var row := AppendCommon(e, 0, "module", |e.value.name| + 4 + 4 + |"eof"|, own);
        AppendCell(row, 8, Txt(name));
        AppendCell(row, 9, Num(e.value.version));
        AppendCell(row, 10, Num(0));
        AppendCell(row, 11, Txt("eof"));
        AppendCell(row, 12, Null);
        AppendCell(row, 13, Null);
        AppendCell(row, 14, Null);
        Complete(row);
      } else {
        var i := 0;
        while i < |vs|
          invariant 0 <= i <= |vs| && Valid()
          invariant rows == old(rows) + RowsFor(ModuleTag, e)[..i]
        {
          var v := vs[i];
          assert RowsFor(ModuleTag, e)[i] == ModuleLine(e, |vs|, i, v);
          PushValue(e, |vs|, i, v);
          i := i + 1;
        }
      }
    }

    method PushValue(e: RdbEntry, n: nat, i: nat, v: ModuleValue)
      requires Valid() && tag == ModuleTag && e.value.Module?
      requires RowFits(ModuleTag, ModuleLine(e, n, i, v))
      modifies this
      ensures Valid() && rows == old(rows) + [ModuleLine(e, n, i, v)]
    {
      hide RowFits, Line, Table, SumBytes, Filling, Counted, Partly, Ascii, NumElements, ModuleRowBytes, ModuleOpcode;
      var name, bytes := Ascii(e.value.name), ModuleRowBytes(e.value.name, v);
      ghost var head := [Txt(name), Num(e.value.version), Num(i % U32), Txt(ModuleOpcode(v))];
      ghost var row := AppendCommon(e, NumElements(e, n), "module", bytes, head + ModuleCells(v));
      AppendCell(row, 8, Txt(name));
      AppendCell(row, 9, Num(e.value.version));
      AppendCell(row, 10, Num(i % U32));
      AppendCell(row, 11, Txt(ModuleOpcode(v)));
      PushCells(row, v);
      Complete(row);
    }

    /** The three value columns, of which one has a value. */
    method PushCells(ghost row: Row, v: ModuleValue)
      requires Filling(row, 12) && |row.cells| == 15 && row.cells[12..] == ModuleCells(v)
      modifies this`columns
      ensures Filling(row, 15) && Counted(row) == old(Counted(row))
    {
      hide Filling, Counted;
      match v {
        case SignedInt(x) =>
          AppendCell(row, 12, Num(x % U64));
          AppendCell(row, 13, Null);
          AppendCell(row, 14, Null);
        case UnsignedInt(x) =>
          AppendCell(row, 12, Num(x));
          AppendCell(row, 13, Null);
          AppendCell(row, 14, Null);
        case Float(x) =>
          AppendCell(row, 12, Null);
          AppendCell(row, 13, Real(x));
          AppendCell(row, 14, Null);
        case Double(x) =>
          AppendCell(row, 12, Null);
          AppendCell(row, 13, Real(x));
          AppendCell(row, 14, Null);
        case Text(s) =>
          AppendCell(row, 12, Null);
          AppendCell(row, 13, Null);
          AppendCell(row, 14, Bin(s));
      }
    }

    method PushStream(e: RdbEntry)
      requires Valid() && tag == StreamTag && e.value.Stream?
      modifies this
      ensures Valid() && rows == old(rows) + RowsFor(StreamTag, e)
    {
      hide RowFits, Line, Table, SumBytes, Filling, Counted, Partly, EntryLines;
      RowsFitAll(StreamTag, e);
      var n, xs := StreamSize(e), e.value.entries;
      if xs == [] {
        assert RowFits(tag, RowsFor(StreamTag, e)[0]);
        ghost var row := AppendCommon(e, n, "stream", 0, [Null, Null, Null]);
        AppendCell(row, 8, Null);
        AppendCell(row, 9, Null);
        AppendCell(row, 10, Null);
        Complete(row);
      } else {
        StreamFits(e, n, xs);
        var i := 0;
        assert xs[0..] == xs;
        while i < |xs|
          invariant 0 <= i <= |xs| && Valid() && RowsFit(StreamTag, StreamLines(e, n, xs[i..]))
          invariant rows + StreamLines(e, n, xs[i..]) == old(rows) + StreamLines(e, n, xs)
        {
          StreamStep(e, n, xs, i);
          ghost var done, rest := rows, StreamLines(e, n, xs[i + 1..]);
          PushEntry(e, n, xs[i]);
          assert done + (EntryLines(e, n, xs[i]) + rest) == rows + rest;
          i := i + 1;
        }
        assert StreamLines(e, n, xs[|xs|..]) == [];
        assert rows == rows + [];
      }
    }

    method PushEntry(e: RdbEntry, n: nat, x: StreamPack.StreamEntry)
      requires Valid() && tag == StreamTag && RowsFit(StreamTag, EntryLines(e, n, x))
      modifies this
      ensures Valid() && rows == old(rows) + EntryLines(e, n, x)
    {
      hide RowFits, Line, Table, SumBytes, Filling, Counted, Partly, Ascii;
      if x.fields == [] {
        assert RowFits(StreamTag, EntryLines(e, n, x)[0]);
        ghost var row := AppendCommon(e, n, "stream", |x.id|, [Txt(Ascii(x.id)), Null, Null]);
        AppendCell(row, 8, Txt(Ascii(x.id)));
        AppendCell(row, 9, Null);
        AppendCell(row, 10, Null);
        Complete(row);
      } else {
        var i := 0;
        while i < |x.fields|
          invariant 0 <= i <= |x.fields| && Valid()
          invariant rows == old(rows) + EntryLines(e, n, x)[..i]
        {
          var f := x.fields[i];
          assert EntryLines(e, n, x)[i] == FieldLine(e, n, x.id, f);
          ghost var row := AppendCommon(e, n, "stream", |x.id| + |f.0| + |f.1|, [Txt(Ascii(x.id)), Bin(f.0), Bin(f.1)]);
          AppendCell(row, 8, Txt(Ascii(x.id)));
          AppendCell(row, 9, Bin(f.0));
          AppendCell(row, 10, Bin(f.1));
          Complete(row);
          i := i + 1;
        }
      }
    }

    /** Append an entry's rows; an entry of another variant is silently ignored. */
    method Push(e: RdbEntry)
      requires Valid()
      modifies this
      ensures Valid() && rows == old(rows) + RowsFor(tag, e)
    {
      if !Takes(tag, e) { return; }
      if tag == ListTag { PushList(e); return; }
      if tag == SetTag { PushSet(e); return; }
      if tag == ZSetTag { PushSortedSet(e); return; }
      if tag == HashTag { PushHash(e); return; }
      if tag == GeoTag { PushGeo(e); return; }
      if tag == ModuleTag { PushModule(e); return; }
      if tag == StreamTag { PushStream(e); return; }
      if tag == StringTag { PushString(e); return; }
      PushHll(e);
    }

    /** The buffered rows as a record batch, which is never refused; the builder is empty again. */
    method Finish() returns (r: ArrowResult<RecordBatch>)
      requires Valid()
      modifies this
      ensures Valid() && rows == []
      ensures r == Fine(RecordBatch(Table(tag, old(rows))))
    {
      hide Fields, WellFormed;
      TableWellFormed(tag, rows);
      r := TryNew(Fields(tag), columns);
      columns := seq(|Fields(tag)|, _ => []);
      len, dataBytes, rows := 0, 0, [];
      assert columns == Table(tag, rows);
    }
  }

  lemma {:induction false} StreamStep(e: RdbEntry, n: nat, xs: seq<StreamPack.StreamEntry>, i: nat)
    requires i < |xs|
    ensures StreamLines(e, n, xs[i..]) == EntryLines(e, n, xs[i]) + StreamLines(e, n, xs[i + 1..])
    ensures RowsFit(StreamTag, StreamLines(e, n, xs[i..])) ==>
              RowsFit(StreamTag, EntryLines(e, n, xs[i])) && RowsFit(StreamTag, StreamLines(e, n, xs[i + 1..]))
  {
    hide RowFits, EntryLines;
    assert xs[i..][1..] == xs[i + 1..];
    var a, b := EntryLines(e, n, xs[i]), StreamLines(e, n, xs[i + 1..]);
    assert forall j :: 0 <= j < |a| ==> (a + b)[j] == a[j];
    assert forall j :: 0 <= j < |b| ==> (a + b)[|a| + j] == b[j];
  }
}
