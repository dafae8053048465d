/**
 The batcher: entries are routed to builders, and a builder that reaches a threshold is flushed.
 The buffered rows are the state; what a push, a flush and a whole iteration emit are functions of
 it, and the classes follow those functions.
 */
module Batcher {
  import opened Common
  import opened Types
  import opened Schema
  import opened Builders
  import Geohash
  import Machine
  import StreamPack

  /** `geo` says whether the only built-in heuristic is active. */
  datatype Config = Config(batchSize: nat, batchBytes: Option<nat>, maxEntryBytes: Option<nat>, geo: bool)

  // ----- size estimate -----

  function Sum(w: seq<nat>): nat {
    if w == [] then 0 else Sum(w[..|w| - 1]) + w[|w| - 1]
  }

  function PairLens(fs: seq<(Bytes, Bytes)>): seq<nat> {
    seq(|fs|, i requires 0 <= i < |fs| => |fs[i].0| + |fs[i].1|)
  }

  function FieldLens(es: seq<StreamPack.StreamEntry>): nat {
    if es == [] then 0 else Sum(PairLens(es[0].fields)) + FieldLens(es[1..])
  }

  function EstimateEntryBytes(e: RdbEntry): nat {
    var key := |e.key|;
    match e.value
    case Str(data) => key + |data|
    case List(xs) => Times(key, AtLeastOne(|xs|)) + Sum(seq(|xs|, i requires 0 <= i < |xs| => |xs[i]|))
    case Set(xs) => Times(key, AtLeastOne(|xs|)) + Sum(seq(|xs|, i requires 0 <= i < |xs| => |xs[i]|))
    case SortedSet(xs) => Times(key, AtLeastOne(|xs|)) + Sum(seq(|xs|, i requires 0 <= i < |xs| => |xs[i].0| + 8))
    case Hash(xs) =>
      Times(key, AtLeastOne(|xs|)) + Sum(seq(|xs|, i requires 0 <= i < |xs| => |xs[i].field| + |xs[i].value|))
    case Stream(es, _, _) => Times(key, AtLeastOne(StreamRowCount(es))) + FieldLens(es)
    case Module(_, _, vs) =>
      Times(key, AtLeastOne(|vs|)) + Sum(seq(|vs|, i requires 0 <= i < |vs| => ModuleValueBytes(vs[i])))
  }

  function Times(a: nat, n: nat): nat { a * n }

  lemma TimesStep(a: nat, m: nat, n: nat)
    ensures Times(a, m + n) == Times(a, m) + Times(a, n)
  {}

  lemma TimesOne(a: nat)
    ensures Times(a, 0) == 0 && Times(a, 1) == a
  {}

  /** Rows that each count the key and a weight of their own. */
  lemma {:induction false} WeighedRows(rows: seq<Row>, key: nat, w: seq<nat>)
    requires |rows| == |w| && forall i :: 0 <= i < |rows| ==> rows[i].bytes == key + w[i]
    ensures SumBytes(rows) == Times(key, |rows|) + Sum(w)
    decreases |rows|
  {
    hide Times;
    TimesOne(key);
    if rows != [] {
      var n := |rows| - 1;
      WeighedRows(rows[..n], key, w[..n]);
      TimesStep(key, n, 1);
    }
  }

  lemma OneRow(row: Row)
    ensures SumBytes([row]) == row.bytes
  {
    assert [row][..0] == [];
  }

  predicate ExactlyEstimated(tag: TypeTag) {
    tag == StringTag || tag == HllTag || tag == ListTag || tag == SetTag || tag == ZSetTag || tag == HashTag
  }

  /** The identifiers of a stream's rows. */
  function IdBytes(es: seq<StreamPack.StreamEntry>): nat {
    if es == [] then 0 else Times(|es[0].id|, AtLeastOne(|es[0].fields|)) + IdBytes(es[1..])
  }

  function OpcodeLength(v: ModuleValue): nat {
    match v
    case SignedInt(_) => 4
    case UnsignedInt(_) => 4
    case Float(_) => 5
    case Double(_) => 6
    case Text(_) => 6
  }

  /** What the estimate leaves out: a stream's identifiers, and in every module row the name, the version
      and the index of four bytes each, and the opcode. */
  function Beside(v: RdbValue): nat {
    match v
    case Stream(es, _, _) => IdBytes(es)
    case Module(name, _, vs) =>
      if vs == [] then |name| + 8 + 3
      else Sum(seq(|vs|, i requires 0 <= i < |vs| => |name| + 8 + OpcodeLength(vs[i])))
    case _ => 0
  }

  /** The growth of the entry's own builder is the estimate, and for streams and modules what it leaves out. */
  lemma EstimateIsGrowth(e: RdbEntry)
    ensures SumBytes(RowsFor(TypeTagFor(e), e)) == EstimateEntryBytes(e) + Beside(e.value)
  {
    hide Times, CommonCells, Sum, RowsFor, EstimateEntryBytes, SumBytes, IdBytes;
    match e.value {
      case Str(_) => StringGrowth(e);
      case List(_) => MembersGrowth(e);
      case Set(_) => MembersGrowth(e);
      case SortedSet(_) => PairsGrowth(e);
      case Hash(_) => PairsGrowth(e);
      case Stream(_, _, _) => StreamGrowth(e);
      case Module(_, _, _) => ModuleGrowth(e);
    }
  }

  lemma StringGrowth(e: RdbEntry)
    requires e.value.Str?
    ensures SumBytes(RowsFor(TypeTagFor(e), e)) == EstimateEntryBytes(e)
  {
    hide CommonCells;
    OneRow(RowsFor(TypeTagFor(e), e)[0]);
  }

  lemma MembersGrowth(e: RdbEntry)
    requires e.value.List? || e.value.Set?
    ensures SumBytes(RowsFor(TypeTagFor(e), e)) == EstimateEntryBytes(e)
  {
    hide Times, CommonCells, Sum;
    TimesOne(|e.key|);
    SumEmpty();
    if e.value.List? {
      var xs := e.value.elems;
      if xs == [] { OneRow(EmptyLine(e, [Null, Null])); }
      WeighedRows(ListRows(e, xs), |e.key|, seq(|xs|, i requires 0 <= i < |xs| => |xs[i]|));
    } else {
      var xs := e.value.members;
      if xs == [] { OneRow(EmptyLine(e, [Null])); }
      WeighedRows(SetRows(e, xs), |e.key|, seq(|xs|, i requires 0 <= i < |xs| => |xs[i]|));
    }
  }

  lemma PairsGrowth(e: RdbEntry)
    requires e.value.SortedSet? || e.value.Hash?
    ensures SumBytes(RowsFor(TypeTagFor(e), e)) == EstimateEntryBytes(e)
  {
    hide Times, CommonCells, Sum;
    TimesOne(|e.key|);
    SumEmpty();
    if e.value.SortedSet? {
      var xs := e.value.pairs;
      if xs == [] { OneRow(EmptyLine(e, [Null, Null])); }
      WeighedRows(ZSetRows(e, xs), |e.key|, seq(|xs|, i requires 0 <= i < |xs| => |xs[i].0| + 8));
    } else {
      var xs := e.value.fields;
      if xs == [] { OneRow(EmptyLine(e, [Null, Null, Null])); }
      WeighedRows(HashRows(e, xs), |e.key|, seq(|xs|, i requires 0 <= i < |xs| => |xs[i].field| + |xs[i].value|));
    }
  }

  lemma SumEmpty()
    ensures Sum([]) == 0
  {}

  lemma {:induction false} SumAdds(w: seq<nat>, v: seq<nat>, both: seq<nat>)
    requires |w| == |v| == |both| && forall i :: 0 <= i < |w| ==> both[i] == w[i] + v[i]
    ensures Sum(both) == Sum(w) + Sum(v)
    decreases |w|
  {
    if w != [] { SumAdds(w[..|w| - 1], v[..|w| - 1], both[..|w| - 1]); }
  }

  lemma OpcodeIsLong(v: ModuleValue)
    ensures |ModuleOpcode(v)| == OpcodeLength(v)
  {}

  lemma ModuleGrowth(e: RdbEntry)
    requires e.value.Module?
    ensures SumBytes(RowsFor(ModuleTag, e)) == EstimateEntryBytes(e) + Beside(e.value)
  {
    hide Times, CommonCells, Ascii, ModuleOpcode, OpcodeLength;
    var vs, name := e.value.values, e.value.name;
    TimesOne(|e.key|);
    SumEmpty();
    if vs == [] {
      OneRow(EmptyModuleLine(e));
    } else {
      forall i | 0 <= i < |vs| ensures |ModuleOpcode(vs[i])| == OpcodeLength(vs[i]) { OpcodeIsLong(vs[i]); }
      var w := seq(|vs|, i requires 0 <= i < |vs| => ModuleRowBytes(name, vs[i]));
      WeighedRows(ModuleRows(e, vs), |e.key|, w);
      SumAdds(
        seq(|vs|, i requires 0 <= i < |vs| => ModuleValueBytes(vs[i])),
        seq(|vs|, i requires 0 <= i < |vs| => |name| + 8 + OpcodeLength(vs[i])), w);
    }
  }

  lemma {:induction false} StreamLinesGrowth(e: RdbEntry, n: nat, es: seq<StreamPack.StreamEntry>)
    ensures SumBytes(StreamLines(e, n, es)) == Times(|e.key|, StreamRowCount(es)) + FieldLens(es) + IdBytes(es)
  {
    hide Times, CommonCells, Ascii, Sum, EntryLines;
    TimesOne(|e.key|);
    if es != [] {
      var first := EntryLines(e, n, es[0]);
      StreamLinesGrowth(e, n, es[1..]);
      SumBytesAppend(first, StreamLines(e, n, es[1..]));
      EntryGrowth(e, n, es[0]);
      TimesStep(|e.key|, AtLeastOne(|es[0].fields|), StreamRowCount(es[1..]));
    }
  }

  lemma EntryGrowth(e: RdbEntry, n: nat, x: StreamPack.StreamEntry)
    ensures var rows := AtLeastOne(|x.fields|);
            SumBytes(EntryLines(e, n, x)) == Times(|e.key|, rows) + Sum(PairLens(x.fields)) + Times(|x.id|, rows)
  {
    hide Times, CommonCells, Ascii;
    TimesOne(|e.key|);
    TimesOne(|x.id|);
    if x.fields == [] {
      OneRow(EntryLines(e, n, x)[0]);
    } else {
      var fs := x.fields;
      var w := seq(|fs|, i requires 0 <= i < |fs| => |x.id| + |fs[i].0| + |fs[i].1|);
      WeighedRows(EntryLines(e, n, x), |e.key|, w);
      SumShifted(PairLens(fs), w, |x.id|);
    }
  }

  lemma StreamGrowth(e: RdbEntry)
    requires e.value.Stream?
    ensures SumBytes(RowsFor(StreamTag, e)) == EstimateEntryBytes(e) + Beside(e.value)
  {
    hide Times, CommonCells, EntryLines;
    var n, es := StreamSize(e), e.value.entries;
    TimesOne(|e.key|);
    StreamLinesGrowth(e, n, es);
    if es == [] { OneRow(Line(e, n, "stream", [Null, Null, Null], 0)); }
  }

  /** A geo row counts 16 bytes more than the sorted-set row beside it. */
  lemma GeoGrowth(e: RdbEntry)
    requires IsGeoEntry(e)
    ensures SumBytes(RowsFor(GeoTag, e)) == EstimateEntryBytes(e) + Times(16, |e.value.pairs|)
  {
    hide Times, CommonCells, Geohash.Decode, Sum;
    var xs := e.value.pairs;
    var w := seq(|xs|, i requires 0 <= i < |xs| => |xs[i].0| + 8);
    var v := seq(|xs|, i requires 0 <= i < |xs| => |xs[i].0| + 24);
    WeighedRows(GeoRows(e, xs), |e.key|, v);
    SumShifted(w, v, 16);
  }

  lemma {:induction false} SumShifted(w: seq<nat>, v: seq<nat>, c: nat)
    requires |w| == |v| && forall i :: 0 <= i < |w| ==> v[i] == w[i] + c
    ensures Sum(v) == Sum(w) + Times(c, |w|)
    decreases |w|
  {
    if w == [] {
      TimesOne(c);
    } else {
      SumShifted(w[..|w| - 1], v[..|w| - 1], c);
      TimesStep(c, |w| - 1, 1);
      TimesOne(c);
    }
  }

  /** A stream's identifiers are at most `c` bytes; a module's name and its row's fixed columns too. */
  predicate ExtraWithin(c: nat, v: RdbValue) {
    match v
    case Stream(es, _, _) => forall i :: 0 <= i < |es| ==> |es[i].id| <= c
    case Module(name, _, _) => |name| + 14 <= c
    case _ => true
  }

  lemma {:induction false} SumCapped(w: seq<nat>, c: nat)
    requires forall i :: 0 <= i < |w| ==> w[i] <= c
    ensures Sum(w) <= Times(c, |w|)
    decreases |w|
  {
    if w == [] {
      TimesOne(c);
    } else {
      SumCapped(w[..|w| - 1], c);
      TimesStep(c, |w| - 1, 1);
      TimesOne(c);
    }
  }

  lemma TimesBelow(a: nat, c: nat, n: nat)
    requires a <= c
    ensures Times(a, n) <= Times(c, n)
  {}

  lemma {:induction false} IdsCapped(es: seq<StreamPack.StreamEntry>, c: nat)
    requires forall i :: 0 <= i < |es| ==> |es[i].id| <= c
    ensures IdBytes(es) <= Times(c, StreamRowCount(es))
  {
    hide Times, AtLeastOne;
    TimesOne(c);
    if es != [] {
      IdsCapped(es[1..], c);
      TimesBelow(|es[0].id|, c, AtLeastOne(|es[0].fields|));
      TimesStep(c, AtLeastOne(|es[0].fields|), StreamRowCount(es[1..]));
    }
  }

  /** What the estimate leaves out is at most `c` bytes a row, if no identifier and no fixed columns weigh
      more. */
  lemma BesideCapped(e: RdbEntry, c: nat)
    requires ExtraWithin(c, e.value)
    ensures Beside(e.value) <= Times(c, ExpectedRowCount(e))
  {
    hide Times, Sum;
    TimesOne(c);
    if e.value.Stream? {
      var es := e.value.entries;
      IdsCapped(es, c);
    } else if e.value.Module? {
      var vs, name := e.value.values, e.value.name;
      SumCapped(seq(|vs|, i requires 0 <= i < |vs| => |name| + 8 + OpcodeLength(vs[i])), c);
    }
  }

  // ----- what the batcher does, on buffered rows -----

  /** The rows in each builder. */
  datatype Buffers = Buffers(
    string_: seq<Row>, list: seq<Row>, set_: seq<Row>, zset: seq<Row>, hash: seq<Row>,
    geo: seq<Row>, hll: seq<Row>, module_: seq<Row>, stream: seq<Row>)

  function EmptyBuffers(): Buffers { Buffers([], [], [], [], [], [], [], [], []) }

  function Get(b: Buffers, t: TypeTag): seq<Row> {
    match t
    case StringTag => b.string_
    case ListTag => b.list
    case SetTag => b.set_
    case ZSetTag => b.zset
    case HashTag => b.hash
    case GeoTag => b.geo
    case HllTag => b.hll
    case ModuleTag => b.module_
    case StreamTag => b.stream
  }

  function Put(b: Buffers, t: TypeTag, rows: seq<Row>): Buffers {
    match t
    case StringTag => b.(string_ := rows)
    case ListTag => b.(list := rows)
    case SetTag => b.(set_ := rows)
    case ZSetTag => b.(zset := rows)
    case HashTag => b.(hash := rows)
    case GeoTag => b.(geo := rows)
    case HllTag => b.(hll := rows)
    case ModuleTag => b.(module_ := rows)
    case StreamTag => b.(stream := rows)
  }

  lemma GetPut(b: Buffers, t: TypeTag, rows: seq<Row>, s: TypeTag)
    ensures Get(Put(b, t, rows), s) == if s == t then rows else Get(b, s)
  {}

  datatype Batch = Batch(tag: TypeTag, rows: seq<Row>)
  datatype Emitted = Emitted(buf: Buffers, out: seq<Batch>)

  predicate Oversized(cfg: Config, e: RdbEntry) {
    cfg.maxEntryBytes.Some? && EstimateEntryBytes(e) > cfg.maxEntryBytes.value
  }

  predicate Full(cfg: Config, rows: seq<Row>) {
    |rows| >= cfg.batchSize || (cfg.batchBytes.Some? && SumBytes(rows) >= cfg.batchBytes.value)
  }

  function FlushTag(t: TypeTag, buf: Buffers): Emitted {
    if Get(buf, t) == [] then Emitted(buf, []) else Emitted(Put(buf, t, []), [Batch(t, Get(buf, t))])
  }

  function MaybeFlushTag(cfg: Config, t: TypeTag, buf: Buffers): Emitted {
    if Full(cfg, Get(buf, t)) then FlushTag(t, buf) else Emitted(buf, [])
  }

  function AppendRows(buf: Buffers, t: TypeTag, e: RdbEntry): Buffers { Put(buf, t, Get(buf, t) + RowsFor(t, e)) }

  /** One entry: its own builder, the geo builder beside it, then the flushes in that order. */
  function Push(cfg: Config, e: RdbEntry, buf: Buffers): Emitted {
    var tag := TypeTagFor(e);
    if Oversized(cfg, e) then Emitted(buf, [])
    else
      var buf1 := AppendRows(buf, tag, e);
      if ShouldEmitGeo(cfg.geo, tag, e) then
        var own := MaybeFlushTag(cfg, tag, AppendRows(buf1, GeoTag, e));
        var geo := MaybeFlushTag(cfg, GeoTag, own.buf);
        Emitted(geo.buf, own.out + geo.out)
      else MaybeFlushTag(cfg, tag, buf1)
  }

  function Flush(tags: seq<TypeTag>, buf: Buffers): Emitted {
    if tags == [] then Emitted(buf, [])
    else
      var first := FlushTag(tags[0], buf);
      var rest := Flush(tags[1..], first.buf);
      Emitted(rest.buf, first.out + rest.out)
  }

  function Fines(out: seq<Batch>): seq<ArrowResult<Batch>> {
    seq(|out|, i requires 0 <= i < |out| => Fine(out[i]))
  }

  /** Everything the iterator yields: skipped types vanish, other errors pass through. */
  function Iterate(cfg: Config, buf: Buffers, items: seq<Machine.Item>): seq<ArrowResult<Batch>>
    decreases |items|
  {
    hide Push, Flush;
    if items == [] then Fines(Flush(ALL, buf).out)
    else
      match items[0]
      case Got(e) => var p := Push(cfg, e, buf); Fines(p.out) + Iterate(cfg, p.buf, items[1..])
      case Err(UnknownType(_)) => Iterate(cfg, buf, items[1..])
      case Err(x) => [Bad(Parser(x))] + Iterate(cfg, buf, items[1..])
  }

  // ----- unfolding an iteration -----

  lemma {:induction false} IterateEnd(cfg: Config, buf: Buffers)
    ensures Iterate(cfg, buf, []) == Fines(Flush(ALL, buf).out)
  {
    hide Flush;
  }

  lemma {:induction false} IterateGot(cfg: Config, buf: Buffers, items: seq<Machine.Item>)
    requires items != [] && items[0].Got?
    ensures var p := Push(cfg, items[0].entry, buf);
            Iterate(cfg, buf, items) == Fines(p.out) + Iterate(cfg, p.buf, items[1..])
  {
    hide Push, Flush;
  }

  lemma {:induction false} IterateErr(cfg: Config, buf: Buffers, items: seq<Machine.Item>)
    requires items != [] && items[0].Err?
    ensures var x, rest := items[0].error, Iterate(cfg, buf, items[1..]);
            Iterate(cfg, buf, items) == if x.UnknownType? then rest else [Bad(Parser(x))] + rest
  {
    hide Push, Flush;
  }

  lemma First<T>(x: T, rest: seq<T>)
    ensures ([x] + rest)[0] == x && ([x] + rest)[1..] == rest
  {}

  lemma Trailing<T>(x: seq<T>)
    ensures x + [] == x
  {}

  // ----- conservation and order -----

  function RowsIn(t: TypeTag, b: Batch): seq<Row> { if b.tag == t then b.rows else [] }

  /** The rows that one tag's batches carry, in order. */
  function RowsOf(t: TypeTag, out: seq<Batch>): seq<Row> {
    if out == [] then [] else RowsIn(t, out[0]) + RowsOf(t, out[1..])
  }

  function BatchIn(y: ArrowResult<Batch>): seq<Batch> { if y.Fine? then [y.value] else [] }

  function BatchesOf(ys: seq<ArrowResult<Batch>>): seq<Batch> {
    if ys == [] then [] else BatchIn(ys[0]) + BatchesOf(ys[1..])
  }

  lemma {:induction false} RowsOfAppend(t: TypeTag, a: seq<Batch>, b: seq<Batch>)
    ensures RowsOf(t, a + b) == RowsOf(t, a) + RowsOf(t, b)
  {
    hide RowsIn;
    if a == [] {
      assert a + b == b;
    } else {
      assert (a + b)[1..] == a[1..] + b && (a + b)[0] == a[0];
      RowsOfAppend(t, a[1..], b);
      Regroup(RowsIn(t, a[0]), RowsOf(t, a[1..]), RowsOf(t, b));
    }
  }

  lemma Regroup<T>(x: seq<T>, y: seq<T>, z: seq<T>)
    ensures (x + y) + z == x + (y + z)
  {}

  lemma {:induction false} BatchesOfAppend(a: seq<ArrowResult<Batch>>, b: seq<ArrowResult<Batch>>)
    ensures BatchesOf(a + b) == BatchesOf(a) + BatchesOf(b)
  {
    hide BatchIn;
    if a == [] {
      assert a + b == b;
    } else {
      assert (a + b)[1..] == a[1..] + b && (a + b)[0] == a[0];
      BatchesOfAppend(a[1..], b);
      Regroup(BatchIn(a[0]), BatchesOf(a[1..]), BatchesOf(b));
    }
  }

  lemma {:induction false} BatchesOfFines(out: seq<Batch>)
    ensures BatchesOf(Fines(out)) == out
  {
    if out != [] {
      BatchesOfFines(out[1..]);
      assert Fines(out)[1..] == Fines(out[1..]);
    }
  }

  /** What one entry adds to a tag's table: nothing if oversized; geo rows only beside the sorted set. */
  function Contribution(cfg: Config, t: TypeTag, e: RdbEntry): seq<Row> {
    var tag := TypeTagFor(e);
    if Oversized(cfg, e) then []
    else if t == tag then RowsFor(t, e)
    else if t == GeoTag && ShouldEmitGeo(cfg.geo, tag, e) then RowsFor(GeoTag, e)
    else []
  }

  function Contributions(cfg: Config, t: TypeTag, items: seq<Machine.Item>): seq<Row> {
    if items == [] then []
    else (if items[0].Got? then Contribution(cfg, t, items[0].entry) else []) + Contributions(cfg, t, items[1..])
  }

  lemma {:induction false} FlushTagKeeps(s: TypeTag, buf: Buffers, t: TypeTag)
    ensures var r := FlushTag(s, buf); RowsOf(t, r.out) + Get(r.buf, t) == Get(buf, t)
    ensures forall b :: b in FlushTag(s, buf).out ==> b.rows != []
  {
    hide Get, Put, RowsOf;
    NoRows(t);
    OneBatch(t, Batch(s, Get(buf, s)));
    GetPut(buf, s, [], t);
  }

  lemma {:induction false} NoRows(t: TypeTag)
    ensures RowsOf(t, []) == []
  {}

  lemma {:induction false} OneBatch(t: TypeTag, b: Batch)
    ensures RowsOf(t, [b]) == if b.tag == t then b.rows else []
  {
    assert [b][1..] == [];
    NoRows(t);
  }

  lemma {:induction false} MaybeKeeps(cfg: Config, s: TypeTag, buf: Buffers, t: TypeTag)
    ensures var r := MaybeFlushTag(cfg, s, buf); RowsOf(t, r.out) + Get(r.buf, t) == Get(buf, t)
    ensures forall b :: b in MaybeFlushTag(cfg, s, buf).out ==> b.rows != []
  {
    hide FlushTag, Get, RowsOf;
    FlushTagKeeps(s, buf, t);
    NoRows(t);
  }

  /** One push loses nothing, adds exactly the entry's rows at the end, and emits no empty batch. */
  lemma {:induction false} PushKeeps(cfg: Config, e: RdbEntry, buf: Buffers, t: TypeTag)
    ensures var r := Push(cfg, e, buf); RowsOf(t, r.out) + Get(r.buf, t) == Get(buf, t) + Contribution(cfg, t, e)
    ensures forall b :: b in Push(cfg, e, buf).out ==> b.rows != []
  {
    hide MaybeFlushTag, RowsFor, RowsOf, Oversized, Get, Put, TypeTagFor, ShouldEmitGeo;
    var tag := TypeTagFor(e);
    if !Oversized(cfg, e) {
      var buf1 := AppendRows(buf, tag, e);
      GetPut(buf, tag, Get(buf, tag) + RowsFor(tag, e), t);
      if ShouldEmitGeo(cfg.geo, tag, e) {
        var buf2 := AppendRows(buf1, GeoTag, e);
        GeoIsExtra(cfg, e);
        GetPut(buf, tag, Get(buf, tag) + RowsFor(tag, e), GeoTag);
        GetPut(buf1, GeoTag, Get(buf1, GeoTag) + RowsFor(GeoTag, e), t);
        var own := MaybeFlushTag(cfg, tag, buf2);
        var geo := MaybeFlushTag(cfg, GeoTag, own.buf);
        MaybeKeeps(cfg, tag, buf2, t);
        MaybeKeeps(cfg, GeoTag, own.buf, t);
        RowsOfAppend(t, own.out, geo.out);
        assert RowsOf(t, own.out) + (RowsOf(t, geo.out) + Get(geo.buf, t))
            == (RowsOf(t, own.out) + RowsOf(t, geo.out)) + Get(geo.buf, t);
      } else {
        MaybeKeeps(cfg, tag, buf1, t);
      }
    } else {
      NoRows(t);
    }
  }

  lemma GeoIsExtra(cfg: Config, e: RdbEntry)
    ensures TypeTagFor(e) != GeoTag
  {}

  lemma {:induction false} FlushKeeps(tags: seq<TypeTag>, buf: Buffers, t: TypeTag)
    ensures var r := Flush(tags, buf);
            RowsOf(t, r.out) + Get(r.buf, t) == Get(buf, t) && (t in tags ==> Get(r.buf, t) == [])
    ensures forall b :: b in Flush(tags, buf).out ==> b.rows != []
  {
    hide RowsOf, FlushTag, Get;
    NoRows(t);
    if tags != [] {
      var first := FlushTag(tags[0], buf);
      var rest := Flush(tags[1..], first.buf);
      FlushTagKeeps(tags[0], buf, t);
      FlushKeeps(tags[1..], first.buf, t);
      RowsOfAppend(t, first.out, rest.out);
      assert RowsOf(t, first.out) + (RowsOf(t, rest.out) + Get(rest.buf, t))
          == (RowsOf(t, first.out) + RowsOf(t, rest.out)) + Get(rest.buf, t);
      if t == tags[0] {
        FlushTagEmpties(t, buf);
        EmptyStays(tags[1..], first.buf, t);
      }
    }
  }

  lemma FlushTagEmpties(t: TypeTag, buf: Buffers)
    ensures Get(FlushTag(t, buf).buf, t) == []
    ensures forall s :: Get(buf, s) == [] ==> Get(FlushTag(t, buf).buf, s) == []
  {
    forall s
      ensures Get(Put(buf, t, []), s) == if s == t then [] else Get(buf, s)
    {
      GetPut(buf, t, [], s);
    }
  }

  lemma {:induction false} EmptyStays(tags: seq<TypeTag>, buf: Buffers, t: TypeTag)
    requires Get(buf, t) == []
    ensures Get(Flush(tags, buf).buf, t) == []
  {
    hide FlushTag, Get;
    if tags != [] {
      FlushTagEmpties(tags[0], buf);
      EmptyStays(tags[1..], FlushTag(tags[0], buf).buf, t);
    }
  }

  /** Conservation and order over a whole iteration: a tag's batches, put end to end, are what was
      buffered and then the contributions of the entries in input order; no batch is empty. */
  lemma {:induction false} IterateKeeps(cfg: Config, buf: Buffers, items: seq<Machine.Item>, t: TypeTag)
    ensures RowsOf(t, BatchesOf(Iterate(cfg, buf, items))) == Get(buf, t) + Contributions(cfg, t, items)
    ensures forall b :: b in BatchesOf(Iterate(cfg, buf, items)) ==> b.rows != []
    decreases |items|
  {
    hide Push, Flush, Contribution, RowsOf, BatchesOf, Get;
    if items == [] {
      AllOnce();
      FlushKeeps(ALL, buf, t);
      BatchesOfFines(Flush(ALL, buf).out);
    } else {
      var rest := items[1..];
      match items[0] {
        case Got(e) =>
          var p := Push(cfg, e, buf);
          PushKeeps(cfg, e, buf, t);
          IterateKeeps(cfg, p.buf, rest, t);
          BatchesOfAppend(Fines(p.out), Iterate(cfg, p.buf, rest));
          BatchesOfFines(p.out);
          RowsOfAppend(t, p.out, BatchesOf(Iterate(cfg, p.buf, rest)));
          Regroup(RowsOf(t, p.out), Get(p.buf, t), Contributions(cfg, t, rest));
          Regroup(Get(buf, t), Contribution(cfg, t, e), Contributions(cfg, t, rest));
        case Err(UnknownType(_)) =>
          IterateKeeps(cfg, buf, rest, t);
          Leading(Contributions(cfg, t, rest));
        case Err(x) =>
          IterateKeeps(cfg, buf, rest, t);
          BatchesOfAppend([Bad(Parser(x))], Iterate(cfg, buf, rest));
          NoBatch(Parser(x));
          Leading(BatchesOf(Iterate(cfg, buf, rest)));
          Leading(Contributions(cfg, t, rest));
      }
    }
  }

  lemma Leading<T>(x: seq<T>)
    ensures [] + x == x
  {}

  lemma NoBatch(x: ArrowError)
    ensures BatchesOf([Bad(x)]) == []
  {}

  /** Thresholds decide only where a table is cut: any two settings with the same size skip and
      heuristics give every tag the same rows in the same order. */
  lemma {:induction false} ThresholdsDoNotMatter(a: Config, b: Config, items: seq<Machine.Item>, t: TypeTag)
    requires a.maxEntryBytes == b.maxEntryBytes && a.geo == b.geo
    ensures RowsOf(t, BatchesOf(Iterate(a, EmptyBuffers(), items)))
            == RowsOf(t, BatchesOf(Iterate(b, EmptyBuffers(), items)))
  {
    IterateKeeps(a, EmptyBuffers(), items, t);
    IterateKeeps(b, EmptyBuffers(), items, t);
    SameContributions(a, b, items, t);
  }

  lemma {:induction false} SameContributions(a: Config, b: Config, items: seq<Machine.Item>, t: TypeTag)
    requires a.maxEntryBytes == b.maxEntryBytes && a.geo == b.geo
    ensures Contributions(a, t, items) == Contributions(b, t, items)
    decreases |items|
  {
    if items != [] { SameContributions(a, b, items[1..], t); }
  }

  // ----- peak bounds -----

  predicate Positive(cfg: Config) { cfg.batchSize > 0 && (cfg.batchBytes.Some? ==> cfg.batchBytes.value > 0) }

  /** Fewer rows than one threshold, and fewer bytes than the other. */
  predicate Below(cfg: Config, rows: seq<Row>) {
    |rows| < cfg.batchSize && (cfg.batchBytes == None || SumBytes(rows) < cfg.batchBytes.value)
  }

  predicate AllBelow(cfg: Config, buf: Buffers) { forall t: TypeTag :: Below(cfg, Get(buf, t)) }

  lemma MaybeBelow(cfg: Config, t: TypeTag, buf: Buffers)
    requires Positive(cfg)
    ensures var r := MaybeFlushTag(cfg, t, buf).buf;
            Below(cfg, Get(r, t)) && forall s :: Below(cfg, Get(buf, s)) ==> Below(cfg, Get(r, s))
  {
    hide Get, Put, SumBytes;
    NoBytes();
    forall s
      ensures Get(Put(buf, t, []), s) == if s == t then [] else Get(buf, s)
    {
      GetPut(buf, t, [], s);
    }
  }

  lemma AppendBelow(cfg: Config, buf: Buffers, t: TypeTag, e: RdbEntry)
    ensures forall s :: s != t && Below(cfg, Get(buf, s)) ==> Below(cfg, Get(AppendRows(buf, t, e), s))
  {
    hide Get, Put, SumBytes, RowsFor;
    var rows := Get(buf, t) + RowsFor(t, e);
    forall s
      ensures Get(Put(buf, t, rows), s) == if s == t then rows else Get(buf, s)
    {
      GetPut(buf, t, rows, s);
    }
  }

  /** Every builder is below both thresholds between pushes. */
  lemma PushBelow(cfg: Config, e: RdbEntry, buf: Buffers)
    requires Positive(cfg) && AllBelow(cfg, buf)
    ensures AllBelow(cfg, Push(cfg, e, buf).buf)
  {
    hide Full, Below, Get, AppendRows, MaybeFlushTag, Oversized;
    var tag := TypeTagFor(e);
    if !Oversized(cfg, e) {
      var buf1 := AppendRows(buf, tag, e);
      AppendBelow(cfg, buf, tag, e);
      if ShouldEmitGeo(cfg.geo, tag, e) {
        var buf2 := AppendRows(buf1, GeoTag, e);
        AppendBelow(cfg, buf1, GeoTag, e);
        MaybeBelow(cfg, tag, buf2);
        MaybeBelow(cfg, GeoTag, MaybeFlushTag(cfg, tag, buf2).buf);
      } else {
        MaybeBelow(cfg, tag, buf1);
      }
    }
  }

  lemma EmptyBelow(cfg: Config)
    requires Positive(cfg)
    ensures AllBelow(cfg, EmptyBuffers())
  {
    hide SumBytes;
    NoBytes();
  }

  lemma NoBytes()
    ensures SumBytes([]) == 0
  {}

  /** What a push emits: each batch is its builder's rows, which were below the thresholds, with the
      entry's rows, which reach one of them. */
  lemma PushCuts(cfg: Config, e: RdbEntry, buf: Buffers, b: Batch)
    requires Positive(cfg) && AllBelow(cfg, buf) && b in Push(cfg, e, buf).out
    ensures cfg.maxEntryBytes == None || EstimateEntryBytes(e) <= cfg.maxEntryBytes.value
    ensures b.rows == Get(buf, b.tag) + Contribution(cfg, b.tag, e)
    ensures Below(cfg, Get(buf, b.tag)) && !Below(cfg, b.rows)
  {
    hide RowsFor, SumBytes, EstimateEntryBytes;
  }

  /** Eight bytes of every pair are counted. */
  lemma {:induction false} EightAPair(w: seq<nat>)
    requires forall i :: 0 <= i < |w| ==> w[i] >= 8
    ensures Sum(w) >= 8 * |w|
    decreases |w|
  {
    if w != [] { EightAPair(w[..|w| - 1]); }
  }

  lemma GeoAtMostThrice(e: RdbEntry)
    requires IsGeoEntry(e)
    ensures SumBytes(RowsFor(GeoTag, e)) <= 3 * EstimateEntryBytes(e)
  {
    hide SumBytes, RowsFor, Sum;
    GeoGrowth(e);
    var xs := e.value.pairs;
    EightAPair(seq(|xs|, i requires 0 <= i < |xs| => |xs[i].0| + 8));
  }

  /** The bytes that one entry of at most `r` rows, each with at most `c` bytes beside the estimate, may
      add to a builder under the entry cap M. */
  function Growth(t: TypeTag, cap: nat, r: nat, c: nat): nat {
    if ExactlyEstimated(t) then cap else if t == GeoTag then 3 * cap else cap + Times(c, r)
  }

  /** With an entry cap M and a byte budget B: a batch holds fewer rows than the threshold and `r`
      together, and fewer bytes than B and one entry's growth together: M in the exactly estimated
      builders, 3M for geo rows, and M and `c` bytes for each of `r` rows for streams and modules. */
  predicate Bounded(cfg: Config, r: nat, c: nat, b: Batch) {
    && |b.rows| < cfg.batchSize + r
    && (cfg.batchBytes.Some? && cfg.maxEntryBytes.Some? ==>
          SumBytes(b.rows) < cfg.batchBytes.value + Growth(b.tag, cfg.maxEntryBytes.value, r, c))
  }

  lemma TimesGrows(c: nat, m: nat, n: nat)
    requires m <= n
    ensures Times(c, m) <= Times(c, n)
  {
    TimesStep(c, m, n - m);
  }

  lemma ContributionWeighs(cfg: Config, t: TypeTag, e: RdbEntry, cap: nat, r: nat, c: nat)
    requires EstimateEntryBytes(e) <= cap && ExpectedRowCount(e) <= r && ExtraWithin(c, e.value)
    ensures |Contribution(cfg, t, e)| <= r && SumBytes(Contribution(cfg, t, e)) <= Growth(t, cap, r, c)
  {
    hide RowsFor, SumBytes, EstimateEntryBytes, ExpectedRowCount, Oversized, ExtraWithin, Times;
    RowsForEntry(t, e);
    EstimateIsGrowth(e);
    NoBytes();
    GeoIsExtra(cfg, e);
    if t == GeoTag {
      if ShouldEmitGeo(cfg.geo, TypeTagFor(e), e) { GeoAtMostThrice(e); }
    } else if t == TypeTagFor(e) && !ExactlyEstimated(t) {
      OtherTags(e);
      TimesGrows(c, ExpectedRowCount(e), r);
      BesideCapped(e, c);
    }
  }

  lemma OtherTags(e: RdbEntry)
    requires !ExactlyEstimated(TypeTagFor(e))
    ensures if TypeTagFor(e) == StreamTag then e.value.Stream? else TypeTagFor(e) == ModuleTag && e.value.Module?
  {}

  lemma RowsOnly(cfg: Config, t: TypeTag, e: RdbEntry)
    ensures |Contribution(cfg, t, e)| <= ExpectedRowCount(e)
  {
    hide RowsFor, ExpectedRowCount, Oversized;
    RowsForEntry(t, e);
  }

  /** Every batch that a push emits is bounded. */
  lemma PeakBound(cfg: Config, e: RdbEntry, buf: Buffers, b: Batch, c: nat)
    requires Positive(cfg) && AllBelow(cfg, buf) && b in Push(cfg, e, buf).out && ExtraWithin(c, e.value)
    ensures Bounded(cfg, ExpectedRowCount(e), c, b)
  {
    hide RowsFor, SumBytes, EstimateEntryBytes, ExpectedRowCount, Push, Contribution, ExtraWithin, Growth;
    PushCuts(cfg, e, buf, b);
    SumBytesAppend(Get(buf, b.tag), Contribution(cfg, b.tag, e));
    RowsOnly(cfg, b.tag, e);
    if cfg.maxEntryBytes.Some? {
      ContributionWeighs(cfg, b.tag, e, cfg.maxEntryBytes.value, ExpectedRowCount(e), c);
    }
  }

  // ----- peak bounds over a whole iteration -----

  /** What is buffered, and what has come out, once all of `items` have been taken. */
  function Buffered(cfg: Config, buf: Buffers, items: seq<Machine.Item>): Buffers
    decreases |items|
  {
    hide Push;
    if items == [] then buf
    else Buffered(cfg, if items[0].Got? then Push(cfg, items[0].entry, buf).buf else buf, items[1..])
  }

  function Delivered(cfg: Config, buf: Buffers, items: seq<Machine.Item>): seq<ArrowResult<Batch>>
    decreases |items|
  {
    hide Push;
    if items == [] then []
    else
      match items[0]
      case Got(e) => var p := Push(cfg, e, buf); Fines(p.out) + Delivered(cfg, p.buf, items[1..])
      case Err(UnknownType(_)) => Delivered(cfg, buf, items[1..])
      case Err(x) => [Bad(Parser(x))] + Delivered(cfg, buf, items[1..])
  }

  /** An iteration cut anywhere: what came out up to the cut, and then what the buffers left there
      and the remaining items give. */
  lemma {:induction false} IterateSplit(cfg: Config, buf: Buffers, a: seq<Machine.Item>, b: seq<Machine.Item>)
    ensures Iterate(cfg, buf, a + b) == Delivered(cfg, buf, a) + Iterate(cfg, Buffered(cfg, buf, a), b)
    decreases |a|
  {
    hide Push, Iterate, Fines;
    if a == [] {
      assert a + b == b;
      Leading(Iterate(cfg, buf, b));
    } else {
      var items := a + b;
      assert items[0] == a[0] && items[1..] == a[1..] + b;
      if a[0].Got? {
        var p := Push(cfg, a[0].entry, buf);
        IterateGot(cfg, buf, items);
        IterateSplit(cfg, p.buf, a[1..], b);
        Regroup(Fines(p.out), Delivered(cfg, p.buf, a[1..]), Iterate(cfg, Buffered(cfg, buf, a), b));
      } else {
        IterateErr(cfg, buf, items);
        IterateSplit(cfg, buf, a[1..], b);
        Regroup([Bad(Parser(a[0].error))], Delivered(cfg, buf, a[1..]), Iterate(cfg, Buffered(cfg, buf, a), b));
      }
    }
  }

  lemma {:induction false} BufferedBelow(cfg: Config, buf: Buffers, items: seq<Machine.Item>)
    requires Positive(cfg) && AllBelow(cfg, buf)
    ensures AllBelow(cfg, Buffered(cfg, buf, items))
    decreases |items|
  {
    hide Push, AllBelow;
    if items != [] {
      if items[0].Got? {
        PushBelow(cfg, items[0].entry, buf);
        BufferedBelow(cfg, Push(cfg, items[0].entry, buf).buf, items[1..]);
      } else {
        BufferedBelow(cfg, buf, items[1..]);
      }
    }
  }

  /** No entry brings more than `r` rows, nor more than `c` bytes a row beside the estimate. */
  predicate RowsWithin(items: seq<Machine.Item>, r: nat, c: nat) {
    forall i :: 0 <= i < |items| && items[i].Got? ==>
      ExpectedRowCount(items[i].entry) <= r && ExtraWithin(c, items[i].entry.value)
  }

  predicate AllBounded(cfg: Config, r: nat, c: nat, out: seq<Batch>) { forall b :: b in out ==> Bounded(cfg, r, c, b) }

  lemma BelowIsBounded(cfg: Config, r: nat, c: nat, buf: Buffers, t: TypeTag)
    requires AllBelow(cfg, buf)
    ensures Bounded(cfg, r, c, Batch(t, Get(buf, t)))
  {
    hide SumBytes, Get;
    assert Below(cfg, Get(buf, t));
  }

  lemma FlushTagBelow(cfg: Config, r: nat, c: nat, t: TypeTag, buf: Buffers)
    requires Positive(cfg) && AllBelow(cfg, buf)
    ensures AllBelow(cfg, FlushTag(t, buf).buf) && AllBounded(cfg, r, c, FlushTag(t, buf).out)
  {
    hide SumBytes, Get, Put, Bounded;
    NoBytes();
    BelowIsBounded(cfg, r, c, buf, t);
    forall s
      ensures Get(Put(buf, t, []), s) == if s == t then [] else Get(buf, s)
    {
      GetPut(buf, t, [], s);
    }
  }

  lemma {:induction false} FlushBounded(cfg: Config, r: nat, c: nat, tags: seq<TypeTag>, buf: Buffers)
    requires Positive(cfg) && AllBelow(cfg, buf)
    ensures AllBounded(cfg, r, c, Flush(tags, buf).out)
  {
    hide FlushTag, AllBelow, Bounded;
    if tags != [] {
      FlushTagBelow(cfg, r, c, tags[0], buf);
      FlushBounded(cfg, r, c, tags[1..], FlushTag(tags[0], buf).buf);
    }
  }

  lemma PushBounded(cfg: Config, r: nat, c: nat, e: RdbEntry, buf: Buffers)
    requires Positive(cfg) && AllBelow(cfg, buf) && ExpectedRowCount(e) <= r && ExtraWithin(c, e.value)
    ensures AllBounded(cfg, r, c, Push(cfg, e, buf).out)
  {
    hide Push, AllBelow, SumBytes, ExpectedRowCount, ExtraWithin, Times;
    forall b | b in Push(cfg, e, buf).out
      ensures Bounded(cfg, r, c, b)
    {
      PeakBound(cfg, e, buf, b, c);
      TimesGrows(c, ExpectedRowCount(e), r);
    }
  }

  lemma {:induction false} IterationBounded(cfg: Config, r: nat, c: nat, buf: Buffers, items: seq<Machine.Item>)
    requires Positive(cfg) && AllBelow(cfg, buf) && RowsWithin(items, r, c)
    ensures AllBounded(cfg, r, c, BatchesOf(Iterate(cfg, buf, items)))
    decreases |items|
  {
    hide Push, Flush, Iterate, AllBelow, Bounded, BatchesOf, Fines, ExpectedRowCount, ExtraWithin;
    if items == [] {
      IterateEnd(cfg, buf);
      FlushBounded(cfg, r, c, ALL, buf);
      BatchesOfFines(Flush(ALL, buf).out);
    } else if items[0].Got? {
      var e, rest := items[0].entry, items[1..];
      var p := Push(cfg, e, buf);
      PushBelow(cfg, e, buf);
      PushBounded(cfg, r, c, e, buf);
      IterationBounded(cfg, r, c, p.buf, rest);
      IterateGot(cfg, buf, items);
      BatchesOfAppend(Fines(p.out), Iterate(cfg, p.buf, rest));
      BatchesOfFines(p.out);
    } else {
      var rest := Iterate(cfg, buf, items[1..]);
      IterationBounded(cfg, r, c, buf, items[1..]);
      IterateErr(cfg, buf, items);
      BatchesOfAppend([Bad(Parser(items[0].error))], rest);
      NoBatch(Parser(items[0].error));
      Leading(BatchesOf(rest));
    }
  }

  /** The peak bounds of a whole iteration, from empty builders: after every prefix of the items each
      builder is below both thresholds, and every batch that comes out, those of the final flush
      included, is bounded. */
  lemma {:induction false} PeakOverRun(cfg: Config, r: nat, c: nat, items: seq<Machine.Item>)
    requires Positive(cfg) && RowsWithin(items, r, c)
    ensures forall i :: 0 <= i <= |items| ==> AllBelow(cfg, Buffered(cfg, EmptyBuffers(), items[..i]))
    ensures AllBounded(cfg, r, c, BatchesOf(Iterate(cfg, EmptyBuffers(), items)))
  {
    hide AllBelow, Bounded, RowsWithin, Buffered, Iterate, BatchesOf, AllBounded;
    EmptyBelow(cfg);
    forall i | 0 <= i <= |items|
      ensures AllBelow(cfg, Buffered(cfg, EmptyBuffers(), items[..i]))
    {
      BufferedBelow(cfg, EmptyBuffers(), items[..i]);
    }
    IterationBounded(cfg, r, c, EmptyBuffers(), items);
  }
}
