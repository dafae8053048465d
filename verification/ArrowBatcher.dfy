/** The batcher and its iterator as objects, each proved to follow the functions of `Batcher`. */
module ArrowBatching {
  import opened Common
  import opened Types
  import opened Schema
  import opened Builders
  import opened Batcher
  import Machine

  datatype TypedBatch = TypedBatch(tag: TypeTag, batch: RecordBatch)

  function Typed(b: Batch): TypedBatch { TypedBatch(b.tag, RecordBatch(Table(b.tag, b.rows))) }

  function TypedAll(out: seq<Batch>): (r: seq<TypedBatch>)
    ensures |r| == |out|
  {
    seq(|out|, i requires 0 <= i < |out| => Typed(out[i]))
  }

  lemma TypedAppend(a: seq<Batch>, b: seq<Batch>)
    ensures TypedAll(a + b) == TypedAll(a) + TypedAll(b)
  {
    hide Typed;
  }

  /** Where a tag stands in `ALL`. */
  function Rank(t: TypeTag): (i: nat)
    ensures i < |ALL| && ALL[i] == t
  {
    match t
    case StringTag => 0
    case ListTag => 1
    case SetTag => 2
    case ZSetTag => 3
    case HashTag => 4
    case GeoTag => 5
    case HllTag => 6
    case ModuleTag => 7
    case StreamTag => 8
  }

  method NewBuilders() returns (bs: seq<Builder>)
    ensures |bs| == |ALL| && fresh(bs)
    ensures forall i, j :: 0 <= i < j < |bs| ==> bs[i] != bs[j]
    ensures forall i :: 0 <= i < |bs| ==> bs[i].tag == ALL[i] && bs[i].Valid() && bs[i].rows == []
  {
    hide *;
    bs := [];
    for i := 0 to |ALL|
      invariant |bs| == i && fresh(bs)
      invariant forall j, k :: 0 <= j < k < |bs| ==> bs[j] != bs[k]
      invariant forall j :: 0 <= j < |bs| ==> bs[j].tag == ALL[j] && bs[j].Valid() && bs[j].rows == []
    {
      var b := new Builder(ALL[i]);
      bs := bs + [b];
    }
  }

  class ArrowBatcher {
    const cfg: Config
    const builders: seq<Builder>
    var skippedOversized: nat

    /** Nine distinct builders, one a tag, each consistent. */
    ghost predicate Valid()
      reads builders
    {
      && |builders| == |ALL|
      && (forall i, j :: 0 <= i < j < |builders| ==> builders[i] != builders[j])
      && (forall i :: 0 <= i < |builders| ==> builders[i].tag == ALL[i] && builders[i].Valid())
    }

    ghost function Buffered(): Buffers
      reads builders
    {
      if |builders| != |ALL| then EmptyBuffers()
      else
        Buffers(builders[0].rows, builders[1].rows, builders[2].rows, builders[3].rows, builders[4].rows,
                builders[5].rows, builders[6].rows, builders[7].rows, builders[8].rows)
    }

    constructor (config: Config)
      ensures Valid() && cfg == config && skippedOversized == 0 && fresh(builders)
      ensures Buffered() == EmptyBuffers()
    {
      var bs := NewBuilders();
      cfg, builders, skippedOversized := config, bs, 0;
    }

    function BuilderOf(tag: TypeTag): Builder
      requires |builders| == |ALL|
    {
      builders[Rank(tag)]
    }

    /** A builder's rows are its tag's part of the state. */
    lemma BufferedAt(tag: TypeTag)
      requires Valid()
      ensures |builders| == |ALL| && BuilderOf(tag) in builders
      ensures forall i :: 0 <= i < |builders| && i != Rank(tag) ==> builders[i] != BuilderOf(tag)
      ensures Get(Buffered(), tag) == BuilderOf(tag).rows && BuilderOf(tag).tag == tag && BuilderOf(tag).Valid()
    {}

    /** Changing one builder changes only its tag's part. */
    twostate lemma Changed(tag: TypeTag)
      requires old(Valid()) && BuilderOf(tag).Valid()
      requires forall i :: 0 <= i < |builders| && i != Rank(tag) ==> unchanged(builders[i])
      ensures Valid() && Buffered() == Put(old(Buffered()), tag, BuilderOf(tag).rows)
    {
      var k := Rank(tag);
      forall i | 0 <= i < |builders|
        ensures builders[i].Valid()
      {
        if i == k { assert builders[i] == BuilderOf(tag); }
      }
    }

    method AppendTo(tag: TypeTag, e: RdbEntry)
      requires Valid()
      modifies builders
      ensures Valid() && Buffered() == Batcher.AppendRows(old(Buffered()), tag, e)
    {
      hide RowsFor, Put, Get, Builder.Valid;
      BufferedAt(tag);
      var b := BuilderOf(tag);
      b.Push(e);
      Changed(tag);
    }

    method FlushTag(tag: TypeTag, out: seq<TypedBatch>) returns (r: ArrowResult<seq<TypedBatch>>)
      requires Valid()
      modifies builders
      ensures Valid()
      ensures var f := Batcher.FlushTag(tag, old(Buffered()));
              Buffered() == f.buf && r == Fine(out + TypedAll(f.out))
    {
      hide *;
      BufferedAt(tag);
      var b := BuilderOf(tag);
      b.Counts();
      FlushTagDef(tag, Buffered());
      NoneTyped();
      Trailing(out);
      if b.len == 0 { return Fine(out); }
      OneTyped(tag, b.rows);
      var finished := b.Finish();
      Changed(tag);
      r := Fine(out + [TypedBatch(tag, finished.value)]);  // `Finish` never refuses the rows
    }

    method MaybeFlushTag(tag: TypeTag, out: seq<TypedBatch>) returns (r: ArrowResult<seq<TypedBatch>>)
      requires Valid()
      modifies builders
      ensures Valid()
      ensures var f := Batcher.MaybeFlushTag(cfg, tag, old(Buffered()));
              Buffered() == f.buf && r == Fine(out + TypedAll(f.out))
    {
      hide *;
      BufferedAt(tag);
      var b := BuilderOf(tag);
      b.Counts();
      MaybeFlushDef(cfg, tag, Buffered());
      NoneTyped();
      Trailing(out);
      var rowExceeded := b.len >= cfg.batchSize;
      var bytesExceeded := cfg.batchBytes.Some? && b.dataBytes >= cfg.batchBytes.value;
      if rowExceeded || bytesExceeded {
        r := FlushTag(tag, out);
      } else {
        r := Fine(out);
      }
    }

    /** One entry: its rows are buffered, and the batches that reached a threshold are returned. */
    method Push(e: RdbEntry) returns (r: ArrowResult<seq<TypedBatch>>)
      requires Valid()
      modifies builders, this`skippedOversized
      ensures Valid()
      ensures var p := Batcher.Push(cfg, e, old(Buffered()));
              Buffered() == p.buf && r == Fine(TypedAll(p.out))
      ensures skippedOversized == if Oversized(cfg, e) then SaturatingAdd(old(skippedOversized), 1)
              else old(skippedOversized)
    {
      hide *;
      ghost var buf := Buffered();
      PushDef(cfg, e, buf);
      var tag := TypeTagFor(e);
      if Oversized(cfg, e) {
        skippedOversized := SaturatingAdd(skippedOversized, 1);
        NoneTyped();
        return Fine([]);
      }
      AppendTo(tag, e);
      var alsoGeo := ShouldEmitGeo(cfg.geo, tag, e);
      if alsoGeo { AppendTo(GeoTag, e); }
      r := FlushBoth(tag, alsoGeo);
    }

    method FlushBoth(tag: TypeTag, alsoGeo: bool) returns (r: ArrowResult<seq<TypedBatch>>)
      requires Valid()
      modifies builders
      ensures Valid()
      ensures var own := Batcher.MaybeFlushTag(cfg, tag, old(Buffered()));
              var geo := Batcher.MaybeFlushTag(cfg, GeoTag, own.buf);
              if alsoGeo then Buffered() == geo.buf && r == Fine(TypedAll(own.out + geo.out))
              else Buffered() == own.buf && r == Fine(TypedAll(own.out))
    {
      hide *;
      ghost var own := Batcher.MaybeFlushTag(cfg, tag, Buffered());
      r := MaybeFlushTag(tag, []);
      Leading(TypedAll(own.out));
      if alsoGeo {
        ghost var geo := Batcher.MaybeFlushTag(cfg, GeoTag, own.buf);
        r := MaybeFlushTag(GeoTag, r.value);
        TypedAppend(own.out, geo.out);
      }
    }

    /** Everything still buffered, in tag order. */
    method Flush() returns (r: ArrowResult<seq<TypedBatch>>)
      requires Valid()
      modifies builders
      ensures Valid()
      ensures var f := Batcher.Flush(ALL, old(Buffered()));
              Buffered() == f.buf && r == Fine(TypedAll(f.out))
    {
      hide *;
      ghost var whole := Batcher.Flush(ALL, Buffered());
      ghost var done: seq<Batch> := [];
      var out: seq<TypedBatch> := [];
      var i := 0;
      NoneTyped();
      Leading(whole.out);
      assert ALL[0..] == ALL;
      while i < |ALL|
        invariant 0 <= i <= |ALL| && Valid()
        invariant out == TypedAll(done)
        invariant var rest := Batcher.Flush(ALL[i..], Buffered()); whole.buf == rest.buf && whole.out == done + rest.out
      {
        ghost var first := Batcher.FlushTag(ALL[i], Buffered());
        ghost var later := Batcher.Flush(ALL[i + 1..], first.buf);
        FlushFrom(i, Buffered());
        var flushed := FlushTag(ALL[i], out);
        out := flushed.value;
        TypedAppend(done, first.out);
        Regroup(done, first.out, later.out);
        done := done + first.out;
        i := i + 1;
      }
      FlushNone(Buffered());
      Trailing(done);
      r := Fine(out);
    }
  }

  lemma {:induction false} FlushFrom(i: nat, buf: Buffers)
    requires i < |ALL|
    ensures var first := Batcher.FlushTag(ALL[i], buf);
            var later := Batcher.Flush(ALL[i + 1..], first.buf);
            Batcher.Flush(ALL[i..], buf) == Emitted(later.buf, first.out + later.out)
  {
    hide Batcher.FlushTag;
    assert ALL[i..][0] == ALL[i] && ALL[i..][1..] == ALL[i + 1..];
  }

  lemma {:induction false} FlushNone(buf: Buffers)
    ensures Batcher.Flush(ALL[|ALL|..], buf) == Emitted(buf, [])
  {}

  lemma NoneTyped()
    ensures TypedAll([]) == []
  {}

  lemma OneTyped(tag: TypeTag, rows: seq<Row>)
    ensures TypedAll([Batch(tag, rows)]) == [TypedBatch(tag, RecordBatch(Table(tag, rows)))]
  {
    hide Table;
  }

  lemma FlushTagDef(t: TypeTag, buf: Buffers)
    ensures Batcher.FlushTag(t, buf) ==
            if Get(buf, t) == [] then Emitted(buf, []) else Emitted(Put(buf, t, []), [Batch(t, Get(buf, t))])
  {}

  lemma MaybeFlushDef(cfg: Config, t: TypeTag, buf: Buffers)
    ensures Batcher.MaybeFlushTag(cfg, t, buf) ==
            if |Get(buf, t)| >= cfg.batchSize then Batcher.FlushTag(t, buf)
            else if cfg.batchBytes.Some? && SumBytes(Get(buf, t)) >= cfg.batchBytes.value then Batcher.FlushTag(t, buf)
            else Emitted(buf, [])
  {
    hide Batcher.FlushTag, Get, SumBytes;
  }

  lemma PushDef(cfg: Config, e: RdbEntry, buf: Buffers)
    ensures var tag := TypeTagFor(e);
            var buf1 := Batcher.AppendRows(buf, tag, e);
            Batcher.Push(cfg, e, buf) ==
            if Oversized(cfg, e) then Emitted(buf, [])
            else if ShouldEmitGeo(cfg.geo, tag, e) then
              var own := Batcher.MaybeFlushTag(cfg, tag, Batcher.AppendRows(buf1, GeoTag, e));
              var geo := Batcher.MaybeFlushTag(cfg, GeoTag, own.buf);
              Emitted(geo.buf, own.out + geo.out)
            else Batcher.MaybeFlushTag(cfg, tag, buf1)
  {
    hide Batcher.AppendRows, Batcher.MaybeFlushTag, Oversized;
  }

  // ----- the iterator -----

  function Shown(y: ArrowResult<Batch>): ArrowResult<TypedBatch> {
    match y
    case Fine(b) => Fine(Typed(b))
    case Bad(x) => Bad(x)
  }

  function Unsupported(items: seq<Machine.Item>): nat {
    if items == [] then 0
    else (if items[0].Err? && items[0].error.UnknownType? then 1 else 0) + Unsupported(items[1..])
  }

  class BatchIterator {
    const batcher: ArrowBatcher
    var items: seq<Machine.Item>  // what the inner iterator has left
    var pending: seq<TypedBatch>
    var finished: bool
    var skipped: nat
    ghost var queue: seq<Batch>

    ghost predicate Valid()
      reads this, batcher, batcher.builders
    {
      batcher.Valid() && pending == TypedAll(queue)
    }

    /** Everything that is still to be yielded. */
    ghost function Remaining(): seq<ArrowResult<Batch>>
      reads this, batcher, batcher.builders
    {
      Fines(queue) + if finished then [] else Iterate(batcher.cfg, batcher.Buffered(), items)
    }

    constructor (b: ArrowBatcher, inner: seq<Machine.Item>)
      requires b.Valid()
      ensures Valid() && batcher == b && items == inner && skipped == 0 && !finished
      ensures Remaining() == Iterate(b.cfg, b.Buffered(), inner)
    {
      hide *;
      batcher, items, pending, finished, skipped, queue := b, inner, [], false, 0, [];
      new;
      Started();
    }

    lemma Started()
      requires batcher.Valid() && pending == [] && queue == [] && !finished
      ensures Valid() && Remaining() == Iterate(batcher.cfg, batcher.Buffered(), items)
    {
      hide Iterate, Typed, ArrowBatcher.Valid, ArrowBatcher.Buffered;
      Leading(Iterate(batcher.cfg, batcher.Buffered(), items));
    }

    /** The next of what remains, or nothing when nothing remains; each unsupported item passed over
        is counted. */
    method Next() returns (r: Option<ArrowResult<TypedBatch>>)
      requires Valid()
      modifies this`items, this`pending, this`finished, this`skipped, this`queue, batcher`skippedOversized,
          batcher.builders
      ensures Valid()
      ensures if old(Remaining()) == [] then r.None? && Remaining() == [] && finished
              else r == Some(Shown(old(Remaining())[0])) && Remaining() == old(Remaining())[1..]
      ensures skipped + Unsupported(items) == old(skipped + Unsupported(items))
    {
      hide *;
      ghost var all := Remaining();
      while true
        invariant Valid() && Remaining() == all
        invariant skipped + Unsupported(items) == old(skipped + Unsupported(items))
        decreases if finished then 0 else 1, |items|
      {
        if pending != [] {
          var first := PopFirst();
          return Some(Fine(first));
        }
        if finished {
          NothingLeft();
          return None;
        }
        var error := Pull();
        if error.Some? { return Some(Bad(error.value)); }
      }
    }

    lemma NothingLeft()
      requires Valid() && pending == [] && finished
      ensures Remaining() == []
    {
      hide ArrowBatcher.Valid;
    }

    /** One item from the inner iterator, or the final flush when it has none. */
    method Pull() returns (r: Option<ArrowError>)
      requires Valid() && pending == [] && !finished
      modifies this`items, this`pending, this`finished, this`skipped, this`queue, batcher`skippedOversized,
          batcher.builders
      ensures Valid()
      ensures r.None? ==> Remaining() == old(Remaining())
      ensures r.Some? ==>
                && old(Remaining()) != [] && Shown(old(Remaining())[0]) == Bad(r.value)
                && Remaining() == old(Remaining())[1..]
      ensures skipped + Unsupported(items) == old(skipped + Unsupported(items))
      ensures (finished && items == old(items)) || (!finished && |items| < old(|items|))
    {
      hide Iterate, Typed, Batcher.Push, Batcher.Flush, ArrowBatcher.Valid, ArrowBatcher.Buffered;
      Leading(Iterate(batcher.cfg, batcher.Buffered(), items));
      if items == [] {
        finished := true;
        IterateEnd(batcher.cfg, batcher.Buffered());
        queue := Batcher.Flush(ALL, batcher.Buffered()).out;
        var flushed := batcher.Flush();
        pending := flushed.value;
        Trailing(Fines(queue));
        return None;
      }
      var item := items[0];
      if item.Got? {
        IterateGot(batcher.cfg, batcher.Buffered(), items);
        queue := Batcher.Push(batcher.cfg, item.entry, batcher.Buffered()).out;
        var pushed := batcher.Push(item.entry);
        items, pending := items[1..], pushed.value;
        return None;
      }
      IterateErr(batcher.cfg, batcher.Buffered(), items);
      items := items[1..];
      Leading(Iterate(batcher.cfg, batcher.Buffered(), items));
      if item.error.UnknownType? {
        skipped := skipped + 1;
        return None;
      }
      First(Bad(Parser(item.error)), Iterate(batcher.cfg, batcher.Buffered(), items));
      r := Some(Parser(item.error));
    }

    method PopFirst() returns (b: TypedBatch)
      requires Valid() && pending != []
      modifies this`pending, this`queue
      ensures Valid() && queue == old(queue)[1..] && pending == old(pending)[1..]
      ensures Remaining() == old(Remaining())[1..] && old(Remaining()) != []
      ensures Shown(old(Remaining())[0]) == Fine(b)
    {
      hide Iterate, Typed, ArrowBatcher.Valid, ArrowBatcher.Buffered;
      ghost var tail := if finished then [] else Iterate(batcher.cfg, batcher.Buffered(), items);
      FinesPop(queue, tail);
      b := pending[0];
      pending, queue := pending[1..], queue[1..];
    }
  }

  lemma FinesPop(queue: seq<Batch>, tail: seq<ArrowResult<Batch>>)
    requires queue != []
    ensures (Fines(queue) + tail)[1..] == Fines(queue[1..]) + tail && (Fines(queue) + tail)[0] == Fine(queue[0])
  {
    assert Fines(queue)[1..] == Fines(queue[1..]);
  }
}
