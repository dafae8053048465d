/** The peak bounds for what the reader yields: how little a row can weigh beside its estimate. */
module Peaks {
  import opened Common
  import opened Types
  import opened Wire
  import opened Machine
  import opened Values
  import Batcher
  import Compact
  import Listpack
  import Naming
  import Printing
  import Recovery
  import Schema
  import StreamPack
  import ValueFormat
  import Ziplist

  function Pow10(k: nat): nat { if k == 0 then 1 else 10 * Pow10(k - 1) }

  lemma {:induction false} DigitsWithin(n: nat, k: nat)
    requires 1 <= k && n < Pow10(k)
    ensures |Digits(n)| <= k
    decreases k
  {
    if n >= 10 { DigitsWithin(n / 10, k - 1); }
  }

  lemma TwentyDigits()
    ensures Pow10(20) > U64
  {
    assert Pow10(5) == 100_000;
    assert Pow10(10) == 10_000_000_000;
    assert Pow10(15) == 1_000_000_000_000_000;
  }

  /** Two numbers of up to twenty digits and a minus sign between them. */
  lemma IdShort(ms: nat, sq: nat)
    requires ms < U64 && sq < U64
    ensures |StreamPack.StreamId(ms, sq)| <= 41
  {
    hide Digits, Pow10;
    TwentyDigits();
    DigitsWithin(ms, 20);
    DigitsWithin(sq, 20);
  }

  predicate ShortIds(es: seq<StreamPack.StreamEntry>) { forall i :: 0 <= i < |es| ==> |es[i].id| <= 41 }

  lemma ShortAppend(a: seq<StreamPack.StreamEntry>, b: seq<StreamPack.StreamEntry>)
    requires ShortIds(a) && ShortIds(b)
    ensures ShortIds(a + b)
  {}

  lemma ShortOne(x: StreamPack.StreamEntry)
    requires |x.id| <= 41
    ensures ShortIds([x]) && ShortIds([])
  {}

  lemma {:induction false} LiveShort(items: seq<StreamPack.Item>, ms: nat, sq: nat, names: seq<Bytes>)
    requires StreamPack.ValidItems(items, ms, sq, names)
    ensures ShortIds(StreamPack.Live(items, ms, sq, names))
    decreases |items|
  {
    hide StreamPack.StreamId, ShortIds;
    if items == [] {
      NoneShort();
    } else {
      var x := items[0].Entry(ms, sq, names);
      assert items[0].Valid(ms, sq, names);
      IdShort(ms + items[0].dms, sq + items[0].dsq);
      ShortOne(x);
      LiveShort(items[1..], ms, sq, names);
      ShortAppend(if items[0].Deleted() then [] else [x], StreamPack.Live(items[1..], ms, sq, names));
    }
  }

  lemma NoneShort()
    ensures ShortIds([])
  {}

  lemma {:induction false} NodesShort(ns: seq<ValueFormat.Node>)
    requires forall n | n in ns :: n.Valid()
    ensures ShortIds(ValueFormat.AllEntries(ns))
    decreases |ns|
  {
    hide ValueFormat.Node.Valid, ValueFormat.Node.Entries, ShortIds;
    if ns == [] {
      NoneShort();
    } else {
      assert ns[0].Valid();
      NodeShort(ns[0]);
      NodesShort(ns[1..]);
      ShortAppend(ns[0].Entries(), ValueFormat.AllEntries(ns[1..]));
    }
  }

  lemma NodeShort(n: ValueFormat.Node)
    requires n.Valid()
    ensures ShortIds(n.Entries())
  {
    hide StreamPack.Live, StreamPack.ValidItems, StreamPack.Holds, Listpack.Holds, Printing.StrFits, Printing.Meaning;
    hide Listpack.Entries, Compact.IntoBytesAll, ShortIds;
    Recovery.ItemsCounted(Listpack.Entries(n.stored), n.count, n.deleted, n.fields, n.items, n.ms, n.sq);
    LiveShort(n.items, n.ms, n.sq, Compact.IntoBytesAll(n.fields));
  }

  /** No value that a writer can mean has longer identifiers or a longer module name. */
  lemma MeantWithin(env: Env, v: Val)
    requires v.Fits(env)
    ensures Batcher.ExtraWithin(41, v.Value(env))
  {
    hide AllFit, EntriesFit, ValueFormat.AllEntries, ValueFormat.Node.Valid, ValueFormat.Group.Valid;
    hide ValueFormat.TextBytes, ValueFormat.Values, Collection, CompactOf, AllElements;
    match v
    case Entries(_, parts) => NodesShort(parts.nodes);
    case Plain(t, _, xs) => CollectionPlain(env, t, xs);
    case Packed(t, _, packed) => CompactPlain(env, t, Listpack.Entries(packed));
    case Zipped(t, _, zipped) => CompactPlain(env, t, Ziplist.Entries(zipped));
    case _ =>
  }

  lemma {:induction false} CollectionPlain(env: Env, t: Byte, xs: seq<Elem>)
    requires AllFit(env, t, xs)
    ensures var v := Collection(env, t, xs); !v.Stream? && !v.Module?
  {
    hide AllFit, Elem.Fits, Elem.Alone;
    if xs != [] {
      assert xs[0].Fits(env, t) by { FirstFits(env, t, xs); }
      AlonePlain(env, t, xs[0]);
    }
  }

  lemma FirstFits(env: Env, t: Byte, xs: seq<Elem>)
    requires AllFit(env, t, xs) && xs != []
    ensures xs[0].Fits(env, t)
  {}

  lemma AlonePlain(env: Env, t: Byte, x: Elem)
    requires x.Fits(env, t)
    ensures var v := x.Alone(env, t); !v.Stream? && !v.Module?
  {
    hide Printing.StrFits, Printing.Meaning;
  }

  lemma CompactPlain(env: Env, t: Byte, es: seq<Compact.CompactEntry>)
    requires EntriesFit(env, t, es)
    ensures var v := CompactOf(env, t, es); !v.Stream? && !v.Module?
  {
    hide EntriesFit, FieldsOf, ScoresOf;
  }

  /** A value with short identifiers, of the type that its code is named by. */
  predicate Sound(t: Byte, v: RdbValue) { Batcher.ExtraWithin(41, v) && Schema.TypeName(t) == Naming.KindOf(v) }

  lemma ReadWithin(env: Env, t: Byte, d: Bytes, p: nat)
    requires p <= |d| && ReadValue(env, t, d, p).Ok?
    ensures Sound(t, ReadValue(env, t, d, p).value)
  {
    hide ReadValue, Val.Fits, Val.Type, Val.Print, Val.Value, Batcher.ExtraWithin, Schema.TypeName, Schema.EncodingName;
    var v := Recovery.ValueFrom(env, t, d, p);
    MeantWithin(env, v);
    Naming.Stored(env, v);
  }

  lemma {:induction false} ElementsWithin(env: Env, t: Byte, n: nat, d: Bytes, p: nat)
    requires p <= |d| && IsPlainType(t) && ReadElements(env, t, n, d, p).Ok?
    ensures Sound(t, ReadElements(env, t, n, d, p).value)
  {
    hide ReadElements;
  }

  predicate AnswerWithin(a: Answer) {
    a.result.Success? && a.result.value.Some? ==> Sound(a.result.value.value.typeCode, a.result.value.value.value)
  }

  lemma EntryWithin(cfg: Config, d: Bytes, t: Byte, s: State)
    requires Valid(cfg, d, s) && s.chunked.None? && s.preamble.None?
    ensures AnswerWithin(ReadEntry(cfg, d, t, s))
  {
    hide ReadString, ReadCount, ReadElements, ReadValue, Sound;
    forall n: nat, p: nat | p <= |d| && IsPlainType(t) && ReadElements(cfg.env, t, n, d, p).Ok?
      ensures Sound(t, ReadElements(cfg.env, t, n, d, p).value)
    {
      ElementsWithin(cfg.env, t, n, d, p);
    }
    var key := ReadString(d, s.pos);
    if key.Ok? && ReadValue(cfg.env, t, d, key.pos).Ok? { ReadWithin(cfg.env, t, d, key.pos); }
  }

  lemma ChunkWithin(cfg: Config, d: Bytes, s: State)
    requires Valid(cfg, d, s) && s.chunked.Some?
    ensures AnswerWithin(ReadChunk(cfg, d, s))
  {
    hide ReadElements, Sound;
    var c := s.chunked.value;
    var size := if cfg.maxElements.value < c.remaining then cfg.maxElements.value else c.remaining;
    if ReadElements(cfg.env, c.typeCode, size, d, s.pos).Ok? { ElementsWithin(cfg.env, c.typeCode, size, d, s.pos); }
  }

  lemma StepWithin(cfg: Config, d: Bytes, op: Byte, s: State)
    requires Valid(cfg, d, s) && s.chunked.None? && s.preamble.None?
    ensures var r := StepOpcode(cfg, d, op, s); r.Stop? ==> AnswerWithin(r.answer)
  {
    hide ReadEntry, ReadRecord, AtEof, Sound;
    if IsObjectType(op) { EntryWithin(cfg, d, op, s); }
  }

  lemma {:induction false} UntilKeyWithin(cfg: Config, d: Bytes, s: State)
    requires Valid(cfg, d, s) && s.chunked.None?
    ensures AnswerWithin(ReadUntilKey(cfg, d, s))
    decreases Unread(d, s)
  {
    hide StepOpcode, Sound;
    var r := TakeOpcode(d, s);
    if r.Ok? {
      var t := s.(pos := r.pos, preamble := None);
      StepWithin(cfg, d, r.value, t);
      var step := StepOpcode(cfg, d, r.value, t);
      if step.Again? { UntilKeyWithin(cfg, d, step.next); }
    }
  }

  predicate AllWithin(items: seq<Item>) {
    forall i :: 0 <= i < |items| && items[i].Got? ==> Sound(items[i].entry.typeCode, items[i].entry.value)
  }

  /** Whatever the reader yields, on any input and under any limit: identifiers and names that short, and
      a `type` column that names what the value is. */
  lemma {:induction false} RunWithin(cfg: Config, d: Bytes, s: State)
    requires s.pos <= |d| && (s.finished || Valid(cfg, d, s))
    ensures AllWithin(Run(cfg, d, s).items)
    decreases if s.finished then 0 else 1, Unread(d, s)
  {
    hide ReadUntilKey, ReadChunk, Sound;
    if !s.finished {
      var (_, s1) := Next(cfg, d, s);
      if s.chunked.Some? { ChunkWithin(cfg, d, s); } else { UntilKeyWithin(cfg, d, s); }
      RunWithin(cfg, d, s1);
    }
  }

  /** The peak bounds of exporting what the reader yields, on any input and under any chunk limit: the
      only unknown is `r`, the rows that the largest entry brings; 41 bytes a row are the most that a
      stream identifier, or a module's name and fixed columns, add to the estimate. */
  lemma {:induction false} PeakOfReader(batching: Batcher.Config, r: nat, cfg: Config, d: Bytes, s: State)
    requires Batcher.Positive(batching) && s.pos <= |d| && (s.finished || Valid(cfg, d, s))
    requires forall x | x in Run(cfg, d, s).items :: x.Got? ==> Schema.ExpectedRowCount(x.entry) <= r
    ensures var out := Batcher.Iterate(batching, Batcher.EmptyBuffers(), Run(cfg, d, s).items);
            Batcher.AllBounded(batching, r, 41, Batcher.BatchesOf(out))
  {
    hide Run, Batcher.Positive, Batcher.ExtraWithin, Batcher.AllBounded, Batcher.Iterate, Batcher.BatchesOf;
    hide Schema.ExpectedRowCount, Schema.TypeName, Naming.KindOf;
    RunWithin(cfg, d, s);
    Batcher.PeakOverRun(batching, r, 41, Run(cfg, d, s).items);
  }
}
