/**
 Ziplist blobs: entries with a leading previous-length field. The decoder checks only the total
 size; it stops at the first end marker and ignores the tail offset, the count and every
 previous-length value, and the characterisation below says exactly that.
 */
module Ziplist {
  import opened Common
  import opened Compact

  const ZL_HDR_SIZE: nat := 10
  const ZL_END: Byte := 255

  /** Size of the previous-length field at `p`. */
  function PrevlenSize(d: Bytes, p: nat): (r: Result<nat>)
    requires p < |d|
    ensures if r.Success? then 1 <= r.value <= |d| - p && d[p] != ZL_END else r.error == CorruptData
  {
    if d[p] == ZL_END then Failure(CorruptData)
    else if d[p] < 254 then Success(1)
    else if |d| - p < 5 then Failure(CorruptData)
    else Success(5)
  }

  function TagWidth(tag: nat): nat {
    if tag == 0xC0 then 2 else if tag == 0xD0 then 4 else if tag == 0xE0 then 8 else if tag == 0xF0 then 3 else 1
  }

  predicate WideTag(tag: nat) { tag in {0xC0, 0xD0, 0xE0, 0xF0, 0xFE} }

  /** Encoding byte(s) and data at `p`. */
  function DecodeContent(d: Bytes, p: nat): (r: Result<(CompactEntry, nat)>)
    requires p <= |d|
    ensures if r.Success? then 1 <= r.value.1 <= |d| - p else r.error == CorruptData
  {
    var have := |d| - p;
    if have == 0 then Failure(CorruptData)
    else
      var enc: nat := d[p];
      if enc < 0x40 then
        if have < 1 + enc then Failure(CorruptData) else Success((Str(d[p + 1..p + 1 + enc]), 1 + enc))
      else if enc < 0x80 then
        if have < 2 then Failure(CorruptData)
        else
          var len := (enc - 0x40) * 256 + d[p + 1];
          if have < 2 + len then Failure(CorruptData) else Success((Str(d[p + 2..p + 2 + len]), 2 + len))
      else if enc < 0xC0 then
        if enc != 0x80 || have < 5 then Failure(CorruptData)
        else
          var len := Be(d[p + 1..p + 5]);
          if have < 5 + len then Failure(CorruptData) else Success((Str(d[p + 5..p + 5 + len]), 5 + len))
      else if WideTag(enc) then
        var w := TagWidth(enc);
        if have < 1 + w then Failure(CorruptData) else Success((Int(ReadInt(d[p + 1..p + 1 + w])), 1 + w))
      else if 0xF1 <= enc <= 0xFD then Success((Int(enc - 0xF0 - 1), 1))
      else Failure(CorruptData)
  }

  function DecodeEntry(d: Bytes, p: nat): (r: Result<(CompactEntry, nat)>)
    requires p < |d|
    ensures if r.Success? then 2 <= r.value.1 <= |d| - p && d[p] != ZL_END else r.error == CorruptData
  {
    var m :- PrevlenSize(d, p);
    var (e, n) :- DecodeContent(d, p + m);
    Success((e, m + n))
  }

  datatype Form = Str6 | Str14 | Str32 | Int8 | Int16 | Int24 | Int32 | Int64 | Immediate

  predicate Fits(e: CompactEntry, f: Form) {
    match f
    case Str6 => e.Str? && |e.s| < 0x40
    case Str14 => e.Str? && |e.s| < 0x4000
    case Str32 => e.Str? && |e.s| < U32
    case Int8 => e.Int? && FitsInt(e.n, 1)
    case Int16 => e.Int? && FitsInt(e.n, 2)
    case Int24 => e.Int? && FitsInt(e.n, 3)
    case Int32 => e.Int? && FitsInt(e.n, 4)
    case Int64 => e.Int? && FitsInt(e.n, 8)
    case Immediate => e.Int? && 0 <= e.n <= 12
  }

  function EncodeContent(e: CompactEntry, f: Form): (s: Bytes)
    requires Fits(e, f)
    ensures |s| >= 1
  {
    match f
    case Str6 => [|e.s|] + e.s
    case Str14 => [0x40 + |e.s| / 256, |e.s| % 256] + e.s
    case Str32 => [0x80] + ToBe(|e.s|, 4) + e.s
    case Int8 => [0xFE] + WriteInt(e.n, 1)
    case Int16 => [0xC0] + WriteInt(e.n, 2)
    case Int24 => [0xF0] + WriteInt(e.n, 3)
    case Int32 => [0xD0] + WriteInt(e.n, 4)
    case Int64 => [0xE0] + WriteInt(e.n, 8)
    case Immediate => [0xF1 + e.n]
  }

  function FormOf(b: Byte): Form {
    if b < 0x40 then Str6 else if b < 0x80 then Str14 else if b == 0x80 then Str32
    else if b == 0xFE then Int8 else if b == 0xC0 then Int16 else if b == 0xF0 then Int24
    else if b == 0xD0 then Int32 else if b == 0xE0 then Int64 else Immediate
  }

  lemma Decode32(d: Bytes, p: nat, s: Bytes)
    requires |s| < U32 && At(d, p, EncodeContent(Str(s), Str32))
    ensures DecodeContent(d, p) == Success((Str(s), 5 + |s|))
  {
    AtSplit(d, p, [0x80] + ToBe(|s|, 4), s);
    AtSplit(d, p, [0x80], ToBe(|s|, 4));
    assert d[p] == d[p..p + 1][0];
    PowValues();
    BeOfToBe(|s|, 4);
  }

  lemma DecodeWide(d: Bytes, p: nat, i: int, tag: Byte, w: nat)
    requires WideTag(tag) && w == TagWidth(tag) && FitsInt(i, w) && At(d, p, [tag] + WriteInt(i, w))
    ensures DecodeContent(d, p) == Success((Int(i), 1 + w))
  {
    AtSplit(d, p, [tag], WriteInt(i, w));
    assert d[p] == d[p..p + 1][0];
    ReadWriteInt(i, w);
  }

  lemma ContentRoundTrip(d: Bytes, p: nat, e: CompactEntry, f: Form)
    requires Fits(e, f) && At(d, p, EncodeContent(e, f))
    ensures DecodeContent(d, p) == Success((e, |EncodeContent(e, f)|))
  {
    var s := EncodeContent(e, f);
    assert d[p] == d[p..p + |s|][0];
    match f
    case Str6 => AtSplit(d, p, [|e.s|], e.s);
    case Str14 =>
      AtSplit(d, p, [0x40 + |e.s| / 256, |e.s| % 256], e.s);
      assert d[p + 1] == d[p..p + |s|][1];
    case Str32 => Decode32(d, p, e.s);
    case Int8 => DecodeWide(d, p, e.n, 0xFE, 1);
    case Int16 => DecodeWide(d, p, e.n, 0xC0, 2);
    case Int24 => DecodeWide(d, p, e.n, 0xF0, 3);
    case Int32 => DecodeWide(d, p, e.n, 0xD0, 4);
    case Int64 => DecodeWide(d, p, e.n, 0xE0, 8);
    case Immediate =>
  }

  lemma Sound32(d: Bytes, p: nat)
    requires p < |d| && d[p] == 0x80 && DecodeContent(d, p).Success?
    ensures var (e, n) := DecodeContent(d, p).value;
            Fits(e, Str32) && d[p..p + n] == EncodeContent(e, Str32)
  {
    var n := DecodeContent(d, p).value.1;
    PowValues();
    ToBeOfBe(d[p + 1..p + 5]);
    assert d[p..p + n] == [d[p]] + d[p + 1..p + 5] + d[p + 5..p + n];
  }

  lemma Sound6(d: Bytes, p: nat)
    requires p < |d| && d[p] < 0x40 && DecodeContent(d, p).Success?
    ensures var (e, n) := DecodeContent(d, p).value;
            Fits(e, Str6) && d[p..p + n] == EncodeContent(e, Str6)
  {
    hide Le, Be, ReadInt, WriteInt, FitsInt;
    var n := DecodeContent(d, p).value.1;
    assert d[p..p + n] == [d[p]] + d[p + 1..p + n];
  }

  lemma HighLow(high: nat, low: nat)
    requires low < 256
    ensures (high * 256 + low) / 256 == high && (high * 256 + low) % 256 == low
  {}

  lemma Sound14(d: Bytes, p: nat)
    requires p < |d| && 0x40 <= d[p] < 0x80 && DecodeContent(d, p).Success?
    ensures var (e, n) := DecodeContent(d, p).value;
            Fits(e, Str14) && d[p..p + n] == EncodeContent(e, Str14)
  {
    hide Le, Be, ReadInt, WriteInt, FitsInt;
    var n := DecodeContent(d, p).value.1;
    HighLow(d[p] - 0x40, d[p + 1]);
    assert d[p..p + n] == [d[p], d[p + 1]] + d[p + 2..p + n];
  }

  lemma SoundWide(d: Bytes, p: nat)
    requires p < |d| && WideTag(d[p]) && DecodeContent(d, p).Success?
    ensures var (e, n) := DecodeContent(d, p).value;
            Fits(e, FormOf(d[p])) && d[p..p + n] == EncodeContent(e, FormOf(d[p]))
  {
    hide ReadInt, WriteInt, FitsInt;
    var n := DecodeContent(d, p).value.1;
    WriteReadInt(d[p + 1..p + n]);
    assert d[p..p + n] == [d[p]] + d[p + 1..p + n];
  }

  lemma ContentSound(d: Bytes, p: nat)
    requires p <= |d| && DecodeContent(d, p).Success?
    ensures var (e, n) := DecodeContent(d, p).value;
            Fits(e, FormOf(d[p])) && d[p..p + n] == EncodeContent(e, FormOf(d[p]))
  {
    if d[p] < 0x40 {
      Sound6(d, p);
    } else if d[p] < 0x80 {
      Sound14(d, p);
    } else if d[p] == 0x80 {
      Sound32(d, p);
    } else if WideTag(d[p]) {
      SoundWide(d, p);
    } else {
      assert d[p..p + 1] == [d[p]];
    }
  }

  // ----- the whole blob -----

  function DecodeFrom(d: Bytes, p: nat): (r: Result<seq<CompactEntry>>)
    requires p <= |d|
    ensures r.Failure? ==> r.error == CorruptData
    decreases |d| - p
  {
    if p == |d| then Failure(CorruptData)
    else if d[p] == ZL_END then Success([])
    else
      var (e, n) :- DecodeEntry(d, p);
      var rest :- DecodeFrom(d, p + n);
      Success([e] + rest)
  }

  function DecodeSpec(d: Bytes): Result<seq<CompactEntry>> {
    if |d| < ZL_HDR_SIZE + 1 || Le(d[..4]) != |d| then Failure(CorruptData)
    else DecodeFrom(d, ZL_HDR_SIZE)
  }

  lemma PrependStep(es: seq<CompactEntry>, d: Bytes, p: nat)
    requires p < |d| && d[p] != ZL_END && DecodeEntry(d, p).Success?
    ensures var (e, n) := DecodeEntry(d, p).value;
            Prepend(es, DecodeFrom(d, p)) == Prepend(es + [e], DecodeFrom(d, p + n))
  {
    hide DecodeEntry;
    var (e, n) := DecodeEntry(d, p).value;
    if DecodeFrom(d, p + n).Success? {
      assert es + ([e] + DecodeFrom(d, p + n).value) == (es + [e]) + DecodeFrom(d, p + n).value;
    }
  }

  method DecodeEntries(data: Bytes) returns (r: Result<seq<CompactEntry>>)
    requires ZL_HDR_SIZE <= |data|
    ensures r == DecodeFrom(data, ZL_HDR_SIZE)
  {
    hide DecodeEntry;
    var pos := ZL_HDR_SIZE;
    var entries: seq<CompactEntry> := [];
    PrependNone([], DecodeFrom(data, pos));
    while true
      invariant ZL_HDR_SIZE <= pos <= |data|
      invariant DecodeFrom(data, ZL_HDR_SIZE) == Prepend(entries, DecodeFrom(data, pos))
      decreases |data| - pos
    {
      if pos >= |data| { return Failure(CorruptData); }
      if data[pos] == ZL_END {
        PrependNone(entries, Success([]));
        break;
      }
      var first := DecodeEntry(data, pos);
      if first.Failure? { return Failure(first.error); }
      PrependStep(entries, data, pos);
      var (entry, consumed) := first.value;
      entries := entries + [entry];
      pos := pos + consumed;
    }
    r := Success(entries);
  }

  method Decode(data: Bytes) returns (r: Result<seq<CompactEntry>>)
    ensures r == DecodeSpec(data)
  {
    if |data| < ZL_HDR_SIZE + 1 { return Failure(CorruptData); }
    var zlbytes := Le(data[..4]);
    if zlbytes != |data| { return Failure(CorruptData); }
    r := DecodeEntries(data);
  }

  // ----- layouts -----

  datatype Item = Item(prevlen: Bytes, entry: CompactEntry, form: Form)
  {
    ghost predicate Valid() {
      && Fits(entry, form)
      && ((|prevlen| == 1 && prevlen[0] < 254) || (|prevlen| == 5 && prevlen[0] == 254))
    }
    ghost function Stored(): Bytes requires Valid() { prevlen + EncodeContent(entry, form) }
  }

  ghost predicate ValidItems(items: seq<Item>) { forall it | it in items :: it.Valid() }

  ghost function Body(items: seq<Item>): Bytes
    requires ValidItems(items)
  {
    if items == [] then [255] else items[0].Stored() + Body(items[1..])
  }

  function Entries(items: seq<Item>): (es: seq<CompactEntry>)
    ensures |es| == |items|
  {
    if items == [] then [] else [items[0].entry] + Entries(items[1..])
  }

  /** Header, items, end marker, and then anything: what follows the first end marker is unread. */
  ghost predicate Holds(d: Bytes, items: seq<Item>) {
    && ValidItems(items)
    && 10 <= |d| < U32 && d[..4] == ToLe(|d|, 4)
    && At(d, 10, Body(items))
  }

  lemma StoredDecodes(d: Bytes, p: nat, it: Item)
    requires it.Valid() && At(d, p, it.Stored())
    ensures p < |d| && d[p] != ZL_END && DecodeEntry(d, p) == Success((it.entry, |it.Stored()|))
  {
    hide DecodeContent, EncodeContent, Fits;
    var c := EncodeContent(it.entry, it.form);
    AtSplit(d, p, it.prevlen, c);
    assert d[p] == d[p..p + |it.prevlen|][0];
    ContentRoundTrip(d, p + |it.prevlen|, it.entry, it.form);
  }

  lemma {:induction false} BodyDecodes(d: Bytes, p: nat, items: seq<Item>)
    requires ValidItems(items) && At(d, p, Body(items))
    ensures DecodeFrom(d, p) == Success(Entries(items))
    decreases |items|
  {
    hide DecodeEntry, EncodeContent, Fits;
    if items == [] {
      assert d[p] == d[p..p + 1][0];
    } else {
      assert items[0].Valid();
      AtSplit(d, p, items[0].Stored(), Body(items[1..]));
      StoredDecodes(d, p, items[0]);
      BodyDecodes(d, p + |items[0].Stored()|, items[1..]);
    }
  }

  ghost function ItemAt(d: Bytes, p: nat): Item
    requires p < |d| && DecodeEntry(d, p).Success?
  {
    var m := PrevlenSize(d, p).value;
    Item(d[p..p + m], DecodeEntry(d, p).value.0, FormOf(d[p + m]))
  }

  lemma DecodedItem(d: Bytes, p: nat)
    requires p < |d| && DecodeEntry(d, p).Success?
    ensures var it := ItemAt(d, p);
            it.Valid() && DecodeEntry(d, p).value == (it.entry, |it.Stored()|) && At(d, p, it.Stored())
  {
    hide DecodeContent, EncodeContent, Fits, FormOf;
    var m := PrevlenSize(d, p).value;
    var n := DecodeEntry(d, p).value.1;
    ContentSound(d, p + m);
    assert d[p..p + n] == d[p..p + m] + d[p + m..p + n];
  }

  ghost function ItemsFrom(d: Bytes, p: nat): seq<Item>
    requires p <= |d| && DecodeFrom(d, p).Success?
    decreases |d| - p
  {
    if d[p] == ZL_END then [] else [ItemAt(d, p)] + ItemsFrom(d, p + DecodeEntry(d, p).value.1)
  }

  lemma {:induction false} DecodedIsBody(d: Bytes, p: nat)
    requires p <= |d| && DecodeFrom(d, p).Success?
    ensures var items := ItemsFrom(d, p);
            && ValidItems(items) && At(d, p, Body(items))
            && DecodeFrom(d, p) == Success(Entries(items))
    decreases |d| - p
  {
    hide DecodeEntry, EncodeContent, Fits, FormOf, ItemAt, PrevlenSize;
    if d[p] == ZL_END {
      assert d[p..p + 1] == [ZL_END];
    } else {
      var n := DecodeEntry(d, p).value.1;
      DecodedItem(d, p);
      DecodedIsBody(d, p + n);
      var it, items := ItemAt(d, p), ItemsFrom(d, p);
      assert items == [it] + ItemsFrom(d, p + n);
      assert items[0] == it && items[1..] == ItemsFrom(d, p + n);
      assert Body(items) == it.Stored() + Body(items[1..]);
      AtSplit(d, p, it.Stored(), Body(items[1..]));
    }
  }

  /** Round trip and its converse for ziplists. */
  lemma AcceptsExactlyLayouts(d: Bytes, es: seq<CompactEntry>)
    ensures DecodeSpec(d) == Success(es) <==> exists items :: Holds(d, items) && Entries(items) == es
  {
    if DecodeSpec(d) == Success(es) {
      DecodedIsBody(d, ZL_HDR_SIZE);
      ToLeOfLe(d[..4]);
      PowValues();
      assert Holds(d, ItemsFrom(d, ZL_HDR_SIZE));
    }
    forall items | Holds(d, items) && Entries(items) == es ensures DecodeSpec(d) == Success(es) {
      PowValues();
      LeOfToLe(|d|, 4);
      BodyDecodes(d, ZL_HDR_SIZE, items);
    }
  }
}
