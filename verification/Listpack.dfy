/**
 Listpack blobs: header, tag-dispatched entries each followed by its length written backwards,
 end marker. `Decode` is proved to accept exactly the blobs that a layout of encoded entries
 produces, whatever width the writer chose for each entry.
 */
module Listpack {
  import opened Common
  import opened Compact

  const LP_HDR_SIZE: nat := 6
  const LP_EOF: Byte := 255

  // ----- one entry -----

  /** Width of a fixed-width integer entry with tag 0xF1..0xF4. */
  function TagWidth(tag: nat): nat {
    if tag == 0xF1 then 2 else if tag == 0xF2 then 3 else if tag == 0xF3 then 4 else 8
  }

  /** The entry at position `p` and its length without the trailing backlen. */
  function DecodeEntry(d: Bytes, p: nat): (r: Result<(CompactEntry, nat)>)
    requires p <= |d|
    ensures if r.Success? then 1 <= r.value.1 <= |d| - p && d[p] != LP_EOF else r.error == CorruptData
  {
    var have := |d| - p;
    if have == 0 then Failure(CorruptData)
    else
      var b0: nat := d[p];
      if b0 < 0x80 then Success((Int(b0), 1))
      else if b0 < 0xC0 then
        if have < 1 + (b0 - 0x80) then Failure(CorruptData)
        else Success((Str(d[p + 1..p + 1 + (b0 - 0x80)]), 1 + (b0 - 0x80)))
      else if b0 < 0xE0 then
        if have < 2 then Failure(CorruptData)
        else Success((Int(Signed((b0 - 0xC0) * 256 + d[p + 1], 8192)), 2))
      else if b0 < 0xF0 then
        if have < 2 then Failure(CorruptData)
        else
          var len := (b0 - 0xE0) * 256 + d[p + 1];
          if have < 2 + len then Failure(CorruptData)
          else Success((Str(d[p + 2..p + 2 + len]), 2 + len))
      else if b0 == 0xF0 then
        if have < 5 then Failure(CorruptData)
        else
          var len := Le(d[p + 1..p + 5]);
          if have < 5 + len then Failure(CorruptData)
          else Success((Str(d[p + 5..p + 5 + len]), 5 + len))
      else if b0 <= 0xF4 then
        var w := TagWidth(b0);
        if have < 1 + w then Failure(CorruptData)
        else Success((Int(ReadInt(d[p + 1..p + 1 + w])), 1 + w))
      else Failure(CorruptData)
  }

  /** The encodings a writer may choose from. */
  datatype Form = Int7 | Str6 | Int13 | Str12 | Str32 | Int16 | Int24 | Int32 | Int64

  predicate Fits(e: CompactEntry, f: Form) {
    match f
    case Int7 => e.Int? && 0 <= e.n < 128
    case Int13 => e.Int? && InRange(e.n, 8192)
    case Int16 => e.Int? && FitsInt(e.n, 2)
    case Int24 => e.Int? && FitsInt(e.n, 3)
    case Int32 => e.Int? && FitsInt(e.n, 4)
    case Int64 => e.Int? && FitsInt(e.n, 8)
    case Str6 => e.Str? && |e.s| < 64
    case Str12 => e.Str? && |e.s| < 4096
    case Str32 => e.Str? && |e.s| < U32
  }

  function EncodeEntry(e: CompactEntry, f: Form): (s: Bytes)
    requires Fits(e, f)
    ensures |s| >= 1 && s[0] != 255
  {
    match f
    case Int7 => [e.n]
    case Int13 => var u := Unsigned(e.n, 8192); [0xC0 + u / 256, u % 256]
    case Int16 => [0xF1] + WriteInt(e.n, 2)
    case Int24 => [0xF2] + WriteInt(e.n, 3)
    case Int32 => [0xF3] + WriteInt(e.n, 4)
    case Int64 => [0xF4] + WriteInt(e.n, 8)
    case Str6 => [0x80 + |e.s|] + e.s
    case Str12 => [0xE0 + |e.s| / 256, |e.s| % 256] + e.s
    case Str32 => [0xF0] + ToLe(|e.s|, 4) + e.s
  }

  function FormOf(b0: Byte): Form {
    if b0 < 0x80 then Int7 else if b0 < 0xC0 then Str6 else if b0 < 0xE0 then Int13
    else if b0 < 0xF0 then Str12 else if b0 == 0xF0 then Str32
    else if b0 == 0xF1 then Int16 else if b0 == 0xF2 then Int24 else if b0 == 0xF3 then Int32 else Int64
  }

  lemma Decode32(d: Bytes, p: nat, s: Bytes)
    requires |s| < U32 && At(d, p, EncodeEntry(Str(s), Str32))
    ensures DecodeEntry(d, p) == Success((Str(s), 5 + |s|))
  {
    AtSplit(d, p, [0xF0] + ToLe(|s|, 4), s);
    AtSplit(d, p, [0xF0], ToLe(|s|, 4));
    assert d[p] == d[p..p + 1][0];
    PowValues();
    LeOfToLe(|s|, 4);
  }

  lemma DecodeWide(d: Bytes, p: nat, i: int, tag: Byte, w: nat)
    requires 0xF1 <= tag <= 0xF4 && w == TagWidth(tag) && FitsInt(i, w) && At(d, p, [tag] + WriteInt(i, w))
    ensures DecodeEntry(d, p) == Success((Int(i), 1 + w))
  {
    AtSplit(d, p, [tag], WriteInt(i, w));
    assert d[p] == d[p..p + 1][0];
    ReadWriteInt(i, w);
  }

  lemma EntryRoundTrip(d: Bytes, p: nat, e: CompactEntry, f: Form)
    requires Fits(e, f) && At(d, p, EncodeEntry(e, f))
    ensures DecodeEntry(d, p) == Success((e, |EncodeEntry(e, f)|))
  {
    var s := EncodeEntry(e, f);
    assert d[p] == d[p..p + |s|][0];
    match f
    case Int7 =>
    case Int13 => assert d[p + 1] == d[p..p + |s|][1];
    case Int16 => DecodeWide(d, p, e.n, 0xF1, 2);
    case Int24 => DecodeWide(d, p, e.n, 0xF2, 3);
    case Int32 => DecodeWide(d, p, e.n, 0xF3, 4);
    case Int64 => DecodeWide(d, p, e.n, 0xF4, 8);
    case Str6 => AtSplit(d, p, [0x80 + |e.s|], e.s);
    case Str12 =>
      AtSplit(d, p, [0xE0 + |e.s| / 256, |e.s| % 256], e.s);
      assert d[p + 1] == d[p..p + |s|][1];
    case Str32 => Decode32(d, p, e.s);
  }

  lemma Sound32(d: Bytes, p: nat)
    requires p < |d| && d[p] == 0xF0 && DecodeEntry(d, p).Success?
    ensures var (e, n) := DecodeEntry(d, p).value;
            Fits(e, Str32) && d[p..p + n] == EncodeEntry(e, Str32)
  {
    var n := DecodeEntry(d, p).value.1;
    PowValues();
    ToLeOfLe(d[p + 1..p + 5]);
    assert d[p..p + n] == [d[p]] + d[p + 1..p + 5] + d[p + 5..p + n];
  }

  lemma SoundWide(d: Bytes, p: nat)
    requires p < |d| && 0xF1 <= d[p] <= 0xF4 && DecodeEntry(d, p).Success?
    ensures var (e, n) := DecodeEntry(d, p).value;
            Fits(e, FormOf(d[p])) && d[p..p + n] == EncodeEntry(e, FormOf(d[p]))
  {
    hide ReadInt, WriteInt, FitsInt;
    var w := TagWidth(d[p]);
    WriteReadInt(d[p + 1..p + 1 + w]);
    HeadOff(d, p, 1 + w);
  }

  lemma EntrySound(d: Bytes, p: nat)
    requires p <= |d| && DecodeEntry(d, p).Success?
    ensures var (e, n) := DecodeEntry(d, p).value;
            Fits(e, FormOf(d[p])) && d[p..p + n] == EncodeEntry(e, FormOf(d[p]))
  {
    hide ReadInt, WriteInt, FitsInt;
    var b0 := d[p];
    if b0 == 0xF0 {
      Sound32(d, p);
    } else if b0 > 0xF0 {
      SoundWide(d, p);
    } else if b0 < 0xC0 {
      HeadOff(d, p, DecodeEntry(d, p).value.1);
    } else {
      SoundTwo(d, p);
    }
  }

  lemma SoundTwo(d: Bytes, p: nat)
    requires p < |d| && 0xC0 <= d[p] < 0xF0 && DecodeEntry(d, p).Success?
    ensures var (e, n) := DecodeEntry(d, p).value;
            Fits(e, FormOf(d[p])) && d[p..p + n] == EncodeEntry(e, FormOf(d[p]))
  {
    hide ReadInt, WriteInt, FitsInt;
    var n := DecodeEntry(d, p).value.1;
    HeadOff(d, p, n);
    HeadOff(d, p + 1, n - 1);
    assert [d[p]] + ([d[p + 1]] + d[p + 2..p + n]) == [d[p], d[p + 1]] + d[p + 2..p + n];
  }

  lemma HeadOff(d: Bytes, p: nat, n: nat)
    requires 1 <= n && p + n <= |d|
    ensures d[p..p + n] == [d[p]] + d[p + 1..p + n]
  {}

  // ----- the backlen -----

  /** Kept with the off-by-one boundaries of the server: 16383 takes three bytes, not two. */
  function BacklenSize(n: nat): (w: nat)
    ensures 1 <= w <= 5
  {
    if n <= 127 then 1 else if n < 16383 then 2 else if n < 2097151 then 3 else if n < 268435455 then 4 else 5
  }

  /** How many back-length bytes the server writes behind an entry of `n` bytes, boundary by boundary. */
  predicate Width(n: nat, w: nat) {
    || (w == 1 && n <= 127)
    || (w == 2 && 128 <= n <= 16382)
    || (w == 3 && 16383 <= n <= 2097150)
    || (w == 4 && 2097151 <= n <= 268435454)
    || (w == 5 && 268435455 <= n)
  }

  function Pow128(w: nat): (m: nat)
    ensures m >= 1
  {
    if w == 0 then 1 else 128 * Pow128(w - 1)
  }

  /** Base-128 value, most significant byte first, ignoring every high bit. */
  function BacklenValue(s: Bytes): nat {
    if s == [] then 0 else 128 * BacklenValue(s[..|s| - 1]) + s[|s| - 1] % 128
  }

  function BacklenSpec(s: Bytes): (r: Result<nat>)
    ensures r.Failure? ==> r.error == CorruptData
  {
    if s == [] || s[0] >= 128 || |s| > 5 then Failure(CorruptData) else Success(BacklenValue(s))
  }

  lemma MulSwap(x: nat, q: nat)
    ensures 128 * (x * q) == x * (128 * q)
  {}

  lemma {:induction false} BacklenValueFirst(s: Bytes)
    requires s != []
    ensures BacklenValue(s) == s[0] % 128 * Pow128(|s| - 1) + BacklenValue(s[1..])
  {
    if |s| == 1 {
      assert s[..0] == s[1..] == [];
    } else {
      var t := s[..|s| - 1];
      BacklenValueFirst(t);
      assert t[1..] == s[1..][..|s| - 2];
      MulSwap(s[0] % 128, Pow128(|t| - 1));
    }
  }

  /** The source's loop runs from the last byte to the first, shifting by seven each time. */
  method DecodeBacklen(buf: Bytes) returns (r: Result<nat>)
    ensures r == BacklenSpec(buf)
  {
    if buf == [] || buf[0] >= 128 { return Failure(CorruptData); }
    var val: nat := 0;
    var shift := 0;
    for i := |buf| downto 0
      invariant shift == 7 * (|buf| - i) && |buf| - i <= 5
      invariant val == BacklenValue(buf[i..])
    {
      if shift > 28 { return Failure(CorruptData); }
      assert buf[i..][1..] == buf[i + 1..];
      BacklenValueFirst(buf[i..]);
      val := buf[i] % 128 * Pow128(|buf| - 1 - i) + val;
      shift := shift + 7;
    }
    r := Success(val);
  }

  /** The backlen a writer stores: continuation bits on every byte but the first. */
  function EncodeBacklen(n: nat, w: nat): (s: Bytes)
    requires w >= 1
    ensures |s| == w
  {
    if w == 1 then [n % 128] else EncodeBacklen(n / 128, w - 1) + [128 + n % 128]
  }

  lemma {:induction false} BacklenDigits(n: nat, w: nat)
    requires 1 <= w && n < Pow128(w)
    ensures EncodeBacklen(n, w)[0] < 128 && BacklenValue(EncodeBacklen(n, w)) == n
  {
    assert Pow128(w) == 128 * Pow128(w - 1);
    var s := EncodeBacklen(n, w);
    if w == 1 {
      assert Pow128(1) == 128;
      assert s[..0] == [];
    } else {
      BacklenDigits(n / 128, w - 1);
      assert s[..w - 1] == EncodeBacklen(n / 128, w - 1);
    }
  }

  /** Round trip at every length a 32-bit blob can hold, across the odd boundaries. */
  lemma {:induction false} BacklenRoundTrip(n: nat, w: nat)
    requires n < Pow128(5) && Width(n, w)
    ensures BacklenSpec(EncodeBacklen(n, w)) == Success(n)
  {
    assert Pow128(1) == 128 && Pow128(2) == 16384 && Pow128(3) == 2097152;
    assert Pow128(4) == 268435456;
    BacklenDigits(n, w);
  }

  // ----- the whole blob -----

  function DecodeFrom(d: Bytes, p: nat): Result<seq<CompactEntry>>
    requires p <= |d|
    decreases |d| - p
  {
    if p == |d| then Failure(CorruptData)
    else if d[p] == LP_EOF then
      if p != |d| - 1 then Failure(CorruptData) else Success([])
    else
      var (e, n) :- DecodeEntry(d, p);
      var next := p + n + BacklenSize(n);
      if next > |d| then Failure(CorruptData)
      else
        var bl :- BacklenSpec(d[p + n..next]);
        if bl != n then Failure(CorruptData)
        else
          var rest :- DecodeFrom(d, next);
          Success([e] + rest)
  }

  function DecodeSpec(d: Bytes): Result<seq<CompactEntry>> {
    if |d| < LP_HDR_SIZE + 1 || Le(d[..4]) != |d| then Failure(CorruptData)
    else DecodeFrom(d, LP_HDR_SIZE)
  }

  /** The entry loop of `decode`. */
  method DecodeEntries(data: Bytes) returns (r: Result<seq<CompactEntry>>)
    requires LP_HDR_SIZE <= |data|
    ensures r == DecodeFrom(data, LP_HDR_SIZE)
  {
    hide DecodeEntry, BacklenSpec, BacklenSize, DecodeFrom, Prepend;
    var pos := LP_HDR_SIZE;
    var entries: seq<CompactEntry> := [];
    PrependNone([], DecodeFrom(data, pos));
    while true
      invariant LP_HDR_SIZE <= pos <= |data|
      invariant DecodeFrom(data, LP_HDR_SIZE) == Prepend(entries, DecodeFrom(data, pos))
      decreases |data| - pos
    {
      DecodeEnds(entries, data, pos);
      if pos >= |data| { return Failure(CorruptData); }
      if data[pos] == LP_EOF {
        if pos != |data| - 1 { return Failure(CorruptData); }
        break;
      }
      var first := DecodeEntry(data, pos);
      if first.Failure? { return Failure(first.error); }
      PrependOne(entries, data, pos);
      var (entry, entryLen) := first.value;
      entries := entries + [entry];
      var blSize := BacklenSize(entryLen);
      pos := pos + entryLen + blSize;
      if pos > |data| { return Failure(CorruptData); }
      var decoded := DecodeBacklen(data[pos - blSize..pos]);
      if decoded.Failure? { return Failure(decoded.error); }
      if decoded.value != entryLen { return Failure(CorruptData); }
    }
    r := Success(entries);
  }

  method Decode(data: Bytes) returns (r: Result<seq<CompactEntry>>)
    ensures r == DecodeSpec(data)
  {
    if |data| < LP_HDR_SIZE + 1 { return Failure(CorruptData); }
    var totalBytes := Le(data[..4]);
    if totalBytes != |data| { return Failure(CorruptData); }
    r := DecodeEntries(data);
  }

  lemma {:induction false} DecodeEnds(es: seq<CompactEntry>, d: Bytes, p: nat)
    requires p <= |d|
    ensures p == |d| ==> Prepend(es, DecodeFrom(d, p)) == Failure(CorruptData)
    ensures p < |d| && d[p] == LP_EOF ==>
              Prepend(es, DecodeFrom(d, p)) == if p != |d| - 1 then Failure(CorruptData) else Success(es)
    ensures p < |d| && d[p] != LP_EOF && DecodeEntry(d, p).Failure? ==>
              Prepend(es, DecodeFrom(d, p)) == Failure(DecodeEntry(d, p).error)
  {
    hide DecodeEntry;
    assert es + [] == es;
  }

  lemma PrependOne(es: seq<CompactEntry>, d: Bytes, p: nat)
    requires p < |d| && d[p] != LP_EOF && DecodeEntry(d, p).Success?
    ensures var (e, n) := DecodeEntry(d, p).value;
            var next := p + n + BacklenSize(n);
            if next <= |d| && BacklenSpec(d[p + n..next]) == Success(n) then
              Prepend(es, DecodeFrom(d, p)) == Prepend(es + [e], DecodeFrom(d, next))
            else
              Prepend(es, DecodeFrom(d, p)) == Failure(CorruptData)
  {
    hide DecodeEntry, BacklenSpec, BacklenSize;
    var (e, n) := DecodeEntry(d, p).value;
    var next := p + n + BacklenSize(n);
    if next <= |d| && DecodeFrom(d, next).Success? {
      assert es + ([e] + DecodeFrom(d, next).value) == (es + [e]) + DecodeFrom(d, next).value;
    }
  }

  // ----- layouts -----

  /** One stored entry: what it is, how it is written, and the backlen bytes after it. */
  datatype Item = Item(entry: CompactEntry, form: Form, backlen: Bytes)
  {
    ghost predicate Valid() {
      && Fits(entry, form)
      && var n := |EncodeEntry(entry, form)|;
         Width(n, |backlen|) && BacklenSpec(backlen) == Success(n)
    }
    ghost function Stored(): Bytes requires Valid() { EncodeEntry(entry, form) + backlen }
  }

  ghost predicate ValidItems(items: seq<Item>) { forall it | it in items :: it.Valid() }

  ghost function Body(items: seq<Item>): Bytes
    requires ValidItems(items)
  {
    if items == [] then [255] else items[0].Stored() + Body(items[1..])
  }

  function Entries(items: seq<Item>): (es: seq<CompactEntry>)
    ensures |es| == |items|
  {
    if items == [] then [] else [items[0].entry] + Entries(items[1..])
  }

  /** `d` is a listpack holding `items`; the two count bytes at offset 4 are never checked. */
  ghost predicate Holds(d: Bytes, items: seq<Item>) {
    && ValidItems(items)
    && |d| == 6 + |Body(items)| < U32
    && d[..4] == ToLe(|d|, 4)
    && d[6..] == Body(items)
  }

  lemma StoredDecodes(d: Bytes, p: nat, it: Item)
    requires it.Valid() && At(d, p, it.Stored())
    ensures p < |d| && d[p] != LP_EOF
    ensures var n := |EncodeEntry(it.entry, it.form)|;
            && DecodeEntry(d, p) == Success((it.entry, n))
            && |it.Stored()| == n + BacklenSize(n) && p + |it.Stored()| <= |d|
            && d[p + n..p + |it.Stored()|] == it.backlen
  {
    hide DecodeEntry, Fits, BacklenSpec, EncodeEntry;
    var e := EncodeEntry(it.entry, it.form);
    AtSplit(d, p, e, it.backlen);
    EntryRoundTrip(d, p, it.entry, it.form);
  }

  lemma {:induction false} BodyDecodes(d: Bytes, p: nat, items: seq<Item>)
    requires ValidItems(items) && At(d, p, Body(items)) && p + |Body(items)| == |d|
    ensures DecodeFrom(d, p) == Success(Entries(items))
    decreases |items|
  {
    hide DecodeEntry, EncodeEntry, Fits, BacklenSize, BacklenSpec, Width;
    if items == [] {
      assert d[p] == d[p..p + 1][0];
    } else {
      assert items[0].Valid();
      AtSplit(d, p, items[0].Stored(), Body(items[1..]));
      StoredDecodes(d, p, items[0]);
      BodyDecodes(d, p + |items[0].Stored()|, items[1..]);
    }
  }

  ghost function ItemsFrom(d: Bytes, p: nat): seq<Item>
    requires p <= |d| && DecodeFrom(d, p).Success?
    decreases |d| - p
  {
    if d[p] == LP_EOF then []
    else
      var (e, n) := DecodeEntry(d, p).value;
      var next := p + n + BacklenSize(n);
      [Item(e, FormOf(d[p]), d[p + n..next])] + ItemsFrom(d, next)
  }

  lemma DecodedItem(d: Bytes, p: nat, e: CompactEntry, n: nat, next: nat)
    requires p <= |d| && DecodeEntry(d, p) == Success((e, n)) && next == p + n + BacklenSize(n) <= |d|
    requires BacklenSpec(d[p + n..next]) == Success(n)
    ensures var it := Item(e, FormOf(d[p]), d[p + n..next]);
            it.Valid() && it.Stored() == d[p..next]
  {
    hide DecodeEntry, Fits, BacklenSpec, EncodeEntry, FormOf;
    EntrySound(d, p);
    assert d[p..next] == d[p..p + n] + d[p + n..next];
  }

  lemma {:induction false} DecodedIsBody(d: Bytes, p: nat)
    requires p <= |d| && DecodeFrom(d, p).Success?
    ensures var items := ItemsFrom(d, p);
            && ValidItems(items) && d[p..] == Body(items)
            && DecodeFrom(d, p) == Success(Entries(items))
            && 2 * |items| + 1 <= |d| - p
    decreases |d| - p
  {
    hide DecodeEntry, EncodeEntry, Fits, BacklenSize, BacklenSpec, FormOf, Width;
    if d[p] == LP_EOF {
      assert d[p..] == [LP_EOF];
    } else {
      var (e, n) := DecodeEntry(d, p).value;
      var next := p + n + BacklenSize(n);
      DecodedItem(d, p, e, n, next);
      DecodedIsBody(d, next);
      assert d[p..] == d[p..next] + d[next..];
      var it := Item(e, FormOf(d[p]), d[p + n..next]);
      var items := ItemsFrom(d, p);
      assert items == [it] + ItemsFrom(d, next);
      assert items[0] == it && items[1..] == ItemsFrom(d, next);
    }
  }

  /** Round trip and its converse: decoding returns `es` exactly when the blob is header, stored
      entries and one final end marker, for some choice of encodings whose entries are `es`. */
  lemma AcceptsExactlyLayouts(d: Bytes, es: seq<CompactEntry>)
    ensures DecodeSpec(d) == Success(es) <==> exists items :: Holds(d, items) && Entries(items) == es
    ensures DecodeSpec(d) == Success(es) ==> 2 * |es| + 7 <= |d|
  {
    if DecodeSpec(d) == Success(es) {
      DecodedIsBody(d, LP_HDR_SIZE);
      ToLeOfLe(d[..4]);
      PowValues();
      assert Holds(d, ItemsFrom(d, LP_HDR_SIZE));
    }
    forall items | Holds(d, items) && Entries(items) == es ensures DecodeSpec(d) == Success(es) {
      PowValues();
      LeOfToLe(|d|, 4);
      assert d[LP_HDR_SIZE..|d|] == d[LP_HDR_SIZE..];
      BodyDecodes(d, LP_HDR_SIZE, items);
    }
  }

  /** A writer's items are valid whenever their entries fit: the canonical backlen always checks. */
  lemma {:induction false} WriterItemValid(e: CompactEntry, f: Form, w: nat)
    requires Fits(e, f) && Width(|EncodeEntry(e, f)|, w)
    ensures Item(e, f, EncodeBacklen(|EncodeEntry(e, f)|, w)).Valid()
  {
    assert Pow128(4) == 268435456;
    BacklenRoundTrip(|EncodeEntry(e, f)|, w);
  }

  // ----- one stored entry, and no other width -----

  /** A listpack of one entry whose back-length takes `w` bytes; `a` and `b` are the unchecked count. */
  function OneEntry(e: CompactEntry, f: Form, w: nat, a: Byte, b: Byte): Bytes
    requires Fits(e, f) && w >= 1 && |EncodeEntry(e, f)| + w + 7 < U32
  {
    var s := EncodeEntry(e, f);
    ToLe(|s| + w + 7, 4) + [a, b] + (s + (EncodeBacklen(|s|, w) + [255]))
  }

  lemma {:induction false} LongerBacklen(n: nat, w: nat, v: nat)
    requires 1 <= v < w && n < Pow128(v)
    ensures BacklenValue(EncodeBacklen(n, w)[..v]) <= n / 128
    decreases w
  {
    var s := EncodeBacklen(n, w);
    assert Pow128(v) <= Pow128(w - 1) by { PowGrows(v, w - 1); }
    assert s[..v] == EncodeBacklen(n / 128, w - 1)[..v];
    if v == w - 1 {
      assert EncodeBacklen(n / 128, w - 1)[..v] == EncodeBacklen(n / 128, w - 1);
      BacklenDigits(n / 128, w - 1);
    } else {
      LongerBacklen(n / 128, w - 1, v);
    }
  }

  lemma {:induction false} PowGrows(v: nat, w: nat)
    requires v <= w
    ensures Pow128(v) <= Pow128(w)
    decreases w
  {
    if v < w { PowGrows(v, w - 1); }
  }

  lemma {:induction false} OneByteMore(s: Bytes, b: Byte)
    ensures BacklenValue(s + [b]) == 128 * BacklenValue(s) + b % 128 && BacklenValue([]) == 0
  {
    assert (s + [b])[..|s|] == s;
  }

  lemma EncodeStep(n: nat, w: nat)
    requires w >= 1
    ensures EncodeBacklen(n, w) == if w == 1 then [] + [n % 128] else EncodeBacklen(n / 128, w - 1) + [128 + n % 128]
    ensures Pow128(w + 1) == 128 * Pow128(w) && Pow128(2) == 16384
  {
    assert Pow128(1) == 128;
  }

  /** The end marker read as one more byte completes the length only when every digit is 127. */
  lemma {:induction false} ShorterBacklen(n: nat, w: nat)
    requires w >= 1 && BacklenValue(EncodeBacklen(n, w) + [255]) == n
    ensures n >= Pow128(w + 1) - 1
    decreases w
  {
    hide BacklenValue, EncodeBacklen, Pow128;
    OneByteMore(EncodeBacklen(n, w), 255);
    EncodeStep(n, w);
    if w == 1 {
      OneByteMore([], n % 128);
    } else {
      OneByteMore(EncodeBacklen(n / 128, w - 1), 128 + n % 128);
      OneByteMore(EncodeBacklen(n / 128, w - 1), 255);
      ShorterBacklen(n / 128, w - 1);
    }
  }

  lemma {:induction false} FirstDigit(n: nat, w: nat)
    requires w >= 1
    ensures EncodeBacklen(n, w)[0] < 128
    decreases w
  {
    if w > 1 { FirstDigit(n / 128, w - 1); }
  }

  lemma {:induction false} OneEntryParts(d: Bytes, e: CompactEntry, f: Form, w: nat, a: Byte, b: Byte)
    requires Fits(e, f) && w >= 1 && |EncodeEntry(e, f)| + w + 7 < U32 && d == OneEntry(e, f, w, a, b)
    ensures var n := |EncodeEntry(e, f)|;
            && |d| == n + w + 7 && Le(d[..4]) == |d|
            && d[6] != LP_EOF && DecodeEntry(d, 6) == Success((e, n))
            && d[6 + n..6 + n + w] == EncodeBacklen(n, w) && d[6 + n + w] == 255
  {
    hide DecodeEntry, Fits, EncodeEntry;
    var s := EncodeEntry(e, f);
    var bl := EncodeBacklen(|s|, w);
    PowValues();
    LeOfToLe(|d|, 4);
    assert At(d, 0, (ToLe(|d|, 4) + [a, b]) + (s + (bl + [255])));
    AtSplit(d, 0, ToLe(|d|, 4) + [a, b], s + (bl + [255]));
    AtSplit(d, 6, s, bl + [255]);
    AtSplit(d, 6 + |s|, bl, [255]);
    assert d[..4] == ToLe(|d|, 4);
    assert d[6] == d[6..6 + |s|][0];
    assert d[6 + |s| + w] == d[6 + |s| + w..6 + |s| + w + 1][0];
    EntryRoundTrip(d, 6, e, f);
  }

  /** The check on a back-length of `w` bytes before the end marker passes at one width alone. */
  lemma {:induction false} OnlyThisBacklen(n: nat, w: nat)
    requires 1 <= n < U32 && w >= 1
    ensures var s := EncodeBacklen(n, w) + [255];
            && s[0] < 128
            && (w == BacklenSize(n) <==> BacklenSize(n) <= w + 1 && BacklenValue(s[..BacklenSize(n)]) == n)
  {
    hide BacklenValue;
    FirstDigit(n, w);
    assert Pow128(1) == 128 && Pow128(2) == 16384 && Pow128(3) == 2097152;
    assert Pow128(4) == 268435456 && Pow128(5) == 34359738368;
    var size := BacklenSize(n);
    var s := EncodeBacklen(n, w) + [255];
    assert size <= w ==> s[..size] == EncodeBacklen(n, w)[..size];
    if w == size {
      BacklenDigits(n, w);
    } else if w + 1 == size {
      assert s[..size] == s;
      if BacklenValue(s) == n { ShorterBacklen(n, w); }
    } else if size < w {
      LongerBacklen(n, w, size);
    }
  }

  lemma CutBacklen(d: Bytes, p: nat, s: Bytes, size: nat)
    requires p + |s| + 1 == |d| && d[p..p + |s|] == s && d[p + |s|] == 255 && size <= |s| + 1
    ensures d[p..p + size] == (s + [255])[..size]
  {
    assert d[p..] == d[p..p + |s|] + [255];
  }

  /** A stored entry is read back when its back-length takes the width of its length, and at no other
      width: both boundaries, 16382 to 16383 too, are where the server has them. */
  lemma OnlyThisWidth(e: CompactEntry, f: Form, w: nat, a: Byte, b: Byte)
    requires Fits(e, f) && w >= 1 && |EncodeEntry(e, f)| + w + 7 < U32
    ensures DecodeSpec(OneEntry(e, f, w, a, b))
            == if Width(|EncodeEntry(e, f)|, w) then Success([e]) else Failure(CorruptData)
  {
    hide DecodeEntry, Fits, EncodeEntry, BacklenValue, EncodeBacklen, OneEntry, DecodeFrom, Prepend;
    var n := |EncodeEntry(e, f)|;
    var d := OneEntry(e, f, w, a, b);
    OneEntryParts(d, e, f, w, a, b);
    OnlyThisBacklen(n, w);
    var size := BacklenSize(n);
    if size <= w + 1 { CutBacklen(d, 6 + n, EncodeBacklen(n, w), size); }
    PrependOne([], d, 6);
    PrependNone([], DecodeFrom(d, 6));
    assert [] + [e] == [e];
    if w == size { DecodeEnds([e], d, 6 + n + w); }
  }
}
