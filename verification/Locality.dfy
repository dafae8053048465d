/**
 Parsing looks only at the bytes it consumes: wherever the same bytes occur, in whatever file,
 every routine of `Wire` reads the same value from them. This is what makes a piece that parses
 alone parse inside any file.
 */
module Locality {
  import opened Common
  import opened Types
  import opened Wire
  import Compact
  import Lzf
  import Listpack
  import Ziplist
  import StreamPack

  /** `d2` repeats the bytes `from..to` of `d`, displaced by `x`. */
  ghost predicate Same(d: Bytes, from: nat, to: nat, d2: Bytes, x: int) {
    && from <= to <= |d| && 0 <= from + x && to + x <= |d2|
    && forall i {:trigger d[i]} | from <= i < to :: d[i] == d2[i + x]
  }

  function Moved<T>(r: Outcome<T>, x: int): Outcome<T>
    requires r.Ok? && r.pos + x >= 0
  {
    Ok(r.value, r.pos + x)
  }

  lemma Narrow(d: Bytes, from: nat, to: nat, d2: Bytes, x: int, a: nat, b: nat)
    requires Same(d, from, to, d2, x) && from <= a <= b <= to
    ensures Same(d, a, b, d2, x) && 0 <= a + x && b + x <= |d2|
  {}

  lemma SameSlice(d: Bytes, from: nat, to: nat, d2: Bytes, x: int)
    requires Same(d, from, to, d2, x)
    ensures d[from..to] == d2[from + x..to + x]
  {}

  lemma SameAt(d: Bytes, p: nat, enc: Bytes)
    requires At(d, p, enc)
    ensures Same(enc, 0, |enc|, d, p)
  {
    forall i | 0 <= i < |enc| ensures enc[i] == d[i + p] {
      assert d[p..p + |enc|][i] == d[p + i];
    }
  }

  lemma TakeL(n: nat, d: Bytes, p: nat, d2: Bytes, x: int)
    requires p <= |d| && Take(d, p, n).Ok? && Same(d, p, p + n, d2, x)
    ensures Take(d2, p + x, n) == Moved(Take(d, p, n), x)
  {
    SameSlice(d, p, p + n, d2, x);
  }

  lemma I64L(d: Bytes, p: nat, d2: Bytes, x: int)
    requires p <= |d| && ReadI64(d, p).Ok? && Same(d, p, ReadI64(d, p).pos, d2, x)
    ensures ReadI64(d2, p + x) == Moved(ReadI64(d, p), x)
  {
    hide Compact.ReadInt;
    TakeL(8, d, p, d2, x);
  }

  lemma LengthL(d: Bytes, p: nat, d2: Bytes, x: int)
    requires p <= |d| && ReadLength(d, p).Ok? && Same(d, p, ReadLength(d, p).pos, d2, x)
    ensures ReadLength(d2, p + x) == Moved(ReadLength(d, p), x)
  {
    hide Be;
    assert d[p] == d2[p + x];
    if d[p] / 64 == 1 {
      assert d[p + 1] == d2[p + 1 + x];
    } else if d[p] == 0x80 {
      TakeL(4, d, p + 1, d2, x);
    } else if d[p] == 0x81 {
      TakeL(8, d, p + 1, d2, x);
    }
  }

  lemma LenValueL(d: Bytes, p: nat, d2: Bytes, x: int)
    requires p <= |d| && ReadLengthValue(d, p).Ok? && Same(d, p, ReadLengthValue(d, p).pos, d2, x)
    ensures ReadLengthValue(d2, p + x) == Moved(ReadLengthValue(d, p), x)
  {
    hide ReadLength;
    LengthL(d, p, d2, x);
  }

  lemma CountL(d: Bytes, p: nat, d2: Bytes, x: int)
    requires p <= |d| && ReadCount(d, p).Ok? && Same(d, p, ReadCount(d, p).pos, d2, x)
    ensures ReadCount(d2, p + x) == Moved(ReadCount(d, p), x)
  {
    hide ReadLengthValue;
    LenValueL(d, p, d2, x);
  }

  lemma EncodedL(enc: nat, d: Bytes, p: nat, d2: Bytes, x: int)
    requires p <= |d| && ReadEncoded(d, p, enc).Ok? && Same(d, p, ReadEncoded(d, p, enc).pos, d2, x)
    ensures ReadEncoded(d2, p + x, enc) == Moved(ReadEncoded(d, p, enc), x)
  {
    hide ReadCount, Lzf.Expected, Decimal, Compact.ReadInt;
    if enc <= 2 {
      TakeL(if enc == 0 then 1 else if enc == 1 then 2 else 4, d, p, d2, x);
    } else {
      var a := ReadCount(d, p);
      CountL(d, p, d2, x);
      var b := ReadCount(d, a.pos);
      CountL(d, a.pos, d2, x);
      TakeL(a.value, d, b.pos, d2, x);
    }
  }

  lemma StringL(d: Bytes, p: nat, d2: Bytes, x: int)
    requires p <= |d| && ReadString(d, p).Ok? && Same(d, p, ReadString(d, p).pos, d2, x)
    ensures ReadString(d2, p + x) == Moved(ReadString(d, p), x)
  {
    hide ReadLength, ReadEncoded;
    var l := ReadLength(d, p);
    LengthL(d, p, d2, x);
    match l.value
    case Len(n) => TakeL(n, d, l.pos, d2, x);
    case Special(enc) => EncodedL(enc, d, l.pos, d2, x);
  }

  lemma DoubleL(env: Env, d: Bytes, p: nat, d2: Bytes, x: int)
    requires p <= |d| && ReadDouble(env, d, p).Ok? && Same(d, p, ReadDouble(env, d, p).pos, d2, x)
    ensures ReadDouble(env, d2, p + x) == Moved(ReadDouble(env, d, p), x)
  {
    assert d[p] == d2[p + x];
    if d[p] < 253 { TakeL(d[p], d, p + 1, d2, x); }
  }

  lemma ElementL(env: Env, t: Byte, d: Bytes, p: nat, d2: Bytes, x: int)
    requires p <= |d| && IsPlainType(t)
    requires ReadElement(env, t, d, p).Ok? && Same(d, p, ReadElement(env, t, d, p).pos, d2, x)
    ensures ReadElement(env, t, d2, p + x) == Moved(ReadElement(env, t, d, p), x)
  {
    hide ReadString, ReadDouble, ReadI64;
    var a := ReadString(d, p);
    StringL(d, p, d2, x);
    if t == T_ZSET {
      DoubleL(env, d, a.pos, d2, x);
    } else if t == T_ZSET_2 {
      TakeL(8, d, a.pos, d2, x);
    } else if t == T_HASH || t == T_HASH_2 {
      var b := ReadString(d, a.pos);
      StringL(d, a.pos, d2, x);
      if t == T_HASH_2 { I64L(d, b.pos, d2, x); }
    }
  }

  lemma {:induction false} ElementsL(env: Env, t: Byte, n: nat, d: Bytes, p: nat, d2: Bytes, x: int)
    requires p <= |d| && IsPlainType(t)
    requires ReadElements(env, t, n, d, p).Ok? && Same(d, p, ReadElements(env, t, n, d, p).pos, d2, x)
    ensures ReadElements(env, t, n, d2, p + x) == Moved(ReadElements(env, t, n, d, p), x)
    decreases n
  {
    hide ReadElement;
    if n > 0 {
      var a := ReadElement(env, t, d, p);
      ElementL(env, t, d, p, d2, x);
      ElementsL(env, t, n - 1, d, a.pos, d2, x);
    }
  }

  lemma NodeL(v2: bool, d: Bytes, p: nat, d2: Bytes, x: int)
    requires p <= |d| && ReadNode(v2, d, p).Ok? && Same(d, p, ReadNode(v2, d, p).pos, d2, x)
    ensures ReadNode(v2, d2, p + x) == Moved(ReadNode(v2, d, p), x)
  {
    hide ReadString, ReadLengthValue, Listpack.DecodeSpec, Ziplist.DecodeSpec;
    if !v2 {
      StringL(d, p, d2, x);
    } else {
      var a := ReadLengthValue(d, p);
      LenValueL(d, p, d2, x);
      StringL(d, a.pos, d2, x);
    }
  }

  lemma {:induction false} NodesL(v2: bool, n: nat, acc: seq<Bytes>, d: Bytes, p: nat, d2: Bytes, x: int)
    requires p <= |d| && ReadNodes(v2, n, acc, d, p).Ok? && Same(d, p, ReadNodes(v2, n, acc, d, p).pos, d2, x)
    ensures ReadNodes(v2, n, acc, d2, p + x) == Moved(ReadNodes(v2, n, acc, d, p), x)
    decreases n
  {
    hide ReadNode;
    if n > 0 {
      var a := ReadNode(v2, d, p);
      NodeL(v2, d, p, d2, x);
      NodesL(v2, n - 1, acc + a.value, d, a.pos, d2, x);
    }
  }

  lemma {:induction false} PacksL(n: nat, acc: Packs, d: Bytes, p: nat, d2: Bytes, x: int)
    requires p <= |d| && ReadPacks(n, acc, d, p).Ok? && Same(d, p, ReadPacks(n, acc, d, p).pos, d2, x)
    ensures ReadPacks(n, acc, d2, p + x) == Moved(ReadPacks(n, acc, d, p), x)
    decreases n
  {
    hide ReadString, AddPack;
    if n > 0 {
      var a := ReadString(d, p);
      StringL(d, p, d2, x);
      var b := ReadString(d, a.pos);
      StringL(d, a.pos, d2, x);
      PacksL(n - 1, AddPack(acc, a.value, b.value), d, b.pos, d2, x);
    }
  }

  lemma {:induction false} LengthsL(n: nat, d: Bytes, p: nat, d2: Bytes, x: int)
    requires p <= |d| && SkipLengths(n, d, p).Ok? && Same(d, p, SkipLengths(n, d, p).pos, d2, x)
    ensures SkipLengths(n, d2, p + x) == Moved(SkipLengths(n, d, p), x)
    decreases n
  {
    hide ReadLengthValue;
    if n > 0 {
      LenValueL(d, p, d2, x);
      LengthsL(n - 1, d, ReadLengthValue(d, p).pos, d2, x);
    }
  }

  lemma {:induction false} PelL(n: nat, d: Bytes, p: nat, d2: Bytes, x: int)
    requires p <= |d| && SkipPel(n, d, p).Ok? && Same(d, p, SkipPel(n, d, p).pos, d2, x)
    ensures SkipPel(n, d2, p + x) == Moved(SkipPel(n, d, p), x)
    decreases n
  {
    hide ReadLengthValue, ReadI64;
    if n > 0 {
      TakeL(16, d, p, d2, x);
      I64L(d, p + 16, d2, x);
      LenValueL(d, p + 24, d2, x);
      PelL(n - 1, d, ReadLengthValue(d, p + 24).pos, d2, x);
    }
  }

  lemma {:induction false} IdsL(n: nat, d: Bytes, p: nat, d2: Bytes, x: int)
    requires p <= |d| && SkipIds(n, d, p).Ok? && Same(d, p, SkipIds(n, d, p).pos, d2, x)
    ensures SkipIds(n, d2, p + x) == Moved(SkipIds(n, d, p), x)
    decreases n
  {
    if n > 0 {
      TakeL(16, d, p, d2, x);
      IdsL(n - 1, d, p + 16, d2, x);
    }
  }

  /** The framing of one consumer. */
  lemma ConsumerL(t: Byte, d: Bytes, p: nat, d2: Bytes, x: int, end: nat)
    requires p <= |d| && SkipConsumers(t, 1, d, p).Ok? && SkipConsumers(t, 1, d, p).pos <= end && Same(d, p, end, d2, x)
    ensures SkipConsumers(t, 1, d2, p + x) == Moved(SkipConsumers(t, 1, d, p), x)
  {
    hide ReadString, ReadI64, ReadCount, SkipIds, Same;
    Narrow(d, p, end, d2, x, p, end);
    var a := ReadString(d, p);
    Narrow(d, p, end, d2, x, p, a.pos);
    StringL(d, p, d2, x);
    Narrow(d, p, end, d2, x, a.pos, a.pos + 8);
    I64L(d, a.pos, d2, x);
    var q := if t >= T_STREAM_LISTPACKS_3 then a.pos + 16 else a.pos + 8;
    if t >= T_STREAM_LISTPACKS_3 {
      Narrow(d, p, end, d2, x, a.pos + 8, q);
      I64L(d, a.pos + 8, d2, x);
    }
    var m := ReadCount(d, q);
    Narrow(d, p, end, d2, x, q, m.pos);
    CountL(d, q, d2, x);
    var r := SkipIds(m.value, d, m.pos);
    Narrow(d, p, end, d2, x, m.pos, r.pos);
    IdsL(m.value, d, m.pos, d2, x);
  }

  lemma {:induction false} OneConsumer(t: Byte, n: nat, d: Bytes, p: nat)
    requires p <= |d|
    ensures var first := SkipConsumers(t, 1, d, p);
            SkipConsumers(t, n + 1, d, p) == if first.Ok? then SkipConsumers(t, n, d, first.pos) else first
  {
    hide ReadString, ReadI64, ReadCount, SkipIds;
  }

  lemma {:induction false} ConsumersL(t: Byte, n: nat, d: Bytes, p: nat, d2: Bytes, x: int)
    requires p <= |d| && SkipConsumers(t, n, d, p).Ok? && Same(d, p, SkipConsumers(t, n, d, p).pos, d2, x)
    ensures SkipConsumers(t, n, d2, p + x) == Moved(SkipConsumers(t, n, d, p), x)
    decreases n
  {
    hide ReadString, ReadI64, ReadCount, SkipIds, Same;
    var end := SkipConsumers(t, n, d, p).pos;
    Narrow(d, p, end, d2, x, p, end);
    if n > 0 {
      OneConsumer(t, n - 1, d, p);
      ConsumerL(t, d, p, d2, x, end);
      OneConsumer(t, n - 1, d2, p + x);
      var q := SkipConsumers(t, 1, d, p).pos;
      Narrow(d, p, end, d2, x, q, end);
      ConsumersL(t, n - 1, d, q, d2, x);
    }
  }

  lemma GroupL(t: Byte, d: Bytes, p: nat, d2: Bytes, x: int)
    requires p <= |d| && SkipGroup(t, d, p).Ok? && Same(d, p, SkipGroup(t, d, p).pos, d2, x)
    ensures SkipGroup(t, d2, p + x) == Moved(SkipGroup(t, d, p), x)
  {
    hide ReadString, ReadCount, SkipLengths, SkipPel, SkipConsumers;
    var a := ReadString(d, p);
    StringL(d, p, d2, x);
    var k := if t >= T_STREAM_LISTPACKS_2 then 3 else 2;
    var b := SkipLengths(k, d, a.pos);
    LengthsL(k, d, a.pos, d2, x);
    var c := ReadCount(d, b.pos);
    CountL(d, b.pos, d2, x);
    var e := SkipPel(c.value, d, c.pos);
    PelL(c.value, d, c.pos, d2, x);
    var f := ReadCount(d, e.pos);
    CountL(d, e.pos, d2, x);
    ConsumersL(t, f.value, d, f.pos, d2, x);
  }

  lemma {:induction false} GroupsL(t: Byte, n: nat, d: Bytes, p: nat, d2: Bytes, x: int)
    requires p <= |d| && SkipGroups(t, n, d, p).Ok? && Same(d, p, SkipGroups(t, n, d, p).pos, d2, x)
    ensures SkipGroups(t, n, d2, p + x) == Moved(SkipGroups(t, n, d, p), x)
    decreases n
  {
    hide SkipGroup;
    if n > 0 {
      GroupL(t, d, p, d2, x);
      GroupsL(t, n - 1, d, SkipGroup(t, d, p).pos, d2, x);
    }
  }

  /** What follows the nodes of a stream: three numbers, then some that are skipped, then the groups. */
  lemma NumbersL(d: Bytes, p: nat, d2: Bytes, x: int, end: nat)
    requires p <= |d| && ReadLengthValue(d, p).Ok?
    requires var c := ReadLengthValue(d, p);
             && ReadLengthValue(d, c.pos).Ok?
             && var e := ReadLengthValue(d, c.pos);
                ReadLengthValue(d, e.pos).Ok? && ReadLengthValue(d, e.pos).pos <= end
    requires Same(d, p, end, d2, x)
    ensures var c := ReadLengthValue(d, p); var e := ReadLengthValue(d, c.pos); var f := ReadLengthValue(d, e.pos);
            && ReadLengthValue(d2, p + x) == Moved(c, x)
            && ReadLengthValue(d2, c.pos + x) == Moved(e, x)
            && ReadLengthValue(d2, e.pos + x) == Moved(f, x)
  {
    hide ReadLengthValue;
    var c := ReadLengthValue(d, p);
    LenValueL(d, p, d2, x);
    var e := ReadLengthValue(d, c.pos);
    LenValueL(d, c.pos, d2, x);
    LenValueL(d, e.pos, d2, x);
  }

  lemma {:induction false} GroupPartL(t: Byte, k: nat, d: Bytes, p: nat, d2: Bytes, x: int, end: nat)
    requires p <= |d| && SkipLengths(k, d, p).Ok? && ReadCount(d, SkipLengths(k, d, p).pos).Ok?
    requires var h := ReadCount(d, SkipLengths(k, d, p).pos);
             SkipGroups(t, h.value, d, h.pos).Ok? && SkipGroups(t, h.value, d, h.pos).pos <= end
    requires Same(d, p, end, d2, x)
    ensures var g := SkipLengths(k, d, p); var h := ReadCount(d, g.pos); var r := SkipGroups(t, h.value, d, h.pos);
            && SkipLengths(k, d2, p + x) == Moved(g, x)
            && ReadCount(d2, g.pos + x) == Moved(h, x)
            && SkipGroups(t, h.value, d2, h.pos + x) == Moved(r, x)
  {
    hide ReadCount, SkipLengths, SkipGroups;
    var g := SkipLengths(k, d, p);
    LengthsL(k, d, p, d2, x);
    var h := ReadCount(d, g.pos);
    CountL(d, g.pos, d2, x);
    GroupsL(t, h.value, d, h.pos, d2, x);
  }

  /** The five parts of a stream value, each read where the one before it ends. */
  ghost predicate PartsRead(
    d: Bytes, p: nat, a: Outcome<nat>, b: Outcome<Packs>, c: Outcome<nat>, e: Outcome<nat>, f: Outcome<nat>)
    requires p <= |d|
  {
    && a == ReadCount(d, p) && a.Ok? && a.pos <= |d|
    && b == ReadPacks(a.value, Packs([], None), d, a.pos) && b.Ok? && b.pos <= |d|
    && c == ReadLengthValue(d, b.pos) && c.Ok? && c.pos <= |d|
    && e == ReadLengthValue(d, c.pos) && e.Ok? && e.pos <= |d|
    && f == ReadLengthValue(d, e.pos) && f.Ok? && f.pos <= |d|
  }

  ghost predicate RestRead(t: Byte, d: Bytes, p: nat, g: Outcome<()>, h: Outcome<nat>, r: Outcome<()>)
    requires p <= |d|
  {
    && g == SkipLengths(if t >= T_STREAM_LISTPACKS_2 then 5 else 0, d, p) && g.Ok? && g.pos <= |d|
    && h == ReadCount(d, g.pos) && h.Ok? && h.pos <= |d|
    && r == SkipGroups(t, h.value, d, h.pos) && r.Ok?
  }

  lemma StreamIs(
    t: Byte, d: Bytes, p: nat, a: Outcome<nat>, b: Outcome<Packs>, c: Outcome<nat>, e: Outcome<nat>, f: Outcome<nat>,
    g: Outcome<()>, h: Outcome<nat>, r: Outcome<()>)
    requires p <= |d| && PartsRead(d, p, a, b, c, e, f) && RestRead(t, d, f.pos, g, h, r)
    ensures ReadStream(t, d, p) ==
            if b.value.deferred.Some? then Fail(b.value.deferred.value, r.pos)
            else if c.value != |b.value.entries| then Fail(CorruptData, r.pos)
            else Ok(Stream(b.value.entries, c.value, StreamPack.StreamId(e.value, f.value)), r.pos)
  {
    hide ReadCount, ReadPacks, ReadLengthValue, SkipLengths, SkipGroups, StreamPack.StreamId;
  }

  lemma StreamParts(t: Byte, d: Bytes, p: nat)
      returns (a: Outcome<nat>, b: Outcome<Packs>, c: Outcome<nat>, e: Outcome<nat>, f: Outcome<nat>,
               g: Outcome<()>, h: Outcome<nat>, r: Outcome<()>)
    requires p <= |d| && ReadStream(t, d, p).Ok?
    ensures PartsRead(d, p, a, b, c, e, f) && RestRead(t, d, f.pos, g, h, r)
    ensures p <= a.pos <= b.pos <= c.pos <= e.pos <= f.pos <= g.pos <= h.pos <= r.pos == ReadStream(t, d, p).pos
  {
    hide ReadCount, ReadPacks, ReadLengthValue, SkipLengths, SkipGroups, StreamPack.StreamId;
    a := ReadCount(d, p);
    b := ReadPacks(a.value, Packs([], None), d, a.pos);
    c := ReadLengthValue(d, b.pos);
    e := ReadLengthValue(d, c.pos);
    f := ReadLengthValue(d, e.pos);
    g := SkipLengths(if t >= T_STREAM_LISTPACKS_2 then 5 else 0, d, f.pos);
    h := ReadCount(d, g.pos);
    r := SkipGroups(t, h.value, d, h.pos);
  }

  lemma StreamL(t: Byte, d: Bytes, p: nat, d2: Bytes, x: int)
    requires p <= |d| && ReadStream(t, d, p).Ok? && Same(d, p, ReadStream(t, d, p).pos, d2, x)
    ensures ReadStream(t, d2, p + x) == Moved(ReadStream(t, d, p), x)
  {
    hide ReadCount, ReadPacks, ReadLengthValue, SkipLengths, SkipGroups, StreamPack.StreamId, Same, ReadStream;
    var end := ReadStream(t, d, p).pos;
    var a, b, c, e, f, g, h, r := StreamParts(t, d, p);
    StreamIs(t, d, p, a, b, c, e, f, g, h, r);
    Narrow(d, p, end, d2, x, p, end);
    Narrow(d, p, end, d2, x, p, a.pos);
    CountL(d, p, d2, x);
    Narrow(d, p, end, d2, x, a.pos, b.pos);
    PacksL(a.value, Packs([], None), d, a.pos, d2, x);
    Narrow(d, p, end, d2, x, b.pos, end);
    NumbersL(d, b.pos, d2, x, end);
    Narrow(d, p, end, d2, x, f.pos, end);
    GroupPartL(t, if t >= T_STREAM_LISTPACKS_2 then 5 else 0, d, f.pos, d2, x, end);
    StreamIs(t, d2, p + x, Moved(a, x), Moved(b, x), Moved(c, x), Moved(e, x), Moved(f, x), Moved(g, x), Moved(h, x),
        Moved(r, x));
  }

  lemma ModuleValueL(env: Env, opcode: nat, d: Bytes, p: nat, d2: Bytes, x: int)
    requires p <= |d| && ReadModuleValue(env, opcode, d, p).Ok?
             && Same(d, p, ReadModuleValue(env, opcode, d, p).pos, d2, x)
    ensures ReadModuleValue(env, opcode, d2, p + x) == Moved(ReadModuleValue(env, opcode, d, p), x)
  {
    hide ReadLengthValue, ReadString;
    if opcode == 1 || opcode == 2 {
      LenValueL(d, p, d2, x);
    } else if opcode == 5 {
      StringL(d, p, d2, x);
    } else {
      TakeL(if opcode == 3 then 4 else 8, d, p, d2, x);
    }
  }

  lemma {:induction false} ModuleL(env: Env, capped: bool, acc: seq<ModuleValue>, sb: nat, d: Bytes, p: nat,
      d2: Bytes, x: int)
    requires p <= |d| && ReadModule(env, capped, acc, sb, d, p).Ok?
    requires Same(d, p, ReadModule(env, capped, acc, sb, d, p).pos, d2, x)
    ensures ReadModule(env, capped, acc, sb, d2, p + x) == Moved(ReadModule(env, capped, acc, sb, d, p), x)
    decreases |d| - p
  {
    hide ReadLengthValue, ReadModuleValue;
    var a := ReadLengthValue(d, p);
    LenValueL(d, p, d2, x);
    if a.value != 0 {
      var v := ReadModuleValue(env, a.value, d, a.pos);
      ModuleValueL(env, a.value, d, a.pos, d2, x);
      ModuleL(env, capped, acc + [v.value], sb + if v.value.Text? then |v.value.s| else 0, d, v.pos, d2, x);
    }
  }

  lemma ValueL(env: Env, t: Byte, d: Bytes, p: nat, d2: Bytes, x: int)
    requires p <= |d| && ReadValue(env, t, d, p).Ok? && Same(d, p, ReadValue(env, t, d, p).pos, d2, x)
    ensures ReadValue(env, t, d2, p + x) == Moved(ReadValue(env, t, d, p), x)
  {
    hide ReadString, ReadCount, ReadElements, ReadNodes, ReadStream, ReadLengthValue, ReadModule, DecodeBlob;
    hide ModuleName;
    if IsBlobType(t) {
      StringL(d, p, d2, x);
    } else if IsPlainType(t) {
      var n := ReadCount(d, p);
      CountL(d, p, d2, x);
      ElementsL(env, t, n.value, d, n.pos, d2, x);
    } else if t == T_LIST_QUICKLIST || t == T_LIST_QUICKLIST_2 {
      var n := ReadCount(d, p);
      CountL(d, p, d2, x);
      NodesL(t == T_LIST_QUICKLIST_2, n.value, [], d, n.pos, d2, x);
    } else if IsStreamType(t) {
      StreamL(t, d, p, d2, x);
    } else {
      var id := ReadLengthValue(d, p);
      LenValueL(d, p, d2, x);
      ModuleL(env, true, [], 0, d, id.pos, d2, x);
    }
  }
}
