/**
 The reader itself: `CrcReader` and `RdbReader` with the fields and loops of the source, each
 method proved to compute the function of `Wire` or `Machine` that specifies it.
 */
module Reader {
  import opened Common
  import opened Types
  import opened Wire
  import opened Machine
  import Compact
  import BitLists
  import Crc64
  import Lzf
  import Listpack
  import Ziplist
  import Intset
  import StreamPack

  /** A source of bytes that folds everything read into a running checksum. */
  class CrcReader {
    const data: Bytes
    const table: array<Crc64.Word>
    var pos: nat
    var crc: Crc64.Word

    /** The running checksum covers exactly the bytes read so far. */
    ghost predicate Valid()
      reads this, table
      ensures Valid() ==> pos <= |data|
    {
      && Crc64.IsTable(Crc64.Poly(), table[..])
      && pos <= |data|
      && crc == Crc64.Crc(Crc64.Poly(), Crc64.Zeros(64), data[..pos])
    }

    constructor (data: Bytes, table: array<Crc64.Word>)
      requires Crc64.IsTable(Crc64.Poly(), table[..])
      ensures Valid() && this.data == data && pos == 0
    {
      this.data := data;
      this.table := table;
      pos := 0;
      crc := Crc64.Zeros(64);
    }

    /** One call of the underlying `read`: any number of bytes it likes, none only at the end. */
    method Read(limit: nat) returns (chunk: Bytes)
      requires Valid()
      modifies this
      ensures Valid()
      ensures |chunk| <= limit && pos == old(pos) + |chunk| && chunk == data[old(pos)..pos]
      ensures chunk == [] ==> limit == 0 || pos == |data|
    {
      hide Crc64.IsTable, Crc64.Crc, Crc64.Poly;
      if limit == 0 || pos == |data| { return []; }
      var n: nat :| 1 <= n <= limit && pos + n <= |data|;
      chunk := data[pos..pos + n];
      Crc64.CrcAppend(Crc64.Poly(), Crc64.Zeros(64), data[..pos], chunk);
      assert data[..pos] + chunk == data[..pos + n];
      crc := Crc64.Update(Crc64.Poly(), table, crc, chunk);
      pos := pos + n;
    }

    /** `read_exact`: the same bytes and the same checksum however the reads are split. */
    method ReadExact(n: nat) returns (r: Outcome<Bytes>)
      requires Valid()
      modifies this
      ensures Valid() && r == Take(data, old(pos), n) && pos == r.pos
    {
      hide CrcReader.Valid;
      var buf: Bytes := [];
      while |buf| < n
        invariant Valid() && old(pos) <= pos && |buf| <= n && buf == data[old(pos)..pos]
      {
        var chunk := Read(n - |buf|);
        if chunk == [] { return Fail(Io, pos); }
        buf := buf + chunk;
      }
      r := Ok(buf, pos);
    }
  }

  // ----- header -----

  datatype Magic = Redis | Valkey
  datatype Header = Header(magic: Magic, version: nat)

  const REDIS_MAGIC: Bytes := [82, 69, 68, 73, 83, 48]   // "REDIS0"
  const VALKEY_MAGIC: Bytes := [86, 65, 76, 75, 69, 89]  // "VALKEY"

  predicate IsDigit(b: Byte) { 48 <= b <= 57 }

  /** `parse::<u32>` on three bytes: digits, with an optional leading plus sign. */
  function ParseVersion(s: Bytes): Option<nat>
    requires |s| == 3
  {
    if !IsDigit(s[1]) || !IsDigit(s[2]) then None
    else if IsDigit(s[0]) then Some((s[0] as nat - 48) * 100 + (s[1] as nat - 48) * 10 + (s[2] as nat - 48))
    else if s[0] == 43 then Some((s[1] as nat - 48) * 10 + (s[2] as nat - 48))
    else None
  }

  function ParseHeader(s: Bytes): Result<Header>
    requires |s| == 9
  {
    if s[..6] != REDIS_MAGIC && s[..6] != VALKEY_MAGIC then Failure(InvalidMagic)
    else
      match ParseVersion(s[6..])
      case None => Failure(InvalidMagic)
      case Some(v) =>
        var magic := if s[..6] == REDIS_MAGIC then Redis else Valkey;
        if (magic.Redis? && 1 <= v <= 11) || (magic.Valkey? && v == 80) then Success(Header(magic, v))
        else Failure(UnsupportedVersion(v))
  }

  // ----- the reader -----

  class RdbReader {
    const env: Env
    const reader: CrcReader
    const header: Header
    const maxKeyElements: Option<nat>

    var metadata: map<Bytes, Bytes>
    var currentDb: nat
    var pendingExpiryMs: Option<int>
    var pendingLruIdle: Option<nat>
    var pendingLfuFreq: Option<Byte>
    var preambleByte: Option<Byte>
    var chunked: Option<Chunk>
    var finished: bool
    var crcChecked: bool

    ghost function Cfg(): Config { Config(env, header.version, maxKeyElements) }

    /** The state carried between calls, as one value. */
    ghost function St(): State
      reads this, reader
    {
      State(reader.pos, currentDb, pendingExpiryMs, pendingLruIdle, pendingLfuFreq, preambleByte, metadata,
            chunked, finished, crcChecked)
    }

    ghost predicate Valid()
      reads this, reader, reader.table
    {
      && reader.pos <= |reader.data|
      && (!finished ==> reader.Valid() && Machine.Valid(Cfg(), reader.data, St()))
    }

    /** A consistent reader is in a state that the state machine can continue from. */
    lemma Consistent()
      requires Valid()
      ensures St().pos <= |reader.data| && (St().finished || Machine.Valid(Cfg(), reader.data, St()))
    {}

    constructor (env: Env, reader: CrcReader, header: Header, maxKeyElements: Option<nat>)
      requires reader.Valid() && (maxKeyElements.Some? ==> maxKeyElements.value > 0)
      ensures Valid() && this.env == env && this.reader == reader && this.header == header
      ensures this.maxKeyElements == maxKeyElements
      ensures St() == Fresh(reader.pos)
    {
      this.env, this.reader, this.header, this.maxKeyElements := env, reader, header, maxKeyElements;
      metadata := map[];
      currentDb := 0;
      pendingExpiryMs, pendingLruIdle, pendingLfuFreq := None, None, None;
      preambleByte := None;
      chunked := None;
      finished, crcChecked := false, false;
    }

    // ----- primitives -----

    method ReadU8() returns (r: Outcome<Byte>)
      requires reader.Valid()
      modifies reader
      ensures reader.Valid() && r == Wire.ReadU8(reader.data, old(reader.pos)) && reader.pos == r.pos
    {
      hide CrcReader.Valid;
      var bufAt :- reader.ReadExact(1);
      var (buf, p) := bufAt;
      r := Ok(buf[0], p);
    }

    method ReadI64Le() returns (r: Outcome<int>)
      requires reader.Valid()
      modifies reader
      ensures reader.Valid() && r == Wire.ReadI64(reader.data, old(reader.pos)) && reader.pos == r.pos
    {
      hide CrcReader.Valid;
      var bufAt :- reader.ReadExact(8);
      var (buf, p) := bufAt;
      r := Ok(Compact.ReadInt(buf), p);
    }

    method ReadLength() returns (r: Outcome<LenResult>)
      requires reader.Valid()
      modifies reader
      ensures reader.Valid() && r == Wire.ReadLength(reader.data, old(reader.pos)) && reader.pos == r.pos
    {
      hide CrcReader.Valid, Be;
      var firstAt :- ReadU8();
      var (first, p) := firstAt;
      var top2 := first / 64;
      if top2 == 0 {
        r := Ok(Len(first % 64), p);
      } else if top2 == 1 {
        var secondAt :- ReadU8();
        var (second, q) := secondAt;
        r := Ok(Len(first as nat % 64 * 256 + second), q);
      } else if top2 == 2 {
        if first == 0x80 {
          var bufAt :- reader.ReadExact(4);
          var (buf, q) := bufAt;
          r := Ok(Len(Be(buf)), q);
        } else if first == 0x81 {
          var bufAt :- reader.ReadExact(8);
          var (buf, q) := bufAt;
          r := Ok(Len(Be(buf)), q);
        } else {
          r := Fail(CorruptData, p);
        }
      } else {
        r := Ok(Special(first % 64), p);
      }
    }

    method ReadLengthValue() returns (r: Outcome<nat>)
      requires reader.Valid()
      modifies reader
      ensures reader.Valid() && r == Wire.ReadLengthValue(reader.data, old(reader.pos)) && reader.pos == r.pos
    {
      hide CrcReader.Valid, Wire.ReadLength;
      var lAt :- ReadLength();
      var (l, p) := lAt;
      r := if l.Len? then Ok(l.n, p) else Fail(CorruptData, p);
    }

    /** `len_to_usize(read_length_value()?)` */
    method ReadCount() returns (r: Outcome<nat>)
      requires reader.Valid()
      modifies reader
      ensures reader.Valid() && r == Wire.ReadCount(reader.data, old(reader.pos)) && reader.pos == r.pos
    {
      hide CrcReader.Valid, Wire.ReadLengthValue;
      var nAt :- ReadLengthValue();
      var (n, p) := nAt;
      r := if n > MAX_ALLOC_BYTES then Fail(CorruptData, p) else Ok(n, p);
    }

    method ReadEncoded(enc: nat) returns (r: Outcome<Bytes>)
      requires reader.Valid()
      modifies reader
      ensures reader.Valid() && r == Wire.ReadEncoded(reader.data, old(reader.pos), enc) && reader.pos == r.pos
    {
      hide CrcReader.Valid, Wire.ReadCount, Lzf.Expected, Decimal, Compact.ReadInt;
      if enc <= 2 {
        var bufAt :- reader.ReadExact(if enc == 0 then 1 else if enc == 1 then 2 else 4);
        var (buf, p) := bufAt;
        r := Ok(Decimal(Compact.ReadInt(buf)), p);
      } else if enc == 3 {
        var compressedLenAt :- ReadCount();
        var (compressedLen, p1) := compressedLenAt;
        var uncompressedLenAt :- ReadCount();
        var (uncompressedLen, p2) := uncompressedLenAt;
        var compressedAt :- reader.ReadExact(compressedLen);
        var (compressed, p3) := compressedAt;
        var decompressed := Lzf.Decompress(compressed, uncompressedLen);
        r := Lift(decompressed, p3);
      } else {
        r := Fail(CorruptData, reader.pos);
      }
    }

    method ReadString() returns (r: Outcome<Bytes>)
      requires reader.Valid()
      modifies reader
      ensures reader.Valid() && r == Wire.ReadString(reader.data, old(reader.pos)) && reader.pos == r.pos
    {
      hide CrcReader.Valid, Wire.ReadLength, Wire.ReadEncoded;
      var lAt :- ReadLength();
      var (l, p) := lAt;
      if l.Len? {
        if l.n > MAX_ALLOC_BYTES { return Fail(CorruptData, p); }
        r := reader.ReadExact(l.n);
      } else {
        r := ReadEncoded(l.enc);
      }
    }

    method ReadDoubleValue() returns (r: Outcome<F64>)
      requires reader.Valid()
      modifies reader
      ensures reader.Valid() && r == Wire.ReadDouble(env, reader.data, old(reader.pos)) && reader.pos == r.pos
    {
      hide CrcReader.Valid;
      var nAt :- ReadU8();
      var (n, p) := nAt;
      if n == 255 { return Ok(NegInf, p); }
      if n == 254 { return Ok(PosInf, p); }
      if n == 253 { return Ok(NaN, p); }
      var bufAt :- reader.ReadExact(n);
      var (buf, q) := bufAt;
      var f := env.parseDouble(buf);
      r := if f.Some? then Ok(f.value, q) else Fail(CorruptData, q);
    }

    /** Read `n` plain lengths and drop them. */
    method SkipLengths(n: nat) returns (r: Outcome<()>)
      requires reader.Valid()
      modifies reader
      ensures reader.Valid() && r == Wire.SkipLengths(n, reader.data, old(reader.pos)) && reader.pos == r.pos
    {
      hide CrcReader.Valid, Wire.ReadLengthValue;
      for k := 0 to n
        invariant reader.Valid()
        invariant Wire.SkipLengths(n, reader.data, old(reader.pos)) == Wire.SkipLengths(n - k, reader.data, reader.pos)
      {
        var _ :- ReadLengthValue();
      }
      r := Ok((), reader.pos);
    }

    // ----- collections -----

    method ReadElement(t: Byte) returns (r: Outcome<RdbValue>)
      requires reader.Valid() && IsPlainType(t)
      modifies reader
      ensures reader.Valid() && r == Wire.ReadElement(env, t, reader.data, old(reader.pos)) && reader.pos == r.pos
    {
      hide CrcReader.Valid, Wire.ReadString, Wire.ReadDouble;
      var aAt :- ReadString();
      var (a, p1) := aAt;
      if t == T_LIST {
        r := Ok(List([a]), p1);
      } else if t == T_SET {
        r := Ok(RdbValue.Set([a]), p1);
      } else if t == T_ZSET {
        var scoreAt :- ReadDoubleValue();
        var (score, p2) := scoreAt;
        r := Ok(SortedSet([(a, score)]), p2);
      } else if t == T_ZSET_2 {
        var bufAt :- reader.ReadExact(8);
        var (buf, p2) := bufAt;
        r := Ok(SortedSet([(a, env.doubleOf(buf))]), p2);
      } else {
        var vAt :- ReadString();
        var (v, p2) := vAt;
        if t == T_HASH {
          r := Ok(Hash([HashField(a, v, None)]), p2);
        } else {
          var ttlAt :- ReadI64Le();
          var (ttl, p3) := ttlAt;
          r := Ok(Hash([HashField(a, v, if ttl == -1 then None else Some(ttl))]), p3);
        }
      }
    }

    /** `read_n_elements`: the six loops of the source share this one, over `ReadElement`. */
    method ReadNElements(t: Byte, n: nat) returns (r: Outcome<RdbValue>)
      requires reader.Valid() && IsPlainType(t)
      modifies reader
      ensures reader.Valid() && r == ReadElements(env, t, n, reader.data, old(reader.pos)) && reader.pos == r.pos
    {
      hide CrcReader.Valid, Wire.ReadElement;
      var value := EmptyOf(t);
      ghost var p0 := reader.pos;
      for k := 0 to n
        invariant reader.Valid()
        invariant ReadElements(env, t, k, reader.data, p0) == Ok(value, reader.pos)
      {
        ghost var p := reader.pos;
        SplitElements(env, t, k, n - k, reader.data, p0);
        SplitElements(env, t, k, 1, reader.data, p0);
        var xAt :- ReadElement(t);
        var (x, q) := xAt;
        assert ReadElements(env, t, 1, reader.data, p) == Ok(x, q) by { OneElement(t, p, x, q); }
        value := Append(value, x);
      }
      r := Ok(value, reader.pos);
    }

    lemma {:induction false} OneElement(t: Byte, p: nat, x: RdbValue, q: nat)
      requires p <= |reader.data| && IsPlainType(t) && Wire.ReadElement(env, t, reader.data, p) == Ok(x, q)
      ensures ReadElements(env, t, 1, reader.data, p) == Ok(x, q)
    {
      hide Wire.ReadElement;
      AppendEmpty(t, x);
      assert ReadElements(env, t, 0, reader.data, q) == Ok(EmptyOf(t), q);
    }

    /** The node loops of both quicklist versions. */
    method ReadQuicklist(v2: bool, n: nat) returns (r: Outcome<seq<Bytes>>)
      requires reader.Valid()
      modifies reader
      ensures reader.Valid() && r == ReadNodes(v2, n, [], reader.data, old(reader.pos)) && reader.pos == r.pos
    {
      hide CrcReader.Valid, Wire.ReadString, Wire.ReadLengthValue, Listpack.DecodeSpec, Ziplist.DecodeSpec;
      var elements: seq<Bytes> := [];
      for k := 0 to n
        invariant reader.Valid()
        invariant ReadNodes(v2, n, [], reader.data, old(reader.pos))
                  == ReadNodes(v2, n - k, elements, reader.data, reader.pos)
      {
        var container := 0;
        if v2 {
          var cAt :- ReadLengthValue();
          var c := cAt.0;
          container := c;
        }
        var nodeAt :- ReadString();
        var (node, p) := nodeAt;
        if !v2 {
          var entries := Ziplist.Decode(node);
          if entries.Failure? { return Fail(entries.error, p); }
          elements := elements + Compact.IntoBytesAll(entries.value);
        } else if container == 1 {
          elements := elements + [node];
        } else if container == 2 {
          var entries := Listpack.Decode(node);
          if entries.Failure? { return Fail(entries.error, p); }
          elements := elements + Compact.IntoBytesAll(entries.value);
        } else {
          return Fail(CorruptData, p);
        }
      }
      r := Ok(elements, reader.pos);
    }

    // ----- streams -----

    method ReadPacks(n: nat) returns (r: Outcome<Packs>)
      requires reader.Valid()
      modifies reader
      ensures reader.Valid() && r == Wire.ReadPacks(n, Packs([], None), reader.data, old(reader.pos))
              && reader.pos == r.pos
    {
      hide CrcReader.Valid, Wire.ReadString, StreamPack.DecodeBlob, Be;
      var allEntries: seq<StreamPack.StreamEntry> := [];
      var deferredErr: Option<RdbError> := None;
      for k := 0 to n
        invariant reader.Valid()
        invariant Wire.ReadPacks(n, Packs([], None), reader.data, old(reader.pos))
               == Wire.ReadPacks(n - k, Packs(allEntries, deferredErr), reader.data, reader.pos)
      {
        var masterIdAt :- ReadString();
        var masterId := masterIdAt.0;
        var lpDataAt :- ReadString();
        var lpData := lpDataAt.0;
        if deferredErr.Some? { continue; }
        if |masterId| != 16 {
          deferredErr := Some(CorruptData);
          continue;
        }
        var budget := if |allEntries| <= StreamPack.MAX_STREAM_ENTRIES
            then StreamPack.MAX_STREAM_ENTRIES - |allEntries| else 0;
        var entries := StreamPack.DecodeStreamListpack(Be(masterId[..8]), Be(masterId[8..16]), lpData, budget);
        if entries.Success? {
          allEntries := allEntries + entries.value;
        } else {
          deferredErr := Some(entries.error);
        }
      }
      r := Ok(Packs(allEntries, deferredErr), reader.pos);
    }

    method SkipPel(n: nat) returns (r: Outcome<()>)
      requires reader.Valid()
      modifies reader
      ensures reader.Valid() && r == Wire.SkipPel(n, reader.data, old(reader.pos)) && reader.pos == r.pos
    {
      hide CrcReader.Valid, Wire.ReadLengthValue, Wire.ReadI64;
      for k := 0 to n
        invariant reader.Valid()
        invariant Wire.SkipPel(n, reader.data, old(reader.pos)) == Wire.SkipPel(n - k, reader.data, reader.pos)
      {
        var _ :- reader.ReadExact(16);
        var _ :- ReadI64Le();
        var _ :- ReadLengthValue();
      }
      r := Ok((), reader.pos);
    }

    method SkipIds(n: nat) returns (r: Outcome<()>)
      requires reader.Valid()
      modifies reader
      ensures reader.Valid() && r == Wire.SkipIds(n, reader.data, old(reader.pos)) && reader.pos == r.pos
    {
      hide CrcReader.Valid;
      for k := 0 to n
        invariant reader.Valid()
        invariant Wire.SkipIds(n, reader.data, old(reader.pos)) == Wire.SkipIds(n - k, reader.data, reader.pos)
      {
        var _ :- reader.ReadExact(16);
      }
      r := Ok((), reader.pos);
    }

    method SkipConsumers(t: Byte, n: nat) returns (r: Outcome<()>)
      requires reader.Valid()
      modifies reader
      ensures reader.Valid() && r == Wire.SkipConsumers(t, n, reader.data, old(reader.pos)) && reader.pos == r.pos
    {
      hide CrcReader.Valid, Wire.ReadString, Wire.ReadI64, Wire.ReadCount, Wire.SkipIds;
      for k := 0 to n
        invariant reader.Valid()
        invariant Wire.SkipConsumers(t, n, reader.data, old(reader.pos))
                  == Wire.SkipConsumers(t, n - k, reader.data, reader.pos)
      {
        var _ :- ReadString();
        var _ :- ReadI64Le();
        if t >= T_STREAM_LISTPACKS_3 {
          var _ :- ReadI64Le();
        }
        var pelAt :- ReadCount();
        var pel := pelAt.0;
        var _ :- SkipIds(pel);
      }
      r := Ok((), reader.pos);
    }

    method SkipStreamConsumerGroups(t: Byte) returns (r: Outcome<()>)
      requires reader.Valid()
      modifies reader
      ensures reader.Valid() && reader.pos == r.pos
      ensures r == match Wire.ReadCount(reader.data, old(reader.pos))
                   case Fail(e, q) => Fail(e, q)
                   case Ok(n, q) => SkipGroups(t, n, reader.data, q)
    {
      hide CrcReader.Valid, Wire.ReadString, Wire.ReadCount, Wire.SkipLengths, Wire.SkipPel, Wire.SkipConsumers;
      var nAt :- ReadCount();
      var (n, p) := nAt;
      for k := 0 to n
        invariant reader.Valid()
        invariant SkipGroups(t, n, reader.data, p) == SkipGroups(t, n - k, reader.data, reader.pos)
      {
        var _ :- ReadString();
        var _ :- SkipLengths(if t >= T_STREAM_LISTPACKS_2 then 3 else 2);
        var pelAt :- ReadCount();
        var pel := pelAt.0;
        var _ :- SkipPel(pel);
        var consumersAt :- ReadCount();
        var consumers := consumersAt.0;
        var _ :- SkipConsumers(t, consumers);
      }
      r := Ok((), reader.pos);
    }

    method ReadStream(t: Byte) returns (r: Outcome<RdbValue>)
      requires reader.Valid()
      modifies reader
      ensures reader.Valid() && r == Wire.ReadStream(t, reader.data, old(reader.pos)) && reader.pos == r.pos
    {
      hide CrcReader.Valid, Wire.ReadCount, Wire.ReadPacks, Wire.ReadLengthValue, Wire.SkipLengths, SkipGroups;
      var nAt :- ReadCount();
      var n := nAt.0;
      var packsAt :- ReadPacks(n);
      var packs := packsAt.0;
      var lengthAt :- ReadLengthValue();
      var length := lengthAt.0;
      var lastMsAt :- ReadLengthValue();
      var lastMs := lastMsAt.0;
      var lastSeqAt :- ReadLengthValue();
      var lastSeq := lastSeqAt.0;
      var _ :- SkipLengths(if t >= T_STREAM_LISTPACKS_2 then 5 else 0);
      var last :- SkipStreamConsumerGroups(t);
      var q := last.1;
      if packs.deferred.Some? { return Fail(packs.deferred.value, q); }
      if length != |packs.entries| { return Fail(CorruptData, q); }
      r := Ok(Stream(packs.entries, length, StreamPack.StreamId(lastMs, lastSeq)), q);
    }

    // ----- modules -----

    method ReadModuleValue(opcode: nat) returns (r: Outcome<ModuleValue>)
      requires reader.Valid()
      modifies reader
      ensures reader.Valid() && r == Wire.ReadModuleValue(env, opcode, reader.data, old(reader.pos))
              && reader.pos == r.pos
    {
      hide CrcReader.Valid, Wire.ReadLengthValue, Wire.ReadString;
      if opcode == 1 {
        var rawAt :- ReadLengthValue();
        var (raw, p) := rawAt;
        r := Ok(SignedInt(Signed(raw, U64)), p);
      } else if opcode == 2 {
        var rawAt :- ReadLengthValue();
        var (raw, p) := rawAt;
        r := Ok(UnsignedInt(raw), p);
      } else if opcode == 5 {
        var sAt :- ReadString();
        var (s, p) := sAt;
        r := Ok(Text(s), p);
      } else if opcode == 3 {
        var bufAt :- reader.ReadExact(4);
        var (buf, p) := bufAt;
        r := Ok(Float(env.floatOf(buf)), p);
      } else if opcode == 4 {
        var bufAt :- reader.ReadExact(8);
        var (buf, p) := bufAt;
        r := Ok(Double(env.doubleOf(buf)), p);
      } else {
        r := Fail(CorruptData, reader.pos);
      }
    }

    /** `for_each_module_value` with the two callbacks it is given: collect under caps, or drop. */
    method ForEachModuleValue(capped: bool) returns (r: Outcome<seq<ModuleValue>>)
      requires reader.Valid()
      modifies reader
      ensures reader.Valid() && r == ReadModule(env, capped, [], 0, reader.data, old(reader.pos)) && reader.pos == r.pos
    {
      hide CrcReader.Valid, Wire.ReadLengthValue, Wire.ReadModuleValue;
      var values: seq<ModuleValue> := [];
      var stringBytes: nat := 0;
      while true
        invariant reader.Valid()
        invariant ReadModule(env, capped, [], 0, reader.data, old(reader.pos))
               == ReadModule(env, capped, values, stringBytes, reader.data, reader.pos)
        decreases |reader.data| - reader.pos
      {
        var opcodeAt :- ReadLengthValue();
        var (opcode, p) := opcodeAt;
        if opcode == 0 { return Ok(values, p); }
        var vAt :- ReadModuleValue(opcode);
        var (v, q) := vAt;
        if capped && OverCap(|values|, stringBytes, v) { return Fail(CorruptData, q); }
        values := values + [v];
        stringBytes := stringBytes + if v.Text? then |v.s| else 0;
      }
    }

    /** `decode_module_id`: nine base-64 digits from the low end of the identifier. */
    method DecodeModuleId(id: nat) returns (name: Bytes, moduleVersion: nat)
      ensures name == ModuleName(id) && moduleVersion == id % 1024
    {
      hide NameChar;
      moduleVersion := id % 1024;
      var rest: nat := id / 1024;
      name := [];
      ghost var digits: seq<nat> := [];
      assert NameDigits(rest, 9) + [] == NameDigits(rest, 9);
      for i := 9 downto 0
        invariant NameDigits(id / 1024, 9) == NameDigits(rest, i) + digits
        invariant forall k | 0 <= k < |digits| :: digits[k] < 64
        invariant name == NameChars(digits)
      {
        assert NameDigits(rest, i + 1) + digits == NameDigits(rest / 64, i) + ([rest % 64] + digits);
        name := [NameChar(rest % 64)] + name;
        digits := [rest % 64] + digits;
        rest := rest / 64;
      }
      assert NameDigits(rest, 0) + digits == digits;
    }

    // ----- values -----

    method ReadBlob(t: Byte) returns (r: Outcome<RdbValue>)
      requires reader.Valid() && IsBlobType(t)
      modifies reader
      ensures reader.Valid() && r == Wire.ReadValue(env, t, reader.data, old(reader.pos)) && reader.pos == r.pos
    {
      hide CrcReader.Valid, Wire.ReadString, Listpack.DecodeSpec, Ziplist.DecodeSpec, Intset.DecodeSpec;
      hide HashPairs, ZsetPairs;
      var blobAt :- ReadString();
      var (blob, p) := blobAt;
      if t == T_STRING { return Ok(RdbValue.Str(blob), p); }
      if t == T_HASH_ZIPMAP { return Fail(UnknownType(t), p); }
      if t == T_SET_INTSET {
        var members := Intset.Decode(blob);
        return if members.Success? then Ok(RdbValue.Set(members.value), p) else Fail(members.error, p);
      }
      var entries;
      if t == T_SET_LISTPACK || t == T_HASH_LISTPACK || t == T_ZSET_LISTPACK {
        entries := Listpack.Decode(blob);
      } else {
        entries := Ziplist.Decode(blob);
      }
      if t == T_SET_LISTPACK {
        r := Lift(SetOf(entries), p);
      } else if t == T_LIST_ZIPLIST {
        r := Lift(ListOf(entries), p);
      } else if t == T_HASH_LISTPACK || t == T_HASH_ZIPLIST {
        r := Lift(HashOf(entries), p);
      } else {
        r := Lift(ZsetOf(env, entries), p);
      }
    }

    method ReadValue(t: Byte) returns (r: Outcome<RdbValue>)
      requires reader.Valid()
      modifies reader
      ensures reader.Valid() && r == Wire.ReadValue(env, t, reader.data, old(reader.pos)) && reader.pos == r.pos
    {
      hide CrcReader.Valid, Wire.ReadCount, ReadElements, ReadNodes, Wire.ReadStream, ReadModule;
      hide Wire.ReadLengthValue, ModuleName;
      if IsBlobType(t) {
        r := ReadBlob(t);
      } else if IsPlainType(t) {
        var nAt :- ReadCount();
        var n := nAt.0;
        r := ReadNElements(t, n);
      } else if t == T_LIST_QUICKLIST || t == T_LIST_QUICKLIST_2 {
        var nAt :- ReadCount();
        var n := nAt.0;
        var elementsAt :- ReadQuicklist(t == T_LIST_QUICKLIST_2, n);
        var (elements, p) := elementsAt;
        r := Ok(List(elements), p);
      } else if IsStreamType(t) {
        r := ReadStream(t);
      } else if t == T_MODULE_2 {
        var idAt :- ReadLengthValue();
        var id := idAt.0;
        var name, moduleVersion := DecodeModuleId(id);
        var valuesAt :- ForEachModuleValue(true);
        var (values, p) := valuesAt;
        r := Ok(Module(name, moduleVersion, values), p);
      } else {
        r := Fail(CorruptData, reader.pos);
      }
    }

    // ----- one key -----

    method ReadChunkEntry() returns (r: Result<Option<RdbEntry>>)
      requires Valid() && !finished && chunked.Some?
      modifies this, reader
      ensures reader.Valid() && Answer(r, St()) == ReadChunk(Cfg(), reader.data, old(St()))
    {
      hide CrcReader.Valid, ReadElements;
      var state := chunked.value;
      var chunkSize := if maxKeyElements.value < state.remaining then maxKeyElements.value else state.remaining;
      var value := ReadNElements(state.typeCode, chunkSize);
      if value.Fail? { return Failure(value.error); }
      var left := state.remaining - chunkSize;
      chunked := if left == 0 then None else Some(state.(remaining := left, offset := state.offset + chunkSize));
      r := Success(Some(RdbEntry(state.db, state.key, value.value, state.typeCode, state.expiryMs, state.lruIdle,
                                 state.lfuFreq, Some(state.total), Some(state.offset))));
    }

    method ReadEntry(t: Byte) returns (r: Result<Option<RdbEntry>>)
      requires Valid() && !finished && chunked.None? && preambleByte.None?
      modifies this, reader
      ensures reader.Valid() && Answer(r, St()) == Machine.ReadEntry(Cfg(), reader.data, t, old(St()))
    {
      hide CrcReader.Valid, ReadElements, Wire.ReadString, Wire.ReadCount, Wire.ReadValue;
      ghost var s := St();
      var expiry, idle, freq := pendingExpiryMs, pendingLruIdle, pendingLfuFreq;
      pendingExpiryMs, pendingLruIdle, pendingLfuFreq := None, None, None;
      var key := ReadString();
      if key.Fail? { return Failure(key.error); }
      if maxKeyElements.Some? && IsPlainType(t) {
        var max := maxKeyElements.value;
        var count := ReadCount();
        if count.Fail? { return Failure(count.error); }
        if count.value > max {
          var value := ReadNElements(t, max);
          if value.Fail? { return Failure(value.error); }
          chunked := Some(Chunk(currentDb, key.value, t, expiry, idle, freq, count.value, count.value - max, max));
          return Success(Some(RdbEntry(currentDb, key.value, value.value, t, expiry, idle, freq, Some(count.value),
              Some(0))));
        }
        var value := ReadNElements(t, count.value);
        if value.Fail? { return Failure(value.error); }
        return Success(Some(RdbEntry(currentDb, key.value, value.value, t, expiry, idle, freq, None, None)));
      }
      var value := ReadValue(t);
      if value.Fail? { return Failure(value.error); }
      r := Success(Some(RdbEntry(currentDb, key.value, value.value, t, expiry, idle, freq, None, None)));
    }

    // ----- records -----

    method ReadAuxField() returns (r: Outcome<()>)
      requires reader.Valid()
      modifies reader, this`metadata
      ensures reader.Valid() && reader.pos == r.pos
      ensures match ReadRecord(env, reader.data, OP_AUX, old(St()))
              case Fail(e, q) => r == Fail(e, q) && metadata == old(metadata)
              case Ok(s, q) => r == Ok((), q) && St() == s
    {
      hide CrcReader.Valid, Wire.ReadString;
      var key := ReadString();
      if key.Fail? { return Fail(key.error, key.pos); }
      var value := ReadString();
      if value.Fail? { return Fail(value.error, value.pos); }
      if !env.validUtf8(key.value) { return Fail(CorruptData, value.pos); }
      metadata := metadata[key.value := AuxText(env, value.value)];
      r := Ok((), value.pos);
    }

    method ReadPreamble() returns (r: Outcome<()>)
      requires reader.Valid() && preambleByte.None?
      modifies reader, this`metadata, this`preambleByte
      ensures reader.Valid() && reader.pos == r.pos
      ensures match Machine.ReadPreamble(env, reader.data, old(St()))
              case Fail(e, q) => r == Fail(e, q)
              case Ok(s, q) => r == Ok((), q) && St() == s
    {
      hide CrcReader.Valid, ReadRecord;
      while true
        invariant reader.Valid() && preambleByte.None?
        invariant Machine.ReadPreamble(env, reader.data, old(St())) == Machine.ReadPreamble(env, reader.data, St())
        decreases |reader.data| - reader.pos
      {
        ghost var before := St();
        var byteAt :- ReadU8();
        var (byte, p) := byteAt;
        if byte == OP_AUX {
          assert St() == before.(pos := p);
          var _ :- ReadAuxField();
        } else {
          preambleByte := Some(byte);
          assert St() == before.(pos := p, preamble := Some(byte));
          return Ok((), p);
        }
      }
    }

    /** The arms of the opcode loop that end in `continue`, and its rejections. */
    method HandleRecord(op: Byte) returns (r: Outcome<()>)
      requires reader.Valid()
      modifies reader, this
      ensures reader.Valid() && reader.pos == r.pos
      ensures match ReadRecord(env, reader.data, op, old(St()))
              case Fail(e, q) => r == Fail(e, q) && St() == old(St()).(pos := q)
              case Ok(s, q) => r == Ok((), q) && St() == s
    {
      hide CrcReader.Valid, Wire.ReadString, Wire.ReadLengthValue, Wire.SkipLengths, Wire.ReadI64, ReadModule;
      hide Wire.ReadCount;
      if op == OP_AUX {
        r := ReadAuxField();
      } else if op == OP_SELECTDB {
        var dbAt :- ReadLengthValue();
        if dbAt.0 >= U32 { return Fail(CorruptData, dbAt.1); }
        currentDb := dbAt.0;
        r := Ok((), dbAt.1);
      } else if op == OP_RESIZEDB {
        var last :- SkipLengths(2);
        r := Ok((), last.1);
      } else if op == OP_EXPIRETIME_MS {
        var msAt :- ReadI64Le();
        pendingExpiryMs := Some(msAt.0);
        r := Ok((), msAt.1);
      } else if op == OP_EXPIRETIME {
        var secsAt :- reader.ReadExact(4);
        pendingExpiryMs := Some(Compact.ReadInt(secsAt.0) * 1000);
        r := Ok((), secsAt.1);
      } else if op == OP_IDLE {
        var idleAt :- ReadLengthValue();
        pendingLruIdle := Some(idleAt.0);
        r := Ok((), idleAt.1);
      } else if op == OP_FREQ {
        var freqAt :- ReadU8();
        pendingLfuFreq := Some(freqAt.0);
        r := Ok((), freqAt.1);
      } else if op == OP_FUNCTION2 {
        var payload :- ReadString();
        r := Ok((), payload.1);
      } else if op == OP_MODULE_AUX {
        var _ :- SkipLengths(3);
        var values :- ForEachModuleValue(false);
        r := Ok((), values.1);
      } else if op == OP_SLOT_INFO {
        var last :- SkipLengths(3);
        r := Ok((), last.1);
      } else if op == OP_SLOT_IMPORT {
        var _ :- ReadString();
        var ranges :- ReadCount();
        var last :- SkipLengths(2 * ranges.0);
        r := Ok((), last.1);
      } else {
        r := Fail(CorruptData, reader.pos);
      }
    }

    /** The trailer is read past the checksum, which by then covers every byte through EOF. */
    method HandleEof() returns (r: Result<Option<RdbEntry>>)
      requires reader.Valid()
      modifies reader, this
      ensures Answer(r, St()) == AtEof(header.version, reader.data, old(St()))
    {
      var computedCrc := reader.crc;
      assert BitLists.Value(computedCrc) == Computed(reader.data, reader.pos);
      hide CrcReader.Valid, Computed;
      if reader.pos + 8 > |reader.data| {
        reader.pos := |reader.data|;
        return Failure(Io);
      }
      var trailer := reader.data[reader.pos..reader.pos + 8];
      reader.pos := reader.pos + 8;
      var storedCrc := Le(trailer);
      if header.version >= 5 && storedCrc != 0 {
        if BitLists.Value(computedCrc) != storedCrc { return Failure(CorruptData); }
        crcChecked := true;
      }
      finished := true;
      r := Success(None);
    }

    // ----- iteration -----

    method NextInner() returns (r: Result<Option<RdbEntry>>)
      requires Valid() && !finished
      modifies reader, this
      ensures Answer(r, St()) == Machine.NextInner(Cfg(), reader.data, old(St()))
      ensures !finished && (r.Success? || r.error.UnknownType?) ==> reader.Valid()
    {
      hide CrcReader.Valid, Machine.ReadEntry, ReadChunk, ReadRecord, AtEof;
      if chunked.Some? {
        r := ReadChunkEntry();
        return;
      }
      while true
        invariant Valid() && !finished && chunked.None?
        invariant ReadUntilKey(Cfg(), reader.data, old(St())) == ReadUntilKey(Cfg(), reader.data, St())
        decreases Unread(reader.data, St())
      {
        var byte: Byte;
        if preambleByte.Some? {
          byte := preambleByte.value;
          preambleByte := None;
        } else {
          var b := ReadU8();
          if b.Fail? { return Failure(b.error); }
          byte := b.value;
        }
        if byte == OP_EOF {
          r := HandleEof();
          return;
        } else if IsObjectType(byte) {
          r := ReadEntry(byte);
          return;
        } else {
          var record := HandleRecord(byte);
          if record.Fail? { return Failure(record.error); }
        }
      }
    }

    /** One step of the iterator: the reply and every field are those of the state machine. */
    method Next() returns (r: Reply)
      requires Valid()
      modifies reader, this
      ensures Valid() && (r, St()) == Machine.Next(Cfg(), reader.data, old(St()))
    {
      hide CrcReader.Valid, Machine.NextInner;
      if finished { return Done; }
      var inner := NextInner();
      match inner
      case Success(None) => r := Done;
      case Success(Some(e)) => r := Yield(Got(e));
      case Failure(e) =>
        if !e.UnknownType? { finished := true; }
        r := Yield(Err(e));
    }
  }

  /** The state of a reader that has consumed its header and nothing else. */
  function Fresh(pos: nat): State { State(pos, 0, None, None, None, None, map[], None, false, false) }

  datatype Opened = Opened(header: Header, state: State)

  /** What `RdbReader::new` accepts, and the state it starts from. */
  function Start(env: Env, d: Bytes): Result<Opened> {
    match Take(d, 0, 9)
    case Fail(e, _) => Failure(e)
    case Ok(buf, p) =>
      var h :- ParseHeader(buf);
      match ReadPreamble(env, d, Fresh(p))
      case Fail(e, _) => Failure(e)
      case Ok(s, _) => Success(Opened(h, s))
  }

  method Open(env: Env, data: Bytes, maxKeyElements: Option<nat>) returns (r: Result<RdbReader>)
    requires maxKeyElements.Some? ==> maxKeyElements.value > 0
    ensures match Start(env, data)
            case Failure(e) => r == Failure(e)
            case Success(o) =>
              && r.Success? && fresh(r.value) && fresh(r.value.reader) && r.value.Valid()
              && r.value.reader.data == data && r.value.header == o.header
              && r.value.maxKeyElements == maxKeyElements && r.value.env == env
              && r.value.St() == o.state
  {
    hide CrcReader.Valid, ParseHeader, Machine.ReadPreamble;
    var table := Crc64.MakeTable(Crc64.Poly());
    var source := new CrcReader(data, table);
    var buf := source.ReadExact(9);
    if buf.Fail? { return Failure(buf.error); }
    var header := ParseHeader(buf.value);
    if header.Failure? { return Failure(header.error); }
    var reader := new RdbReader(env, source, header.value, maxKeyElements);
    var preamble := reader.ReadPreamble();
    if preamble.Fail? { return Failure(preamble.error); }
    r := Success(reader);
  }
}
