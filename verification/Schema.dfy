/**
 Type tags, row counts and column schemas: how an entry is routed, how many rows it becomes, and
 which columns its rows have.
 */
module Schema {
  import opened Common
  import opened Types
  import Geohash
  import StreamPack

  datatype TypeTag = StringTag | ListTag | SetTag | ZSetTag | HashTag | GeoTag | HllTag | ModuleTag | StreamTag

  /** All tags, in the order maps keyed by tag are walked. */
  const ALL: seq<TypeTag> := [StringTag, ListTag, SetTag, ZSetTag, HashTag, GeoTag, HllTag, ModuleTag, StreamTag]

  lemma AllOnce()
    ensures forall t: TypeTag :: t in ALL
    ensures forall i, j :: 0 <= i < j < |ALL| ==> ALL[i] != ALL[j]
  {
    forall t: TypeTag
      ensures t in ALL
    {
      match t
      case StringTag => assert ALL[0] == t;
      case ListTag => assert ALL[1] == t;
      case SetTag => assert ALL[2] == t;
      case ZSetTag => assert ALL[3] == t;
      case HashTag => assert ALL[4] == t;
      case GeoTag => assert ALL[5] == t;
      case HllTag => assert ALL[6] == t;
      case ModuleTag => assert ALL[7] == t;
      case StreamTag => assert ALL[8] == t;
    }
  }

  // ----- virtual types -----

  predicate IsHll(data: Bytes) {
    |data| >= 16 && data[..4] == [72, 89, 76, 76] && (data[4] == 0 || data[4] == 1)
  }

  function HllEncoding(data: Bytes): string {
    if |data| <= 4 then "unknown" else if data[4] == 0 then "dense" else if data[4] == 1 then "sparse" else "unknown"
  }

  function HllCachedCardinality(data: Bytes): int {
    if |data| < 16 then -1
    else if Le(data[8..16]) >= 0x8000_0000_0000_0000 then -1
    else Le(data[8..16])
  }

  predicate IsGeo(pairs: seq<(Bytes, F64)>) {
    pairs != [] && forall i :: 0 <= i < |pairs| ==> Geohash.Decode(pairs[i].1).Some?
  }

  /** The cached cardinality is the low 63 bits of the header word, or -1 when the top bit marks the cache
      invalid or there is no header; the encoding is known from the fifth byte, and of every sketch. */
  lemma HllColumns(data: Bytes)
    ensures HllEncoding(data)
            == if |data| < 5 || data[4] > 1 then "unknown" else if data[4] == 0 then "dense" else "sparse"
    ensures HllCachedCardinality(data) == if |data| >= 16 && data[15] < 128 then Le(data[8..16]) else -1
    ensures HllCachedCardinality(data) < 0x8000_0000_0000_0000
    ensures IsHll(data) ==> HllEncoding(data) == "dense" || HllEncoding(data) == "sparse"
  {
    if |data| >= 16 {
      var word := data[8..16];
      LeTop(word);
      assert word[7] == data[15];
    }
  }

  lemma {:induction false} LeTop(b: Bytes)
    requires |b| == 8
    ensures Le(b) >= 0x8000_0000_0000_0000 <==> b[7] >= 128
  {
    assert Le(b[7..]) == b[7] as nat by { assert b[7..][1..] == []; }
    LeStep(b, 6);
    LeStep(b, 5);
    LeStep(b, 4);
    LeStep(b, 3);
    LeStep(b, 2);
    LeStep(b, 1);
    LeStep(b, 0);
    assert b[0..] == b;
  }

  lemma LeStep(b: Bytes, i: nat)
    requires i < |b|
    ensures Le(b[i..]) == b[i] as nat + 256 * Le(b[i + 1..])
  {
    assert b[i..][1..] == b[i + 1..];
  }

  // ----- routing -----

  function TypeTagFor(e: RdbEntry): TypeTag {
    match e.value
    case Str(data) => if IsHll(data) then HllTag else StringTag
    case List(_) => ListTag
    case Set(_) => SetTag
    case SortedSet(_) => ZSetTag
    case Hash(_) => HashTag
    case Module(_, _, _) => ModuleTag
    case Stream(_, _, _) => StreamTag
  }

  function AtLeastOne(n: nat): nat { if n == 0 then 1 else n }

  function StreamRowCount(entries: seq<StreamPack.StreamEntry>): nat {
    if entries == [] then 0 else AtLeastOne(|entries[0].fields|) + StreamRowCount(entries[1..])
  }

  function ExpectedRowCount(e: RdbEntry): nat {
    match e.value
    case Str(_) => 1
    case List(xs) => AtLeastOne(|xs|)
    case Set(xs) => AtLeastOne(|xs|)
    case SortedSet(xs) => AtLeastOne(|xs|)
    case Hash(xs) => AtLeastOne(|xs|)
    case Module(_, _, vs) => AtLeastOne(|vs|)
    case Stream(es, _, _) => AtLeastOne(StreamRowCount(es))
  }

  /** A chunk of a sorted set is never geo, whatever its scores. */
  predicate IsGeoEntry(e: RdbEntry) {
    e.totalElements.None? && e.value.SortedSet? && IsGeo(e.value.pairs)
  }

  predicate ShouldEmitGeo(geo: bool, tag: TypeTag, e: RdbEntry) {
    geo && tag == ZSetTag && IsGeoEntry(e)
  }

  // ----- columns -----

  datatype Cell = Null | Num(n: int) | Bin(b: Bytes) | Txt(s: string) | Real(f: F64)
  datatype Kind = UInt32 | UInt64 | UInt8 | Int64 | Binary | Utf8 | Float64
  datatype Field = Field(name: string, kind: Kind, nullable: bool)

  const CommonFields: seq<Field> := [
    Field("db", UInt32, false), Field("key", Binary, false), Field("type", Utf8, false),
    Field("expiry_ms", Int64, true), Field("lru_idle_secs", UInt64, true), Field("lfu_frequency", UInt8, true),
    Field("encoding", Utf8, false), Field("num_elements", UInt64, false)]

  /** The columns beside the common ones. */
  function OwnFields(tag: TypeTag): seq<Field> {
    match tag
    case StringTag => [Field("value", Binary, false)]
    case ListTag => [Field("index", UInt64, true), Field("element", Binary, true)]
    case SetTag => [Field("member", Binary, true)]
    case ZSetTag => [Field("member", Binary, true), Field("score", Float64, true)]
    case HashTag =>
      [Field("field", Binary, true), Field("field_value", Binary, true), Field("field_expiry_ms", Int64, true)]
    case GeoTag =>
      [Field("member", Binary, true), Field("longitude", Float64, true), Field("latitude", Float64, true),
       Field("geohash_score", Float64, true)]
    case HllTag =>
      [Field("hll_encoding", Utf8, false), Field("cached_cardinality", Int64, false), Field("raw_value", Binary, false)]
    case ModuleTag =>
      [Field("module_name", Utf8, false), Field("module_version", UInt32, false), Field("value_index", UInt32, false),
       Field("opcode", Utf8, false), Field("int_value", UInt64, true), Field("double_value", Float64, true),
       Field("string_value", Binary, true)]
    case StreamTag => [Field("stream_id", Utf8, true), Field("field", Binary, true), Field("field_value", Binary, true)]
  }

  function Fields(tag: TypeTag): seq<Field> { CommonFields + OwnFields(tag) }

  predicate OfKind(c: Cell, k: Kind) {
    match k
    case Binary => c.Bin?
    case Utf8 => c.Txt?
    case Float64 => c.Real?
    case _ => c.Num?
  }

  predicate FitsField(c: Cell, f: Field) { if c.Null? then f.nullable else OfKind(c, f.kind) }

  predicate FitsFields(cells: seq<Cell>, fields: seq<Field>) {
    |cells| == |fields| && forall i :: 0 <= i < |fields| ==> FitsField(cells[i], fields[i])
  }

  // ----- names -----

  function TypeName(t: Byte): string {
    if t == T_STRING then "string"
    else if t == T_LIST || t == T_LIST_ZIPLIST || t == T_LIST_QUICKLIST || t == T_LIST_QUICKLIST_2 then "list"
    else if t == T_SET || t == T_SET_INTSET || t == T_SET_LISTPACK then "set"
    else if t == T_ZSET || t == T_ZSET_2 || t == T_ZSET_ZIPLIST || t == T_ZSET_LISTPACK then "zset"
    else if t == T_HASH || t == T_HASH_ZIPMAP || t == T_HASH_ZIPLIST || t == T_HASH_LISTPACK || t == T_HASH_2
    then "hash"
    else if IsStreamType(t) then "stream"
    else if t == T_MODULE_PRE_GA || t == T_MODULE_2 then "module"
    else "unknown"
  }

  function EncodingName(t: Byte): string {
    if t == T_STRING then "string"
    else if t == T_LIST then "linkedlist"
    else if t == T_SET || t == T_HASH || t == T_HASH_2 then "hashtable"
    else if t == T_ZSET || t == T_ZSET_2 then "skiplist"
    else if t == T_HASH_ZIPMAP then "zipmap"
    else if t == T_LIST_ZIPLIST || t == T_ZSET_ZIPLIST || t == T_HASH_ZIPLIST then "ziplist"
    else if t == T_SET_INTSET then "intset"
    else if t == T_LIST_QUICKLIST then "quicklist"
    else if t == T_LIST_QUICKLIST_2 then "quicklist2"
    else if t == T_HASH_LISTPACK || t == T_ZSET_LISTPACK || t == T_SET_LISTPACK then "listpack"
    else if t == T_STREAM_LISTPACKS then "stream"
    else if t == T_STREAM_LISTPACKS_2 then "stream2"
    else if t == T_STREAM_LISTPACKS_3 then "stream3"
    else if t == T_MODULE_PRE_GA || t == T_MODULE_2 then "module"
    else "unknown"
  }
}
