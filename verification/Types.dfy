/** Parsed values and entries, as the reader yields them and the batcher consumes them. */
module Types {
  import opened Common
  import StreamPack

  /** A double: not-a-number, an infinity, or an exact finite value. */
  datatype F64 = NaN | NegInf | PosInf | Finite(value: real)

  /** Library conversions the model does not look inside: any functions at all may stand here. */
  datatype Env = Env(
    parseDouble: Bytes -> Option<F64>,  // text to double; None when not UTF-8 or not a number
    doubleOf: Bytes -> F64,             // `f64::from_le_bytes`
    floatOf: Bytes -> F64,              // `f32::from_le_bytes`, widened
    intToDouble: int -> F64,            // `as f64`
    validUtf8: Bytes -> bool,           // `String::from_utf8(..).is_ok()`
    lossyText: Bytes -> Bytes)          // `String::from_utf8_lossy`

  /** An AUX value as text: its own bytes when they are UTF-8. */
  function AuxText(env: Env, v: Bytes): Bytes { if env.validUtf8(v) then v else env.lossyText(v) }

  datatype HashField = HashField(field: Bytes, value: Bytes, expiryMs: Option<int>)

  datatype ModuleValue =
    | SignedInt(i: int)
    | UnsignedInt(u: nat)
    | Float(f: F64)
    | Double(f: F64)
    | Text(s: Bytes)

  datatype RdbValue =
    | Str(data: Bytes)
    | List(elems: seq<Bytes>)
    | Set(members: seq<Bytes>)
    | SortedSet(pairs: seq<(Bytes, F64)>)
    | Hash(fields: seq<HashField>)
    | Module(name: Bytes, version: nat, values: seq<ModuleValue>)
    | Stream(entries: seq<StreamPack.StreamEntry>, length: nat, lastId: Bytes)
  {
    /** Element count of a plain collection. */
    function Size(): nat {
      match this
      case List(xs) => |xs|
      case Set(xs) => |xs|
      case SortedSet(xs) => |xs|
      case Hash(xs) => |xs|
      case _ => 0
    }
  }

  /** Two pieces of one plain collection put together; other combinations do not arise. */
  function Append(a: RdbValue, b: RdbValue): RdbValue {
    match (a, b)
    case (List(x), List(y)) => List(x + y)
    case (Set(x), Set(y)) => Set(x + y)
    case (SortedSet(x), SortedSet(y)) => SortedSet(x + y)
    case (Hash(x), Hash(y)) => Hash(x + y)
    case _ => a
  }

  predicate SameKind(a: RdbValue, b: RdbValue) {
    (a.List? && b.List?) || (a.Set? && b.Set?) || (a.SortedSet? && b.SortedSet?) || (a.Hash? && b.Hash?)
  }

  lemma AppendAssociative(a: RdbValue, b: RdbValue, c: RdbValue)
    requires SameKind(a, b) && SameKind(b, c)
    ensures Append(Append(a, b), c) == Append(a, Append(b, c))
    ensures SameKind(a, Append(b, c)) && SameKind(Append(a, b), c)
    ensures Append(a, b).Size() == a.Size() + b.Size()
  {
    match (a, b, c)
    case (List(x), List(y), List(z)) => assert (x + y) + z == x + (y + z);
    case (Set(x), Set(y), Set(z)) => assert (x + y) + z == x + (y + z);
    case (SortedSet(x), SortedSet(y), SortedSet(z)) => assert (x + y) + z == x + (y + z);
    case (Hash(x), Hash(y), Hash(z)) => assert (x + y) + z == x + (y + z);
  }

  datatype RdbEntry = RdbEntry(
    db: nat, key: Bytes, value: RdbValue, typeCode: Byte,
    expiryMs: Option<int>, lruIdle: Option<nat>, lfuFreq: Option<Byte>,
    totalElements: Option<nat>, elementOffset: Option<nat>)
  {
    predicate IsFirstChunk() { elementOffset == None || elementOffset == Some(0) }
  }

  // ----- opcodes and type codes -----

  const OP_SLOT_IMPORT: Byte := 243
  const OP_SLOT_INFO: Byte := 244
  const OP_FUNCTION2: Byte := 245
  const OP_FUNCTION_PRE_GA: Byte := 246
  const OP_MODULE_AUX: Byte := 247
  const OP_IDLE: Byte := 248
  const OP_FREQ: Byte := 249
  const OP_AUX: Byte := 250
  const OP_RESIZEDB: Byte := 251
  const OP_EXPIRETIME_MS: Byte := 252
  const OP_EXPIRETIME: Byte := 253
  const OP_SELECTDB: Byte := 254
  const OP_EOF: Byte := 255

  const T_STRING: Byte := 0
  const T_LIST: Byte := 1
  const T_SET: Byte := 2
  const T_ZSET: Byte := 3
  const T_HASH: Byte := 4
  const T_ZSET_2: Byte := 5
  const T_MODULE_PRE_GA: Byte := 6
  const T_MODULE_2: Byte := 7
  const T_HASH_ZIPMAP: Byte := 9
  const T_LIST_ZIPLIST: Byte := 10
  const T_SET_INTSET: Byte := 11
  const T_ZSET_ZIPLIST: Byte := 12
  const T_HASH_ZIPLIST: Byte := 13
  const T_LIST_QUICKLIST: Byte := 14
  const T_STREAM_LISTPACKS: Byte := 15
  const T_HASH_LISTPACK: Byte := 16
  const T_ZSET_LISTPACK: Byte := 17
  const T_LIST_QUICKLIST_2: Byte := 18
  const T_STREAM_LISTPACKS_2: Byte := 19
  const T_SET_LISTPACK: Byte := 20
  const T_STREAM_LISTPACKS_3: Byte := 21
  const T_HASH_2: Byte := 22

  predicate IsObjectType(t: Byte) { t <= 7 || 9 <= t <= T_HASH_2 }

  predicate IsPlainType(t: Byte) {
    t == T_LIST || t == T_SET || t == T_ZSET || t == T_HASH || t == T_ZSET_2 || t == T_HASH_2
  }

  predicate IsStreamType(t: Byte) {
    t == T_STREAM_LISTPACKS || t == T_STREAM_LISTPACKS_2 || t == T_STREAM_LISTPACKS_3
  }
}
