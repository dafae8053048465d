/**
 What each parsing routine of the reader computes, as a function of the input bytes and the
 cursor: the value and the new cursor, or the error and the cursor it leaves behind. A short read
 consumes the rest of the input, as `read_exact` does.
 */
module Wire {
  import opened Common
  import opened Types
  import opened Compact
  import Lzf
  import Listpack
  import Ziplist
  import Intset
  import StreamPack

  datatype Outcome<+T> = Ok(value: T, pos: nat) | Fail(error: RdbError, pos: nat)
  {
    predicate IsFailure() { Fail? }
    function PropagateFailure<U>(): Outcome<U> requires Fail? { Fail(error, pos) }
    function Extract(): (T, nat) requires Ok? { (value, pos) }
  }

  /** A failed read is an I/O or corruption error: only a recognised but unsupported type is not. */
  predicate Terminal(e: RdbError) { e == Io || e == CorruptData }

  const MAX_ALLOC_BYTES: nat := 512 * 1024 * 1024
  const MAX_MODULE_VALUES: nat := 5_000_000
  const MAX_MODULE_STRING_BYTES: nat := 256 * 1024 * 1024

  datatype LenResult = Len(n: nat) | Special(enc: nat)

  // ----- primitives -----

  function Take(d: Bytes, p: nat, n: nat): (r: Outcome<Bytes>)
    requires p <= |d|
    ensures p <= r.pos <= |d| && (r.Ok? ==> r.pos == p + n && |r.value| == n)
    ensures r.Fail? ==> Terminal(r.error)
  {
    if p + n <= |d| then Ok(d[p..p + n], p + n) else Fail(Io, |d|)
  }

  function ReadU8(d: Bytes, p: nat): (r: Outcome<Byte>)
    requires p <= |d|
    ensures p <= r.pos <= |d| && (r.Ok? ==> r.pos == p + 1)
    ensures r.Fail? ==> Terminal(r.error)
  {
    if p < |d| then Ok(d[p], p + 1) else Fail(Io, |d|)
  }

  function ReadI64(d: Bytes, p: nat): (r: Outcome<int>)
    requires p <= |d|
    ensures p <= r.pos <= |d| && (r.Ok? ==> r.pos == p + 8)
    ensures r.Fail? ==> Terminal(r.error)
  {
    var (s, p1) :- Take(d, p, 8);
    Ok(ReadInt(s), p1)
  }

  function ReadLength(d: Bytes, p: nat): (r: Outcome<LenResult>)
    requires p <= |d|
    ensures p <= r.pos <= |d| && (r.Ok? ==> p < r.pos)
    ensures r.Fail? ==> Terminal(r.error)
  {
    var (first, p1) :- ReadU8(d, p);
    if first / 64 == 0 then Ok(Len(first % 64), p1)
    else if first / 64 == 1 then
      var (second, p2) :- ReadU8(d, p1);
      Ok(Len(first % 64 * 256 + second), p2)
    else if first / 64 == 2 then
      if first == 0x80 then
        var (s, p2) :- Take(d, p1, 4);
        Ok(Len(Be(s)), p2)
      else if first == 0x81 then
        var (s, p2) :- Take(d, p1, 8);
        Ok(Len(Be(s)), p2)
      else Fail(CorruptData, p1)
    else Ok(Special(first % 64), p1)
  }

  function ReadLengthValue(d: Bytes, p: nat): (r: Outcome<nat>)
    requires p <= |d|
    ensures p <= r.pos <= |d| && (r.Ok? ==> p < r.pos)
    ensures r.Fail? ==> Terminal(r.error)
  {
    var (l, p1) :- ReadLength(d, p);
    match l
    case Len(n) => Ok(n, p1)
    case Special(_) => Fail(CorruptData, p1)
  }

  /** A length that passed `len_to_usize`. */
  function ReadCount(d: Bytes, p: nat): (r: Outcome<nat>)
    requires p <= |d|
    ensures p <= r.pos <= |d| && (r.Ok? ==> p < r.pos)
    ensures r.Fail? ==> Terminal(r.error)
  {
    var (n, p1) :- ReadLengthValue(d, p);
    if n > MAX_ALLOC_BYTES then Fail(CorruptData, p1) else Ok(n, p1)
  }

  function Lift<T>(r: Result<T>, p: nat): Outcome<T> {
    match r
    case Success(v) => Ok(v, p)
    case Failure(e) => Fail(e, p)
  }

  function ReadString(d: Bytes, p: nat): (r: Outcome<Bytes>)
    requires p <= |d|
    ensures p <= r.pos <= |d| && (r.Ok? ==> p < r.pos)
    ensures r.Fail? ==> Terminal(r.error)
  {
    var (l, p1) :- ReadLength(d, p);
    match l
    case Len(n) => if n > MAX_ALLOC_BYTES then Fail(CorruptData, p1) else Take(d, p1, n)
    case Special(enc) => ReadEncoded(d, p1, enc)
  }

  /** Integer and LZF string encodings. */
  function ReadEncoded(d: Bytes, p: nat, enc: nat): (r: Outcome<Bytes>)
    requires p <= |d|
    ensures p <= r.pos <= |d|
    ensures r.Fail? ==> Terminal(r.error)
  {
    if enc <= 2 then
      var (s, p1) :- Take(d, p, if enc == 0 then 1 else if enc == 1 then 2 else 4);
      Ok(Decimal(ReadInt(s)), p1)
    else if enc == 3 then
      var (clen, p1) :- ReadCount(d, p);
      var (ulen, p2) :- ReadCount(d, p1);
      var (c, p3) :- Take(d, p2, clen);
      Lift(Lzf.Expected(c, ulen), p3)
    else Fail(CorruptData, p)
  }

  function ReadDouble(env: Env, d: Bytes, p: nat): (r: Outcome<F64>)
    requires p <= |d|
    ensures p <= r.pos <= |d| && (r.Ok? ==> p < r.pos)
    ensures r.Fail? ==> Terminal(r.error)
  {
    var (n, p1) :- ReadU8(d, p);
    if n == 255 then Ok(NegInf, p1)
    else if n == 254 then Ok(PosInf, p1)
    else if n == 253 then Ok(NaN, p1)
    else
      var (s, p2) :- Take(d, p1, n);
      match env.parseDouble(s)
      case Some(f) => Ok(f, p2)
      case None => Fail(CorruptData, p2)
  }

  // ----- plain collections -----

  function EmptyOf(t: Byte): RdbValue {
    if t == T_LIST then List([]) else if t == T_SET then Set([])
    else if t == T_ZSET || t == T_ZSET_2 then SortedSet([]) else Hash([])
  }

  /** One element, as a collection of size one. */
  function ReadElement(env: Env, t: Byte, d: Bytes, p: nat): (r: Outcome<RdbValue>)
    requires p <= |d| && IsPlainType(t)
    ensures p <= r.pos <= |d|
    ensures r.Fail? ==> Terminal(r.error)
    ensures r.Ok? ==> p < r.pos && SameKind(EmptyOf(t), r.value) && r.value.Size() == 1
  {
    var (a, p1) :- ReadString(d, p);
    if t == T_LIST then Ok(List([a]), p1)
    else if t == T_SET then Ok(Set([a]), p1)
    else if t == T_ZSET then
      var (f, p2) :- ReadDouble(env, d, p1);
      Ok(SortedSet([(a, f)]), p2)
    else if t == T_ZSET_2 then
      var (s, p2) :- Take(d, p1, 8);
      Ok(SortedSet([(a, env.doubleOf(s))]), p2)
    else
      var (v, p2) :- ReadString(d, p1);
      if t == T_HASH then Ok(Hash([HashField(a, v, None)]), p2)
      else
        var (ttl, p3) :- ReadI64(d, p2);
        Ok(Hash([HashField(a, v, if ttl == -1 then None else Some(ttl))]), p3)
  }

  function ReadElements(env: Env, t: Byte, n: nat, d: Bytes, p: nat): (r: Outcome<RdbValue>)
    requires p <= |d| && IsPlainType(t)
    ensures p <= r.pos <= |d|
    ensures r.Fail? ==> Terminal(r.error)
    ensures r.Ok? ==> p + n <= r.pos && SameKind(EmptyOf(t), r.value) && r.value.Size() == n
    decreases n
  {
    if n == 0 then Ok(EmptyOf(t), p)
    else
      var (x, p1) :- ReadElement(env, t, d, p);
      var (xs, p2) :- ReadElements(env, t, n - 1, d, p1);
      Ok(Append(x, xs), p2)
  }

  // ----- compact collections -----

  function HashPairs(es: seq<CompactEntry>): (r: Result<seq<HashField>>)
    ensures if |es| % 2 == 0 then r.Success? && |r.value| == |es| / 2 else r == Failure(CorruptData)
  {
    if es == [] then Success([])
    else if |es| == 1 then Failure(CorruptData)
    else
      var rest :- HashPairs(es[2..]);
      Success([HashField(es[0].IntoBytes(), es[1].IntoBytes(), None)] + rest)
  }

  function ToDouble(env: Env, e: CompactEntry): Option<F64> {
    match e
    case Int(n) => Some(env.intToDouble(n))
    case Str(s) => env.parseDouble(s)
  }

  function ZsetPairs(env: Env, es: seq<CompactEntry>): (r: Result<seq<(Bytes, F64)>>)
    ensures r.Success? ==> |r.value| == |es| / 2 && |es| % 2 == 0
    ensures r.Failure? ==> r.error == CorruptData
  {
    if |es| % 2 != 0 then Failure(CorruptData)
    else if es == [] then Success([])
    else
      match ToDouble(env, es[1])
      case None => Failure(CorruptData)
      case Some(f) =>
        var rest :- ZsetPairs(env, es[2..]);
        Success([(es[0].IntoBytes(), f)] + rest)
  }

  function ListOf(r: Result<seq<CompactEntry>>): Result<RdbValue> {
    match r case Failure(e) => Failure(e) case Success(es) => Success(List(IntoBytesAll(es)))
  }

  function SetOf(r: Result<seq<CompactEntry>>): Result<RdbValue> {
    match r case Failure(e) => Failure(e) case Success(es) => Success(Set(IntoBytesAll(es)))
  }

  function HashOf(r: Result<seq<CompactEntry>>): Result<RdbValue> {
    var es :- r;
    var fields :- HashPairs(es);
    Success(Hash(fields))
  }

  function ZsetOf(env: Env, r: Result<seq<CompactEntry>>): Result<RdbValue> {
    var es :- r;
    var pairs :- ZsetPairs(env, es);
    Success(SortedSet(pairs))
  }

  /** The value in one blob of a compact type. */
  function DecodeBlob(env: Env, t: Byte, blob: Bytes): Result<RdbValue> {
    if t == T_SET_LISTPACK then SetOf(Listpack.DecodeSpec(blob))
    else if t == T_HASH_LISTPACK then HashOf(Listpack.DecodeSpec(blob))
    else if t == T_ZSET_LISTPACK then ZsetOf(env, Listpack.DecodeSpec(blob))
    else if t == T_LIST_ZIPLIST then ListOf(Ziplist.DecodeSpec(blob))
    else if t == T_HASH_ZIPLIST then HashOf(Ziplist.DecodeSpec(blob))
    else if t == T_ZSET_ZIPLIST then ZsetOf(env, Ziplist.DecodeSpec(blob))
    else if t == T_SET_INTSET then
      var ms :- Intset.DecodeSpec(blob);
      Success(Set(ms))
    else if t == T_STRING then Success(RdbValue.Str(blob))
    else Failure(UnknownType(t))  // HASH_ZIPMAP
  }

  predicate IsBlobType(t: Byte) {
    t in {T_STRING, T_SET_LISTPACK, T_HASH_LISTPACK, T_ZSET_LISTPACK, T_LIST_ZIPLIST, T_HASH_ZIPLIST,
          T_ZSET_ZIPLIST, T_SET_INTSET, T_HASH_ZIPMAP}
  }

  /** One quicklist node: a ziplist (v1), or a container tag and a plain or packed blob (v2). */
  function ReadNode(v2: bool, d: Bytes, p: nat): (r: Outcome<seq<Bytes>>)
    requires p <= |d|
    ensures p <= r.pos <= |d|
  {
    if !v2 then
      var (node, p1) :- ReadString(d, p);
      match Ziplist.DecodeSpec(node)
      case Failure(e) => Fail(e, p1)
      case Success(es) => Ok(IntoBytesAll(es), p1)
    else
      var (container, p1) :- ReadLengthValue(d, p);
      var (node, p2) :- ReadString(d, p1);
      if container == 1 then Ok([node], p2)
      else if container == 2 then
        match Listpack.DecodeSpec(node)
        case Failure(e) => Fail(e, p2)
        case Success(es) => Ok(IntoBytesAll(es), p2)
      else Fail(CorruptData, p2)
  }

  /** The elements of `n` nodes, after those in `acc`. */
  function ReadNodes(v2: bool, n: nat, acc: seq<Bytes>, d: Bytes, p: nat): (r: Outcome<seq<Bytes>>)
    requires p <= |d|
    ensures p <= r.pos <= |d|
    decreases n
  {
    if n == 0 then Ok(acc, p)
    else
      var (x, p1) :- ReadNode(v2, d, p);
      ReadNodes(v2, n - 1, acc + x, d, p1)
  }

  // ----- streams -----

  /** Decoded entries so far, and the first decode error if there was one. */
  datatype Packs = Packs(entries: seq<StreamPack.StreamEntry>, deferred: Option<RdbError>)

  function AddPack(acc: Packs, id: Bytes, lp: Bytes): Packs {
    if acc.deferred.Some? then acc
    else if |id| != 16 then acc.(deferred := Some(CorruptData))
    else
      var room := if |acc.entries| <= StreamPack.MAX_STREAM_ENTRIES
          then StreamPack.MAX_STREAM_ENTRIES - |acc.entries| else 0;
      match StreamPack.DecodeBlob(Be(id[..8]), Be(id[8..16]), lp, room)
      case Success(es) => acc.(entries := acc.entries + es)
      case Failure(e) => acc.(deferred := Some(e))
  }

  function ReadPacks(n: nat, acc: Packs, d: Bytes, p: nat): (r: Outcome<Packs>)
    requires p <= |d|
    ensures p <= r.pos <= |d|
    decreases n
  {
    if n == 0 then Ok(acc, p)
    else
      var (id, p1) :- ReadString(d, p);
      var (lp, p2) :- ReadString(d, p1);
      ReadPacks(n - 1, AddPack(acc, id, lp), d, p2)
  }

  /** Read `n` plain lengths and drop them. */
  function SkipLengths(n: nat, d: Bytes, p: nat): (r: Outcome<()>)
    requires p <= |d|
    ensures p <= r.pos <= |d|
    ensures r.Fail? ==> Terminal(r.error)
    decreases n
  {
    if n == 0 then Ok((), p)
    else
      var (_, p1) :- ReadLengthValue(d, p);
      SkipLengths(n - 1, d, p1)
  }

  function SkipPel(n: nat, d: Bytes, p: nat): (r: Outcome<()>)
    requires p <= |d|
    ensures p <= r.pos <= |d|
    decreases n
  {
    if n == 0 then Ok((), p)
    else
      var (_, p1) :- Take(d, p, 16);
      var (_, p2) :- ReadI64(d, p1);
      var (_, p3) :- ReadLengthValue(d, p2);
      SkipPel(n - 1, d, p3)
  }

  function SkipIds(n: nat, d: Bytes, p: nat): (r: Outcome<()>)
    requires p <= |d|
    ensures p <= r.pos <= |d|
    decreases n
  {
    if n == 0 then Ok((), p)
    else
      var (_, p1) :- Take(d, p, 16);
      SkipIds(n - 1, d, p1)
  }

  function SkipConsumers(t: Byte, n: nat, d: Bytes, p: nat): (r: Outcome<()>)
    requires p <= |d|
    ensures p <= r.pos <= |d|
    decreases n
  {
    if n == 0 then Ok((), p)
    else
      var (_, p1) :- ReadString(d, p);
      var (_, p2) :- ReadI64(d, p1);
      var (_, p3) :- if t >= T_STREAM_LISTPACKS_3 then ReadI64(d, p2) else Ok(0, p2);
      var (m, p4) :- ReadCount(d, p3);
      var (_, p5) :- SkipIds(m, d, p4);
      SkipConsumers(t, n - 1, d, p5)
  }

  function SkipGroup(t: Byte, d: Bytes, p: nat): (r: Outcome<()>)
    requires p <= |d|
    ensures p <= r.pos <= |d|
  {
    var (_, p1) :- ReadString(d, p);
    var (_, p2) :- SkipLengths(if t >= T_STREAM_LISTPACKS_2 then 3 else 2, d, p1);
    var (pel, p3) :- ReadCount(d, p2);
    var (_, p4) :- SkipPel(pel, d, p3);
    var (consumers, p5) :- ReadCount(d, p4);
    SkipConsumers(t, consumers, d, p5)
  }

  function SkipGroups(t: Byte, n: nat, d: Bytes, p: nat): (r: Outcome<()>)
    requires p <= |d|
    ensures p <= r.pos <= |d|
    decreases n
  {
    if n == 0 then Ok((), p)
    else
      var (_, p1) :- SkipGroup(t, d, p);
      SkipGroups(t, n - 1, d, p1)
  }

  function ReadStream(t: Byte, d: Bytes, p: nat): (r: Outcome<RdbValue>)
    requires p <= |d|
    ensures p <= r.pos <= |d|
  {
    var (n, p1) :- ReadCount(d, p);
    var (acc, p2) :- ReadPacks(n, Packs([], None), d, p1);
    var (length, p3) :- ReadLengthValue(d, p2);
    var (ms, p4) :- ReadLengthValue(d, p3);
    var (sq, p5) :- ReadLengthValue(d, p4);
    var (_, p6) :- SkipLengths(if t >= T_STREAM_LISTPACKS_2 then 5 else 0, d, p5);
    var (groups, p7) :- ReadCount(d, p6);
    var (_, p8) :- SkipGroups(t, groups, d, p7);
    if acc.deferred.Some? then Fail(acc.deferred.value, p8)
    else if length != |acc.entries| then Fail(CorruptData, p8)
    else Ok(Stream(acc.entries, length, StreamPack.StreamId(ms, sq)), p8)
  }

  // ----- modules -----

  /** `n` base-64 digits of a module identifier, most significant first. */
  function NameDigits(id: nat, n: nat): (s: seq<nat>)
    ensures |s| == n && forall i | 0 <= i < n :: s[i] < 64
  {
    if n == 0 then [] else NameDigits(id / 64, n - 1) + [id % 64]
  }

  /** The base-64 alphabet of module names: A-Z a-z 0-9 - _ */
  function NameChar(k: nat): Byte
    requires k < 64
  {
    if k < 26 then 65 + k else if k < 52 then 97 + (k - 26) else if k < 62 then 48 + (k - 52)
    else if k == 62 then 45 else 95
  }

  function ModuleName(id: nat): (s: Bytes)
    ensures |s| == 9
  {
    NameChars(NameDigits(id / 1024, 9))
  }

  function NameChars(ds: seq<nat>): (s: Bytes)
    requires forall i | 0 <= i < |ds| :: ds[i] < 64
    ensures |s| == |ds|
  {
    seq(|ds|, i requires 0 <= i < |ds| => NameChar(ds[i]))
  }

  function ReadModuleValue(env: Env, opcode: nat, d: Bytes, p: nat): (r: Outcome<ModuleValue>)
    requires p <= |d|
    ensures p <= r.pos <= |d|
    ensures r.Fail? ==> Terminal(r.error)
  {
    if opcode == 1 then
      var (raw, p1) :- ReadLengthValue(d, p);
      Ok(SignedInt(Signed(raw, U64)), p1)
    else if opcode == 2 then
      var (raw, p1) :- ReadLengthValue(d, p);
      Ok(UnsignedInt(raw), p1)
    else if opcode == 5 then
      var (s, p1) :- ReadString(d, p);
      Ok(Text(s), p1)
    else if opcode == 3 then
      var (s, p1) :- Take(d, p, 4);
      Ok(Float(env.floatOf(s)), p1)
    else if opcode == 4 then
      var (s, p1) :- Take(d, p, 8);
      Ok(Double(env.doubleOf(s)), p1)
    else Fail(CorruptData, p)
  }

  /** Whether the callback of `read_module_data` refuses one more value. */
  predicate OverCap(count: nat, stringBytes: nat, v: ModuleValue) {
    count >= MAX_MODULE_VALUES || (v.Text? && stringBytes + |v.s| > MAX_MODULE_STRING_BYTES)
  }

  /** The opcode stream of a module payload up to its end marker; `capped` when values are kept. */
  function ReadModule(env: Env, capped: bool, acc: seq<ModuleValue>, stringBytes: nat, d: Bytes, p: nat)
      : (r: Outcome<seq<ModuleValue>>)
    requires p <= |d|
    ensures p <= r.pos <= |d|
    ensures r.Fail? ==> Terminal(r.error)
    decreases |d| - p
  {
    var (opcode, p1) :- ReadLengthValue(d, p);
    if opcode == 0 then Ok(acc, p1)
    else
      var (v, p2) :- ReadModuleValue(env, opcode, d, p1);
      if capped && OverCap(|acc|, stringBytes, v) then Fail(CorruptData, p2)
      else ReadModule(env, capped, acc + [v], stringBytes + if v.Text? then |v.s| else 0, d, p2)
  }

  // ----- values -----

  function ReadValue(env: Env, t: Byte, d: Bytes, p: nat): (r: Outcome<RdbValue>)
    requires p <= |d|
    ensures p <= r.pos <= |d|
  {
    if IsBlobType(t) then
      var (blob, p1) :- ReadString(d, p);
      Lift(DecodeBlob(env, t, blob), p1)
    else if IsPlainType(t) then
      var (n, p1) :- ReadCount(d, p);
      ReadElements(env, t, n, d, p1)
    else if t == T_LIST_QUICKLIST || t == T_LIST_QUICKLIST_2 then
      var (n, p1) :- ReadCount(d, p);
      var (xs, p2) :- ReadNodes(t == T_LIST_QUICKLIST_2, n, [], d, p1);
      Ok(List(xs), p2)
    else if IsStreamType(t) then ReadStream(t, d, p)
    else if t == T_MODULE_2 then
      var (id, p1) :- ReadLengthValue(d, p);
      var (vs, p2) :- ReadModule(env, true, [], 0, d, p1);
      Ok(Module(ModuleName(id), id % 1024, vs), p2)
    else Fail(CorruptData, p)  // MODULE_PRE_GA and codes without a decoder
  }

  // ----- what splitting a read into pieces does -----

  /** Reading `a + b` elements is reading `a`, then `b`, and putting the pieces together; a failure
      in either piece is the failure of the whole, at the same byte. */
  lemma {:induction false} SplitElements(env: Env, t: Byte, a: nat, b: nat, d: Bytes, p: nat)
    requires p <= |d| && IsPlainType(t)
    ensures var whole := ReadElements(env, t, a + b, d, p);
            match ReadElements(env, t, a, d, p)
            case Fail(e, q) => whole == Fail(e, q)
            case Ok(x, p1) =>
              match ReadElements(env, t, b, d, p1)
              case Fail(e, q) => whole == Fail(e, q)
              case Ok(y, p2) => whole == Ok(Append(x, y), p2)
    decreases a
  {
    hide ReadElement, Append, SameKind, EmptyOf, RdbValue.Size;
    if a == 0 {
      var r := ReadElements(env, t, b, d, p);
      if r.Ok? { AppendEmpty(t, r.value); }
    } else {
      var x := ReadElement(env, t, d, p);
      if x.Ok? {
        SplitElements(env, t, a - 1, b, d, x.pos);
        var xs := ReadElements(env, t, a - 1, d, x.pos);
        if xs.Ok? {
          var ys := ReadElements(env, t, b, d, xs.pos);
          if ys.Ok? { AppendThree(t, x.value, xs.value, ys.value); }
        }
      }
    }
  }

  lemma AppendThree(t: Byte, a: RdbValue, b: RdbValue, c: RdbValue)
    requires SameKind(EmptyOf(t), a) && SameKind(EmptyOf(t), b) && SameKind(EmptyOf(t), c)
    ensures Append(Append(a, b), c) == Append(a, Append(b, c))
  {
    AppendAssociative(a, b, c);
  }

  lemma AppendEmpty(t: Byte, v: RdbValue)
    requires SameKind(EmptyOf(t), v)
    ensures Append(EmptyOf(t), v) == v && Append(v, EmptyOf(t)) == v
  {
    match v
    case List(x) => assert [] + x == x == x + [];
    case Set(x) => assert [] + x == x == x + [];
    case SortedSet(x) => assert [] + x == x == x + [];
    case Hash(x) => assert [] + x == x == x + [];
  }

  // ----- framing -----

  /** The byte extent of a stream value: lengths and strings only, nothing decoded. */
  function SkipPacks(n: nat, d: Bytes, p: nat): (r: Outcome<()>)
    requires p <= |d|
    ensures p <= r.pos <= |d|
    decreases n
  {
    if n == 0 then Ok((), p)
    else
      var (_, p1) :- ReadString(d, p);
      var (_, p2) :- ReadString(d, p1);
      SkipPacks(n - 1, d, p2)
  }

  function SkipStream(t: Byte, d: Bytes, p: nat): (r: Outcome<()>)
    requires p <= |d|
    ensures p <= r.pos <= |d|
  {
    var (n, p1) :- ReadCount(d, p);
    var (_, p2) :- SkipPacks(n, d, p1);
    var (_, p3) :- SkipLengths(if t >= T_STREAM_LISTPACKS_2 then 8 else 3, d, p2);
    var (groups, p4) :- ReadCount(d, p3);
    SkipGroups(t, groups, d, p4)
  }

  lemma {:induction false} PacksFraming(n: nat, acc: Packs, d: Bytes, p: nat)
    requires p <= |d|
    requires |acc.entries| <= StreamPack.MAX_STREAM_ENTRIES
    ensures match SkipPacks(n, d, p)
            case Ok(_, q) =>
              var r := ReadPacks(n, acc, d, p);
              r.Ok? && r.pos == q && |r.value.entries| <= StreamPack.MAX_STREAM_ENTRIES
            case Fail(e, q) => ReadPacks(n, acc, d, p) == Fail(e, q)
    decreases n
  {
    hide ReadString;
    if n > 0 {
      var a := ReadString(d, p);
      if a.Ok? {
        var b := ReadString(d, a.pos);
        if b.Ok? {
          AddPackWithin(acc, a.value, b.value);
          PacksFraming(n - 1, AddPack(acc, a.value, b.value), d, b.pos);
        }
      }
    }
  }

  lemma AddPackWithin(acc: Packs, id: Bytes, lp: Bytes)
    requires |acc.entries| <= StreamPack.MAX_STREAM_ENTRIES
    ensures |AddPack(acc, id, lp).entries| <= StreamPack.MAX_STREAM_ENTRIES
  {
    var room := StreamPack.MAX_STREAM_ENTRIES - |acc.entries|;
    if acc.deferred.None? && |id| == 16 {
      var r := StreamPack.DecodeBlob(Be(id[..8]), Be(id[8..16]), lp, room);
      if r.Success? { StreamPack.BudgetKept(Be(id[..8]), Be(id[8..16]), lp, room); }
    }
  }

  /** `read_stream` ends at the byte where framing says the value ends, whether it succeeds, meets
      a decode error, or finds the wrong length; it fails early only where framing itself fails.
      On success the length is the number of entries, within the cap. */
  lemma StreamAligned(t: Byte, d: Bytes, p: nat)
    requires p <= |d|
    ensures match SkipStream(t, d, p)
            case Ok(_, q) => ReadStream(t, d, p).pos == q
            case Fail(e, q) => ReadStream(t, d, p) == Fail(e, q)
    ensures match ReadStream(t, d, p)
            case Ok(v, _) => v.Stream? && v.length == |v.entries| <= StreamPack.MAX_STREAM_ENTRIES
            case Fail(_, _) => true
  {
    hide ReadLengthValue, ReadCount, ReadPacks, SkipPacks, SkipGroups;
    var n := ReadCount(d, p);
    if n.Ok? {
      PacksFraming(n.value, Packs([], None), d, n.pos);
      var acc := ReadPacks(n.value, Packs([], None), d, n.pos);
      if acc.Ok? {
        ThreeThen(if t >= T_STREAM_LISTPACKS_2 then 5 else 0, d, acc.pos);
      }
    }
  }

  lemma ThreeThen(k: nat, d: Bytes, p: nat)
    requires p <= |d|
    ensures SkipLengths(k + 3, d, p) ==
            (var (_, p1) :- ReadLengthValue(d, p);
             var (_, p2) :- ReadLengthValue(d, p1);
             var (_, p3) :- ReadLengthValue(d, p2);
             SkipLengths(k, d, p3))
  {
    hide ReadLengthValue;
    assert forall q: nat | q <= |d| ::
        SkipLengths(k + 1, d, q) == (var (_, q1) :- ReadLengthValue(d, q); SkipLengths(k, d, q1));
    assert forall q: nat | q <= |d| ::
        SkipLengths(k + 2, d, q) == (var (_, q1) :- ReadLengthValue(d, q); SkipLengths(k + 1, d, q1));
  }
}
