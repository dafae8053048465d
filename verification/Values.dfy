/**
 Values as a writer means them: every type of value with the encoding chosen for each of its parts,
 how it is printed, and what it stands for. Nothing here says how a value is read; that the reader
 gets back exactly what was meant is proved, one type after another.
 */
module Values {
  import opened Common
  import opened Types
  import opened Printing
  import opened ValueFormat
  import C = Compact
  import Encodings
  import Intset
  import Listpack
  import StreamPack
  import W = Wire
  import Ziplist

  // ----- elements of plain collections -----

  /** One element: a list or set member; a member with its score as text, as one of the three special
      marks or as eight bytes; a field and its value, alone or with an expiry. */
  datatype Elem =
    | Member(e: StrEnc)
    | Scored(m: StrEnc, text: Bytes)
    | Marked(m: StrEnc, mark: Byte)
    | Binary(m: StrEnc, score: Bytes)
    | Pair(f: StrEnc, v: StrEnc)
    | Expiring(f: StrEnc, v: StrEnc, ttl: int)
  {
    ghost predicate Fits(env: Env, t: Byte) {
      match this
      case Member(e) => (t == T_LIST || t == T_SET) && StrFits(e)
      case Scored(m, text) => t == T_ZSET && StrFits(m) && |text| <= 252 && env.parseDouble(text).Some?
      case Marked(m, mark) => t == T_ZSET && StrFits(m) && mark >= 253
      case Binary(m, score) => t == T_ZSET_2 && StrFits(m) && |score| == 8
      case Pair(f, v) => t == T_HASH && StrFits(f) && StrFits(v)
      case Expiring(f, v, ttl) => t == T_HASH_2 && StrFits(f) && StrFits(v) && C.FitsInt(ttl, 8)
    }

    ghost function Print(env: Env, t: Byte): Bytes
      requires Fits(env, t)
    {
      match this
      case Member(e) => PrintStr(e)
      case Scored(m, text) => PrintStr(m) + ([|text|] + text)
      case Marked(m, mark) => PrintStr(m) + [mark]
      case Binary(m, score) => PrintStr(m) + score
      case Pair(f, v) => PrintStr(f) + PrintStr(v)
      case Expiring(f, v, ttl) => PrintStr(f) + (PrintStr(v) + C.WriteInt(ttl, 8))
    }

    /** A collection of this element alone. */
    ghost function Alone(env: Env, t: Byte): RdbValue
      requires Fits(env, t)
    {
      match this
      case Member(e) => if t == T_LIST then List([Meaning(e)]) else Set([Meaning(e)])
      case Scored(m, text) => SortedSet([(Meaning(m), env.parseDouble(text).value)])
      case Marked(m, mark) =>
        SortedSet([(Meaning(m), if mark == 253 then NaN else if mark == 254 then PosInf else NegInf)])
      case Binary(m, score) => SortedSet([(Meaning(m), env.doubleOf(score))])
      case Pair(f, v) => Hash([HashField(Meaning(f), Meaning(v), None)])
      case Expiring(f, v, ttl) => Hash([HashField(Meaning(f), Meaning(v), if ttl == -1 then None else Some(ttl))])
    }
  }

  ghost predicate AllFit(env: Env, t: Byte, xs: seq<Elem>) { forall x | x in xs :: x.Fits(env, t) }

  ghost function PrintElems(env: Env, t: Byte, xs: seq<Elem>): (bs: seq<Bytes>)
    requires AllFit(env, t, xs)
    ensures |bs| == |xs|
  {
    if xs == [] then [] else [xs[0].Print(env, t)] + PrintElems(env, t, xs[1..])
  }

  function NoElements(t: Byte): RdbValue {
    if t == T_LIST then List([]) else if t == T_SET then Set([])
    else if t == T_ZSET || t == T_ZSET_2 then SortedSet([]) else Hash([])
  }

  /** The elements in order. */
  ghost function Collection(env: Env, t: Byte, xs: seq<Elem>): RdbValue
    requires AllFit(env, t, xs)
  {
    if xs == [] then NoElements(t) else Append(xs[0].Alone(env, t), Collection(env, t, xs[1..]))
  }

  lemma ElementReads(env: Env, t: Byte, x: Elem)
    requires IsPlainType(t) && x.Fits(env, t)
    ensures ElementAlone(env, t, x.Print(env, t))
    ensures W.ReadElement(env, t, x.Print(env, t), 0).value == x.Alone(env, t)
  {
    hide W.ReadElement, ElementAlone, PrintStr, StrFits, Meaning, C.FitsInt, C.WriteInt;
    match x
    case Member(e) => Encodings.StringElement(env, t, e);
    case Scored(m, text) => Encodings.TextScoreElement(env, m, text, env.parseDouble(text).value);
    case Marked(m, mark) => Encodings.SpecialScoreElement(env, m, mark);
    case Binary(m, score) => Encodings.BinaryScoreElement(env, m, score);
    case Pair(f, v) => Encodings.HashElement(env, f, v);
    case Expiring(f, v, ttl) => Encodings.ExpiringHashElement(env, f, v, ttl);
  }

  lemma {:induction false} ElementsRead(env: Env, t: Byte, xs: seq<Elem>)
    requires IsPlainType(t) && AllFit(env, t, xs)
    ensures forall b | b in PrintElems(env, t, xs) :: ElementAlone(env, t, b)
    ensures Collect(env, t, PrintElems(env, t, xs)) == Collection(env, t, xs)
    decreases |xs|
  {
    hide W.ReadElement, ElementAlone, Elem.Fits, Elem.Print, Elem.Alone;
    if xs != [] {
      assert xs[0].Fits(env, t);
      ElementReads(env, t, xs[0]);
      ElementsRead(env, t, xs[1..]);
      var bs := PrintElems(env, t, xs);
      assert bs[0] == xs[0].Print(env, t) && bs[1..] == PrintElems(env, t, xs[1..]);
      assert forall b | b in bs :: b == bs[0] || b in bs[1..];
    }
  }

  // ----- entries of compact collections -----

  /** A score kept as an integer or as text. */
  function ScoreOf(env: Env, e: C.CompactEntry): Option<F64> {
    match e
    case Int(n) => Some(env.intToDouble(n))
    case Str(s) => env.parseDouble(s)
  }

  predicate IsHash(t: Byte) { t == T_HASH_LISTPACK || t == T_HASH_ZIPLIST }
  predicate IsZset(t: Byte) { t == T_ZSET_LISTPACK || t == T_ZSET_ZIPLIST }

  /** Hashes and sorted sets hold pairs, and every score is a number. */
  predicate EntriesFit(env: Env, t: Byte, es: seq<C.CompactEntry>) {
    && (IsHash(t) || IsZset(t) ==> |es| % 2 == 0)
    && (IsZset(t) ==> forall i :: 0 <= i < |es| / 2 ==> ScoreOf(env, es[2 * i + 1]).Some?)
  }

  function FieldsOf(es: seq<C.CompactEntry>): seq<HashField> {
    seq(|es| / 2, i requires 0 <= i < |es| / 2 => HashField(es[2 * i].IntoBytes(), es[2 * i + 1].IntoBytes(), None))
  }

  function ScoresOf(env: Env, es: seq<C.CompactEntry>): seq<(Bytes, F64)>
    requires forall i :: 0 <= i < |es| / 2 ==> ScoreOf(env, es[2 * i + 1]).Some?
  {
    seq(|es| / 2, i requires 0 <= i < |es| / 2 => (es[2 * i].IntoBytes(), ScoreOf(env, es[2 * i + 1]).value))
  }

  function CompactOf(env: Env, t: Byte, es: seq<C.CompactEntry>): RdbValue
    requires EntriesFit(env, t, es)
  {
    if IsHash(t) then Hash(FieldsOf(es))
    else if IsZset(t) then SortedSet(ScoresOf(env, es))
    else if t == T_SET_LISTPACK then Set(C.IntoBytesAll(es))
    else List(C.IntoBytesAll(es))
  }

  predicate IsListpackType(t: Byte) { t == T_SET_LISTPACK || t == T_HASH_LISTPACK || t == T_ZSET_LISTPACK }
  predicate IsZiplistType(t: Byte) { t == T_LIST_ZIPLIST || t == T_HASH_ZIPLIST || t == T_ZSET_ZIPLIST }

  lemma {:induction false} FieldsRead(es: seq<C.CompactEntry>)
    requires |es| % 2 == 0
    ensures W.HashPairs(es) == Success(FieldsOf(es))
  {
    hide W.HashPairs, C.CompactEntry.IntoBytes;
    forall i | 0 <= i < |es| / 2
      ensures W.HashPairs(es).value[i] == FieldsOf(es)[i]
    {
      Encodings.HashPairsAt(es, i);
    }
    assert W.HashPairs(es).value == FieldsOf(es);
  }

  lemma {:induction false} ScoresRead(env: Env, es: seq<C.CompactEntry>)
    requires |es| % 2 == 0 && forall i :: 0 <= i < |es| / 2 ==> ScoreOf(env, es[2 * i + 1]).Some?
    ensures W.ZsetPairs(env, es) == Success(ScoresOf(env, es))
  {
    hide W.ZsetPairs, C.CompactEntry.IntoBytes;
    SameScores(env);
    hide ScoreOf, W.ToDouble;
    Encodings.ZsetPairsAre(env, es);
    assert W.ZsetPairs(env, es).value == ScoresOf(env, es);
  }

  lemma SameScores(env: Env)
    ensures forall e :: W.ToDouble(env, e) == ScoreOf(env, e)
  {}

  lemma {:induction false} ListpackReads(env: Env, t: Byte, blob: Bytes, items: seq<Listpack.Item>)
    requires IsListpackType(t) && Listpack.Holds(blob, items) && EntriesFit(env, t, Listpack.Entries(items))
    ensures W.DecodeBlob(env, t, blob) == Success(CompactOf(env, t, Listpack.Entries(items)))
  {
    hide Listpack.Holds, Listpack.DecodeSpec, W.HashPairs, W.ZsetPairs, FieldsOf, ScoresOf, ScoreOf, C.IntoBytesAll;
    var es := Listpack.Entries(items);
    Listpack.AcceptsExactlyLayouts(blob, es);
    if IsHash(t) { FieldsRead(es); }
    if IsZset(t) { ScoresRead(env, es); }
  }

  lemma {:induction false} ZiplistReads(env: Env, t: Byte, blob: Bytes, items: seq<Ziplist.Item>)
    requires IsZiplistType(t) && Ziplist.Holds(blob, items) && EntriesFit(env, t, Ziplist.Entries(items))
    ensures W.DecodeBlob(env, t, blob) == Success(CompactOf(env, t, Ziplist.Entries(items)))
  {
    hide Ziplist.Holds, Ziplist.DecodeSpec, W.HashPairs, W.ZsetPairs, FieldsOf, ScoresOf, ScoreOf, C.IntoBytesAll;
    var es := Ziplist.Entries(items);
    Ziplist.AcceptsExactlyLayouts(blob, es);
    if IsHash(t) { FieldsRead(es); }
    if IsZset(t) { ScoresRead(env, es); }
  }

  lemma {:induction false} IntsetReads(env: Env, blob: Bytes, w: nat, xs: seq<int>)
    requires Intset.Holds(blob, w, xs)
    ensures W.DecodeBlob(env, T_SET_INTSET, blob) == Success(Set(Intset.DecimalAll(xs)))
  {
    hide Intset.Holds, Intset.DecodeSpec, Intset.DecimalAll;
    Intset.AcceptsExactlyLayouts(blob, Intset.DecimalAll(xs));
  }

  // ----- list nodes -----

  /** One quicklist node: a ziplist in the first version; in the second, after a tag, one plain element
      or a listpack. */
  datatype ListNode =
    | Zip(e: StrEnc, zipped: seq<Ziplist.Item>)
    | Single(tag: LenForm, e: StrEnc)
    | Pack(tag: LenForm, e: StrEnc, packed: seq<Listpack.Item>)
  {
    ghost predicate Fits(v2: bool) {
      && StrFits(e)
      && match this
         case Zip(_, zipped) => !v2 && Ziplist.Holds(Meaning(e), zipped)
         case Single(_, _) => v2
         case Pack(_, _, packed) => v2 && Listpack.Holds(Meaning(e), packed)
    }

    function Tag(): (x: Num)
      requires !Zip?
      ensures x.Valid()
    {
      Num(if Single? then 1 else 2, tag)
    }

    ghost function Print(v2: bool): Bytes
      requires Fits(v2)
    {
      if Zip? then PrintStr(e) else Tag().Print() + PrintStr(e)
    }

    ghost function Elements(v2: bool): seq<Bytes>
      requires Fits(v2)
    {
      match this
      case Zip(_, zipped) => C.IntoBytesAll(Ziplist.Entries(zipped))
      case Single(_, e) => [Meaning(e)]
      case Pack(_, _, packed) => C.IntoBytesAll(Listpack.Entries(packed))
    }
  }

  ghost function PrintListNodes(v2: bool, ns: seq<ListNode>): (bs: seq<Bytes>)
    requires forall n | n in ns :: n.Fits(v2)
    ensures |bs| == |ns|
  {
    if ns == [] then [] else [ns[0].Print(v2)] + PrintListNodes(v2, ns[1..])
  }

  ghost function AllElements(v2: bool, ns: seq<ListNode>): seq<Bytes>
    requires forall n | n in ns :: n.Fits(v2)
  {
    if ns == [] then [] else ns[0].Elements(v2) + AllElements(v2, ns[1..])
  }

  lemma ListNodeReads(v2: bool, n: ListNode)
    requires n.Fits(v2)
    ensures NodeAlone(v2, n.Print(v2)) && W.ReadNode(v2, n.Print(v2), 0).value == n.Elements(v2)
  {
    hide W.ReadString, W.ReadLengthValue, PrintLen, PrintStr, StrFits, Meaning, C.IntoBytesAll;
    hide Ziplist.Holds, Ziplist.DecodeSpec, Listpack.Holds, Listpack.DecodeSpec;
    match n
    case Zip(e, zipped) =>
      StrRoundTrip(e);
      Ziplist.AcceptsExactlyLayouts(Meaning(e), Ziplist.Entries(zipped));
    case Single(tag, e) =>
      Encodings.TaggedNode(1, tag, e);
    case Pack(tag, e, packed) =>
      Encodings.TaggedNode(2, tag, e);
      Listpack.AcceptsExactlyLayouts(Meaning(e), Listpack.Entries(packed));
  }

  lemma {:induction false} ListNodesRead(v2: bool, ns: seq<ListNode>)
    requires forall n | n in ns :: n.Fits(v2)
    ensures forall b | b in PrintListNodes(v2, ns) :: NodeAlone(v2, b)
    ensures NodeElements(v2, PrintListNodes(v2, ns)) == AllElements(v2, ns)
    decreases |ns|
  {
    hide NodeAlone, W.ReadNode, ListNode.Fits, ListNode.Print, ListNode.Elements;
    if ns != [] {
      assert ns[0].Fits(v2);
      ListNodeReads(v2, ns[0]);
      ListNodesRead(v2, ns[1..]);
      var bs := PrintListNodes(v2, ns);
      assert bs[0] == ns[0].Print(v2) && bs[1..] == PrintListNodes(v2, ns[1..]);
      assert forall b | b in bs :: b == bs[0] || b in bs[1..];
    }
  }

  // ----- module identifiers -----

  /** Letters, digits, minus and underscore. */
  predicate IsNameChar(c: Byte) { 65 <= c <= 90 || 97 <= c <= 122 || 48 <= c <= 57 || c == 45 || c == 95 }

  /** The six-bit code of a character of a module name. */
  function CodeOf(c: Byte): (k: nat)
    requires IsNameChar(c)
    ensures k < 64
  {
    if 65 <= c <= 90 then c - 65 else if 97 <= c <= 122 then c - 71 else if 48 <= c <= 57 then c + 4
    else if c == 45 then 62 else 63
  }

  predicate IsName(name: Bytes) { |name| == 9 && forall i | 0 <= i < |name| :: IsNameChar(name[i]) }

  function Codes(name: Bytes): (ks: seq<nat>)
    requires forall i | 0 <= i < |name| :: IsNameChar(name[i])
    ensures |ks| == |name| && forall i | 0 <= i < |ks| :: ks[i] < 64
  {
    seq(|name|, i requires 0 <= i < |name| => CodeOf(name[i]))
  }

  /** Nine six-bit codes and ten bits of version. */
  function ModuleId(name: Bytes, version: nat): nat
    requires IsName(name) && version < 1024
  {
    PackDigits(Codes(name)) * 1024 + version
  }

  lemma CodeReads(c: Byte)
    requires IsNameChar(c)
    ensures W.NameChar(CodeOf(c)) == c
  {}

  lemma ModuleIdReads(name: Bytes, version: nat)
    requires IsName(name) && version < 1024
    ensures W.ModuleName(ModuleId(name, version)) == name && ModuleId(name, version) % 1024 == version
  {
    hide W.ModuleName, W.NameChar, CodeOf, IsNameChar, PackDigits;
    var ks := Codes(name);
    ModuleIdRoundTrip(ks, version);
    forall i | 0 <= i < 9
      ensures W.NameChars(ks)[i] == name[i]
    {
      assert IsNameChar(name[i]);
      CodeReads(name[i]);
    }
    assert W.NameChars(ks) == name;
  }

  // ----- values -----

  /** A value of any type the reader decodes, with the writer's choices. */
  datatype Val =
    | Text(e: StrEnc)
    | Plain(t: Byte, f: LenForm, xs: seq<Elem>)
    | Ints(e: StrEnc, w: nat, members: seq<int>)
    | Packed(t: Byte, e: StrEnc, packed: seq<Listpack.Item>)
    | Zipped(t: Byte, e: StrEnc, zipped: seq<Ziplist.Item>)
    | Quicklist(v2: bool, f: LenForm, nodes: seq<ListNode>)
    | Entries(t: Byte, parts: StreamParts)
    | Payload(name: Bytes, version: nat, f: LenForm, pieces: seq<Piece>, end: LenForm)
  {
    ghost predicate Fits(env: Env) {
      match this
      case Text(e) => StrFits(e)
      case Plain(t, f, xs) =>
        (1 <= t <= 5 || t == 22) && |xs| <= 536_870_912 && LenFits(|xs|, f) && AllFit(env, t, xs)
      case Ints(e, w, members) => StrFits(e) && Intset.Holds(Meaning(e), w, members)
      case Packed(t, e, packed) =>
        && IsListpackType(t) && StrFits(e) && Listpack.Holds(Meaning(e), packed)
        && EntriesFit(env, t, Listpack.Entries(packed))
      case Zipped(t, e, zipped) =>
        && IsZiplistType(t) && StrFits(e) && Ziplist.Holds(Meaning(e), zipped)
        && EntriesFit(env, t, Ziplist.Entries(zipped))
      case Quicklist(v2, f, nodes) =>
        |nodes| <= 536_870_912 && LenFits(|nodes|, f) && forall n | n in nodes :: n.Fits(v2)
      case Entries(t, parts) =>
        && (t == 15 || t == 19 || t == 21) && parts.Valid(t)
        && parts.length.n == |AllEntries(parts.nodes)| <= 5_000_000
      case Payload(name, version, f, pieces, end) =>
        && IsName(name) && version < 1024 && LenFits(ModuleId(name, version), f)
        && (forall x | x in pieces :: x.Valid())
        && |pieces| <= 5_000_000 && TextBytes(ValueFormat.Values(env, pieces)) <= 268_435_456
    }

    function Type(): Byte {
      match this
      case Text(_) => T_STRING
      case Plain(t, _, _) => t
      case Ints(_, _, _) => T_SET_INTSET
      case Packed(t, _, _) => t
      case Zipped(t, _, _) => t
      case Quicklist(v2, _, _) => if v2 then T_LIST_QUICKLIST_2 else T_LIST_QUICKLIST
      case Entries(t, _) => t
      case Payload(_, _, _, _, _) => T_MODULE_2
    }

    ghost function Print(env: Env): Bytes
      requires Fits(env)
    {
      match this
      case Text(e) => PrintStr(e)
      case Plain(t, f, xs) => PrintLen(|xs|, f) + Concat(PrintElems(env, t, xs))
      case Ints(e, _, _) => PrintStr(e)
      case Packed(_, e, _) => PrintStr(e)
      case Zipped(_, e, _) => PrintStr(e)
      case Quicklist(v2, f, nodes) => PrintLen(|nodes|, f) + Concat(PrintListNodes(v2, nodes))
      case Entries(t, parts) => parts.Print(t)
      case Payload(name, version, f, pieces, end) =>
        Num(ModuleId(name, version), f).Print() + (PrintPieces(pieces) + EndMark(end).Print())
    }

    /** What the value stands for. */
    ghost function Value(env: Env): RdbValue
      requires Fits(env)
    {
      match this
      case Text(e) => RdbValue.Str(Meaning(e))
      case Plain(t, _, xs) => Collection(env, t, xs)
      case Ints(_, _, members) => Set(Intset.DecimalAll(members))
      case Packed(t, _, packed) => CompactOf(env, t, Listpack.Entries(packed))
      case Zipped(t, _, zipped) => CompactOf(env, t, Ziplist.Entries(zipped))
      case Quicklist(v2, _, nodes) => List(AllElements(v2, nodes))
      case Entries(_, parts) =>
        Stream(AllEntries(parts.nodes), parts.length.n, StreamPack.StreamId(parts.lastMs.n, parts.lastSeq.n))
      case Payload(name, version, _, pieces, _) => Module(name, version, ValueFormat.Values(env, pieces))
    }
  }

  predicate IsBlob(v: Val) { v.Text? || v.Ints? || v.Packed? || v.Zipped? }

  lemma BlobDecodes(env: Env, v: Val)
    requires v.Fits(env) && IsBlob(v)
    ensures StrFits(v.e) && v.Print(env) == PrintStr(v.e) && W.IsBlobType(v.Type())
    ensures W.DecodeBlob(env, v.Type(), Meaning(v.e)) == Success(v.Value(env))
  {
    hide StrFits, PrintStr, Meaning, Intset.Holds, Listpack.Holds, Ziplist.Holds, CompactOf, EntriesFit;
    match v
    case Text(_) =>
    case Ints(e, w, members) => IntsetReads(env, Meaning(e), w, members);
    case Packed(t, e, packed) => ListpackReads(env, t, Meaning(e), packed);
    case Zipped(t, e, zipped) => ZiplistReads(env, t, Meaning(e), zipped);
  }

  lemma PlainReads(env: Env, v: Val)
    requires v.Plain? && v.Fits(env)
    ensures ValueAlone(env, v.Type(), v.Print(env)) && ValueOf(env, v.Type(), v.Print(env)) == v.Value(env)
  {
    hide ValueAlone, ValueOf, PrintLen, LenFits, ElementAlone, Collect, Collection, Concat, AllFit;
    ElementsRead(env, v.t, v.xs);
    PlainRoundTrip(env, v.t, v.f, PrintElems(env, v.t, v.xs));
  }

  lemma QuicklistReads(env: Env, v: Val)
    requires v.Quicklist? && v.Fits(env)
    ensures ValueAlone(env, v.Type(), v.Print(env)) && ValueOf(env, v.Type(), v.Print(env)) == v.Value(env)
  {
    hide ValueAlone, ValueOf, PrintLen, LenFits, NodeAlone, NodeElements, AllElements, Concat, ListNode.Fits;
    ListNodesRead(v.v2, v.nodes);
    QuicklistRoundTrip(env, v.v2, v.f, PrintListNodes(v.v2, v.nodes));
  }

  lemma PayloadReads(env: Env, v: Val)
    requires v.Payload? && v.Fits(env)
    ensures ValueAlone(env, v.Type(), v.Print(env)) && ValueOf(env, v.Type(), v.Print(env)) == v.Value(env)
  {
    hide ValueAlone, ValueOf, LenFits, W.ModuleName, ModuleId, IsName, Num.Print, EndMark, PrintPieces;
    hide ValueFormat.Values;
    hide TextBytes, Piece.Valid;
    ModuleIdReads(v.name, v.version);
    ModuleValueReads(env, Num(ModuleId(v.name, v.version), v.f), v.pieces, v.end);
  }

  /** Every value of every type, under every choice of encodings, reads back as what it stands for. */
  lemma ValueReads(env: Env, v: Val)
    requires v.Fits(env)
    ensures IsObjectType(v.Type()) && v.Type() != T_HASH_ZIPMAP
    ensures ValueAlone(env, v.Type(), v.Print(env)) && ValueOf(env, v.Type(), v.Print(env)) == v.Value(env)
  {
    hide ValueAlone, ValueOf, W.DecodeBlob, StrFits, PrintStr, Meaning;
    KnownType(env, v);
    if IsBlob(v) {
      BlobDecodes(env, v);
      BlobRoundTrip(env, v.Type(), v.e);
    } else if v.Plain? {
      PlainReads(env, v);
    } else if v.Quicklist? {
      QuicklistReads(env, v);
    } else if v.Entries? {
      StreamValue(env, v.t, v.parts);
    } else {
      PayloadReads(env, v);
    }
  }

  lemma KnownType(env: Env, v: Val)
    requires v.Fits(env)
    ensures IsObjectType(v.Type()) && v.Type() != T_HASH_ZIPMAP
  {
    hide StrFits, LenFits, AllFit, Intset.Holds, Listpack.Holds, Ziplist.Holds, EntriesFit, ListNode.Fits;
    hide StreamParts.Valid, TextBytes, IsName, Piece.Valid;
  }
}
