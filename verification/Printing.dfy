/**
 The writer's side of the primitive encodings: every way to print a length or a string, and the
 proof that each reads back alone as what was printed.
 */
module Printing {
  import opened Common
  import opened Types
  import opened Wire
  import opened Locality
  import Compact
  import Lzf

  // ----- pieces that parse alone -----

  /** `b` is, byte for byte, one plain length. */
  predicate LenAlone(b: Bytes) { ReadLengthValue(b, 0).Ok? && ReadLengthValue(b, 0).pos == |b| }
  function LenOf(b: Bytes): nat requires LenAlone(b) { ReadLengthValue(b, 0).value }

  predicate StrAlone(b: Bytes) { ReadString(b, 0).Ok? && ReadString(b, 0).pos == |b| }
  function StrOf(b: Bytes): Bytes requires StrAlone(b) { ReadString(b, 0).value }

  predicate ValueAlone(env: Env, t: Byte, b: Bytes) {
    ReadValue(env, t, b, 0).Ok? && ReadValue(env, t, b, 0).pos == |b|
  }
  function ValueOf(env: Env, t: Byte, b: Bytes): RdbValue
    requires ValueAlone(env, t, b)
  {
    ReadValue(env, t, b, 0).value
  }

  lemma LenAt(d: Bytes, p: nat, b: Bytes)
    requires LenAlone(b) && At(d, p, b)
    ensures ReadLengthValue(d, p) == Ok(LenOf(b), p + |b|)
  {
    hide ReadLengthValue;
    SameAt(d, p, b);
    LenValueL(b, 0, d, p);
  }

  lemma StrAt(d: Bytes, p: nat, b: Bytes)
    requires StrAlone(b) && At(d, p, b)
    ensures ReadString(d, p) == Ok(StrOf(b), p + |b|)
  {
    hide ReadString;
    SameAt(d, p, b);
    StringL(b, 0, d, p);
  }

  lemma ValueAt(env: Env, t: Byte, d: Bytes, p: nat, b: Bytes)
    requires ValueAlone(env, t, b) && At(d, p, b)
    ensures ReadValue(env, t, d, p) == Ok(ValueOf(env, t, b), p + |b|)
  {
    hide ReadValue;
    SameAt(d, p, b);
    ValueL(env, t, b, 0, d, p);
  }

  // ----- lengths -----

  datatype LenForm = Bits6 | Bits14 | Bits32 | Bits64

  predicate LenFits(n: nat, f: LenForm) {
    match f
    case Bits6 => n < 64
    case Bits14 => n < 0x4000
    case Bits32 => n < U32
    case Bits64 => n < U64
  }

  function PrintLen(n: nat, f: LenForm): (b: Bytes)
    requires LenFits(n, f)
    ensures |b| >= 1
  {
    match f
    case Bits6 => [n]
    case Bits14 => [64 + n / 256, n % 256]
    case Bits32 => [0x80] + ToBe(n, 4)
    case Bits64 => [0x81] + ToBe(n, 8)
  }

  /** Every length encoding reads back as the length it prints. */
  lemma LenRoundTrip(n: nat, f: LenForm)
    requires LenFits(n, f)
    ensures LenAlone(PrintLen(n, f)) && LenOf(PrintLen(n, f)) == n
  {
    var b := PrintLen(n, f);
    PowValues();
    match f
    case Bits6 =>
    case Bits14 => assert b[0] / 64 == 1 && b[1] == n % 256;
    case Bits32 =>
      BeOfToBe(n, 4);
      assert b[1..5] == ToBe(n, 4);
    case Bits64 =>
      BeOfToBe(n, 8);
      assert b[1..9] == ToBe(n, 8);
  }

  /** A count, and the length of a string, may be 512 MiB and no more: one above is refused where it stands. */
  lemma CountCapped(n: nat, f: LenForm)
    requires LenFits(n, f)
    ensures var b := PrintLen(n, f);
            && ReadCount(b, 0) == (if n <= 536_870_912 then Ok(n, |b|) else Fail(CorruptData, |b|))
            && (n > 536_870_912 ==> ReadString(b, 0) == Fail(CorruptData, |b|))
  {
    hide ReadLength;
    LenRoundTrip(n, f);
  }

  // ----- strings -----

  /** Plain bytes; a small integer kept as an integer; or LZF tokens. */
  datatype StrEnc =
    | Plain(s: Bytes, f: LenForm)
    | IntText(i: int, w: nat)
    | Packed(tokens: seq<Lzf.Token>, cf: LenForm, uf: LenForm)

  ghost predicate StrFits(e: StrEnc) {
    match e
    case Plain(s, f) => |s| <= MAX_ALLOC_BYTES && LenFits(|s|, f)
    case IntText(i, w) => w in {1, 2, 4} && Compact.FitsInt(i, w)
    case Packed(ts, cf, uf) =>
      && (forall t | t in ts :: Lzf.Encodable(t)) && Lzf.Expand([], ts).Some?
      && |Lzf.EncodeAll(ts)| <= MAX_ALLOC_BYTES && LenFits(|Lzf.EncodeAll(ts)|, cf)
      && |Lzf.Expand([], ts).value| <= MAX_ALLOC_BYTES && LenFits(|Lzf.Expand([], ts).value|, uf)
  }

  ghost function Meaning(e: StrEnc): Bytes
    requires StrFits(e)
  {
    match e
    case Plain(s, _) => s
    case IntText(i, _) => Decimal(i)
    case Packed(ts, _, _) => Lzf.Expand([], ts).value
  }

  ghost function PrintStr(e: StrEnc): Bytes
    requires StrFits(e)
  {
    match e
    case Plain(s, f) => PrintLen(|s|, f) + s
    case IntText(i, w) => [if w == 1 then 0xC0 else if w == 2 then 0xC1 else 0xC2] + Compact.WriteInt(i, w)
    case Packed(ts, cf, uf) =>
      [0xC3] + (PrintLen(|Lzf.EncodeAll(ts)|, cf) + (PrintLen(|Meaning(e)|, uf) + Lzf.EncodeAll(ts)))
  }

  lemma AtInside(d: Bytes, p: nat, b: Bytes)
    requires At(d, p, b)
    ensures p + |b| <= |d|
  {}

  lemma ReadLengthOf(d: Bytes, p: nat, n: nat, f: LenForm)
    requires LenFits(n, f) && At(d, p, PrintLen(n, f))
    ensures ReadLength(d, p) == Ok(Len(n), p + |PrintLen(n, f)|) && ReadLengthValue(d, p) == Ok(n, p + |PrintLen(n, f)|)
  {
    LenRoundTrip(n, f);
    LenAt(d, p, PrintLen(n, f));
    hide PrintLen;
  }

  lemma CountAt(d: Bytes, p: nat, n: nat, f: LenForm)
    requires n <= MAX_ALLOC_BYTES && LenFits(n, f) && At(d, p, PrintLen(n, f))
    ensures ReadCount(d, p) == Ok(n, p + |PrintLen(n, f)|)
  {
    hide PrintLen, ReadLengthValue, ReadLength;
    ReadLengthOf(d, p, n, f);
  }

  lemma LzfReads(c: Bytes, o: Bytes, cf: LenForm, uf: LenForm)
    requires |c| <= MAX_ALLOC_BYTES && LenFits(|c|, cf) && |o| <= MAX_ALLOC_BYTES && LenFits(|o|, uf)
    requires Lzf.Expected(c, |o|) == Success(o)
    ensures var b := [0xC3] + (PrintLen(|c|, cf) + (PrintLen(|o|, uf) + c));
            ReadString(b, 0) == Ok(o, |b|)
  {
    hide PrintLen, Lzf.Expected, ReadCount, LenFits;
    var lc, lo := PrintLen(|c|, cf), PrintLen(|o|, uf);
    var b := [0xC3] + (lc + (lo + c));
    assert At(b, 0, b);
    AtSplit(b, 0, [0xC3], lc + (lo + c));
    AtSplit(b, 1, lc, lo + c);
    AtSplit(b, 1 + |lc|, lo, c);
    CountAt(b, 1, |c|, cf);
    CountAt(b, 1 + |lc|, |o|, uf);
    assert ReadEncoded(b, 1, 3) == Ok(o, |b|);
    assert b[0] == 0xC3;
    assert ReadLength(b, 0) == Ok(Special(3), 1);
    hide ReadEncoded, ReadLength;
  }

  lemma PackedReads(e: StrEnc)
    requires e.Packed? && StrFits(e)
    ensures StrAlone(PrintStr(e)) && StrOf(PrintStr(e)) == Meaning(e)
  {
    hide PrintLen, ReadString;
    Lzf.TokensEncoded(Lzf.EncodeAll(e.tokens), 0, e.tokens);
    LzfReads(Lzf.EncodeAll(e.tokens), Meaning(e), e.cf, e.uf);
  }

  /** Every string encoding reads back as the text it prints. */
  lemma StrRoundTrip(e: StrEnc)
    requires StrFits(e)
    ensures StrAlone(PrintStr(e)) && StrOf(PrintStr(e)) == Meaning(e)
  {
    var b := PrintStr(e);
    assert At(b, 0, b);
    match e
    case Plain(s, f) =>
      AtSplit(b, 0, PrintLen(|s|, f), s);
      ReadLengthOf(b, 0, |s|, f);
      hide PrintLen, ReadLength;
    case IntText(i, w) =>
      AtSplit(b, 0, b[..1], Compact.WriteInt(i, w));
      assert b == b[..1] + Compact.WriteInt(i, w);
      Compact.ReadWriteInt(i, w);
      assert ReadLength(b, 0) == Ok(Special(b[0] % 64), 1);
      hide Compact.ReadInt, Compact.WriteInt, ReadLength, Decimal;
    case Packed(_, _, _) => PackedReads(e);
  }

  /** A printed string read at its place. */
  lemma StrReads(e: StrEnc, d: Bytes, p: nat)
    requires StrFits(e) && At(d, p, PrintStr(e))
    ensures p + |PrintStr(e)| <= |d| && ReadString(d, p) == Ok(Meaning(e), p + |PrintStr(e)|)
  {
    hide ReadString, StrFits, PrintStr, Meaning, StrAlone, StrOf;
    StrRoundTrip(e);
    StrAt(d, p, PrintStr(e));
  }

  // ----- numbers -----

  /** A number and the form it is printed in. */
  datatype Num = Num(n: nat, f: LenForm)
  {
    predicate Valid() { LenFits(n, f) }
    function Print(): (b: Bytes)
      requires Valid()
      ensures |b| >= 1
    {
      PrintLen(n, f)
    }
  }

  function PrintNums(xs: seq<Num>): Bytes
    requires forall x | x in xs :: x.Valid()
  {
    if xs == [] then [] else xs[0].Print() + PrintNums(xs[1..])
  }

  /** A printed number read at its place, as a length and as a count. */
  lemma NumReads(x: Num, d: Bytes, p: nat)
    requires x.Valid() && At(d, p, x.Print())
    ensures p + |x.Print()| <= |d| && ReadLengthValue(d, p) == Ok(x.n, p + |x.Print()|)
    ensures x.n <= MAX_ALLOC_BYTES ==> ReadCount(d, p) == Ok(x.n, p + |x.Print()|)
  {
    hide PrintLen, ReadLength, ReadLengthValue, LenFits;
    ReadLengthOf(d, p, x.n, x.f);
    AtInside(d, p, x.Print());
  }

  /** Numbers one after another are skipped one by one. */
  lemma {:induction false} NumsAt(xs: seq<Num>, d: Bytes, p: nat)
    requires (forall x | x in xs :: x.Valid()) && At(d, p, PrintNums(xs))
    ensures p + |PrintNums(xs)| <= |d| && SkipLengths(|xs|, d, p) == Ok((), p + |PrintNums(xs)|)
    decreases |xs|
  {
    hide ReadLengthValue, ReadCount, At, Num.Print, Num.Valid;
    AtInside(d, p, PrintNums(xs));
    if xs != [] {
      var x := xs[0];
      assert x.Valid();
      AtSplit(d, p, x.Print(), PrintNums(xs[1..]));
      NumReads(x, d, p);
      NumsAt(xs[1..], d, p + |x.Print()|);
    }
  }

  // ----- plain collections -----

  predicate ElementAlone(env: Env, t: Byte, b: Bytes)
    requires IsPlainType(t)
  {
    ReadElement(env, t, b, 0).Ok? && ReadElement(env, t, b, 0).pos == |b|
  }

  function Concat(bs: seq<Bytes>): Bytes {
    if bs == [] then [] else bs[0] + Concat(bs[1..])
  }

  /** The collection whose elements are printed by `bs`, in order. */
  function Collect(env: Env, t: Byte, bs: seq<Bytes>): RdbValue
    requires IsPlainType(t) && forall b | b in bs :: ElementAlone(env, t, b)
  {
    if bs == [] then EmptyOf(t)
    else
      assert ElementAlone(env, t, bs[0]);
      Append(ReadElement(env, t, bs[0], 0).value, Collect(env, t, bs[1..]))
  }

  lemma {:induction false} ElementsPrinted(env: Env, t: Byte, bs: seq<Bytes>, d: Bytes, p: nat)
    requires IsPlainType(t) && (forall b | b in bs :: ElementAlone(env, t, b)) && At(d, p, Concat(bs))
    ensures ReadElements(env, t, |bs|, d, p) == Ok(Collect(env, t, bs), p + |Concat(bs)|)
    decreases |bs|
  {
    hide ReadElement, Same;
    if bs != [] {
      AtSplit(d, p, bs[0], Concat(bs[1..]));
      SameAt(d, p, bs[0]);
      assert ElementAlone(env, t, bs[0]);
      ElementL(env, t, bs[0], 0, d, p);
      ElementsPrinted(env, t, bs[1..], d, p + |bs[0]|);
    }
  }

  lemma CountThenBody(n: nat, f: LenForm, body: Bytes)
    requires n <= MAX_ALLOC_BYTES && LenFits(n, f)
    ensures var b := PrintLen(n, f) + body;
            ReadCount(b, 0) == Ok(n, |PrintLen(n, f)|) && At(b, |PrintLen(n, f)|, body)
  {
    hide PrintLen, ReadCount;
    var b := PrintLen(n, f) + body;
    assert At(b, 0, b);
    AtSplit(b, 0, PrintLen(n, f), body);
    CountAt(b, 0, n, f);
  }

  lemma {:induction false} PlainValue(env: Env, t: Byte, d: Bytes, p: nat)
    requires IsPlainType(t) && p <= |d| && ReadCount(d, p).Ok?
    ensures ReadValue(env, t, d, p) == ReadElements(env, t, ReadCount(d, p).value, d, ReadCount(d, p).pos)
  {
    hide ReadCount, ReadElements;
  }

  lemma {:induction false} QuicklistValue(env: Env, v2: bool, d: Bytes, p: nat)
    requires p <= |d| && ReadCount(d, p).Ok?
    requires ReadNodes(v2, ReadCount(d, p).value, [], d, ReadCount(d, p).pos).Ok?
    ensures var r := ReadNodes(v2, ReadCount(d, p).value, [], d, ReadCount(d, p).pos);
            ReadValue(env, if v2 then T_LIST_QUICKLIST_2 else T_LIST_QUICKLIST, d, p) == Ok(List(r.value), r.pos)
  {
    hide ReadCount, ReadNodes;
  }

  /** A count and that many printed elements read back as the collection of those elements. */
  lemma {:induction false} PlainRoundTrip(env: Env, t: Byte, f: LenForm, bs: seq<Bytes>)
    requires IsPlainType(t) && (forall b | b in bs :: ElementAlone(env, t, b))
    requires |bs| <= MAX_ALLOC_BYTES && LenFits(|bs|, f)
    ensures var b := PrintLen(|bs|, f) + Concat(bs);
            ValueAlone(env, t, b) && ValueOf(env, t, b) == Collect(env, t, bs)
  {
    var b := PrintLen(|bs|, f) + Concat(bs);
    hide PrintLen, ReadValue, ReadCount, ReadElements, ElementAlone, Collect, Concat, LenFits, At;
    CountThenBody(|bs|, f, Concat(bs));
    ElementsPrinted(env, t, bs, b, |PrintLen(|bs|, f)|);
    PlainValue(env, t, b, 0);
  }

  /** A compact collection is its blob, printed as any string. */
  lemma BlobRoundTrip(env: Env, t: Byte, e: StrEnc)
    requires IsBlobType(t) && StrFits(e) && DecodeBlob(env, t, Meaning(e)).Success?
    ensures ValueAlone(env, t, PrintStr(e)) && ValueOf(env, t, PrintStr(e)) == DecodeBlob(env, t, Meaning(e)).value
  {
    StrRoundTrip(e);
    hide ReadString, PrintStr, Meaning, DecodeBlob, StrFits;
  }

  // ----- quicklists -----

  predicate NodeAlone(v2: bool, b: Bytes) { ReadNode(v2, b, 0).Ok? && ReadNode(v2, b, 0).pos == |b| }

  /** The elements of a run of nodes, however they are split between nodes. */
  function NodeElements(v2: bool, bs: seq<Bytes>): seq<Bytes>
    requires forall b | b in bs :: NodeAlone(v2, b)
  {
    if bs == [] then []
    else
      assert NodeAlone(v2, bs[0]);
      ReadNode(v2, bs[0], 0).value + NodeElements(v2, bs[1..])
  }

  lemma {:induction false} NodesPrinted(v2: bool, bs: seq<Bytes>, acc: seq<Bytes>, d: Bytes, p: nat)
    requires (forall b | b in bs :: NodeAlone(v2, b)) && At(d, p, Concat(bs))
    ensures ReadNodes(v2, |bs|, acc, d, p) == Ok(acc + NodeElements(v2, bs), p + |Concat(bs)|)
    decreases |bs|
  {
    hide ReadNode;
    if bs == [] {
      assert acc + [] == acc;
    } else {
      AtSplit(d, p, bs[0], Concat(bs[1..]));
      SameAt(d, p, bs[0]);
      assert NodeAlone(v2, bs[0]);
      NodeL(v2, bs[0], 0, d, p);
      var x := ReadNode(v2, bs[0], 0).value;
      NodesPrinted(v2, bs[1..], acc + x, d, p + |bs[0]|);
      assert (acc + x) + NodeElements(v2, bs[1..]) == acc + NodeElements(v2, bs);
    }
  }

  /** A quicklist reads back as its nodes' elements end to end: only the concatenation matters,
      not where the writer cut it into nodes. */
  lemma {:induction false} QuicklistRoundTrip(env: Env, v2: bool, f: LenForm, bs: seq<Bytes>)
    requires (forall b | b in bs :: NodeAlone(v2, b)) && |bs| <= MAX_ALLOC_BYTES && LenFits(|bs|, f)
    ensures var b := PrintLen(|bs|, f) + Concat(bs);
            var t := if v2 then T_LIST_QUICKLIST_2 else T_LIST_QUICKLIST;
            ValueAlone(env, t, b) && ValueOf(env, t, b) == List(NodeElements(v2, bs))
  {
    var b := PrintLen(|bs|, f) + Concat(bs);
    hide PrintLen, ReadValue, ReadCount, ReadNodes, NodeAlone, NodeElements, Concat, LenFits, At;
    CountThenBody(|bs|, f, Concat(bs));
    NodesPrinted(v2, bs, [], b, |PrintLen(|bs|, f)|);
    assert [] + NodeElements(v2, bs) == NodeElements(v2, bs);
    QuicklistValue(env, v2, b, 0);
  }
}
