/**
 The converse of the round trips: whatever the reader accepts was printed. From the bytes that each
 parser consumed, the value and the encodings that print them are recovered.
 */
module Recovery {
  import opened Common
  import opened Types
  import opened Wire
  import opened Printing
  import opened ValueFormat
  import opened Values
  import C = Compact
  import Encodings
  import Intset
  import Listpack
  import Locality
  import Lzf
  import StreamPack
  import Ziplist

  lemma AtSelf(d: Bytes, p: nat, q: nat)
    requires p <= q <= |d|
    ensures At(d, p, d[p..q])
  {}

  lemma AtJoin(d: Bytes, p: nat, a: Bytes, b: Bytes)
    requires At(d, p, a) && At(d, p + |a|, b)
    ensures At(d, p, a + b)
  {
    AtSplit(d, p, a, b);
  }

  // ----- lengths -----

  lemma ShortForm(d: Bytes, p: nat) returns (f: LenForm)
    requires p < |d| && d[p] < 128 && ReadLength(d, p).Ok?
    ensures var r := ReadLength(d, p);
            r.value.Len? && LenFits(r.value.n, f) && At(d, p, PrintLen(r.value.n, f))
                && r.pos == p + |PrintLen(r.value.n, f)|
  {
    hide Be, ToBe;
    if d[p] < 64 {
      f := Bits6;
      assert d[p..p + 1] == [d[p]];
    } else {
      f := Bits14;
      assert d[p..p + 2] == [d[p], d[p + 1]];
    }
  }

  lemma LongForm(d: Bytes, p: nat) returns (f: LenForm)
    requires p < |d| && (d[p] == 0x80 || d[p] == 0x81) && ReadLength(d, p).Ok?
    ensures var r := ReadLength(d, p);
            r.value.Len? && LenFits(r.value.n, f) && At(d, p, PrintLen(r.value.n, f))
                && r.pos == p + |PrintLen(r.value.n, f)|
  {
    hide Be, ToBe, Pow256;
    PowValues();
    var w := if d[p] == 0x80 then 4 else 8;
    f := if d[p] == 0x80 then Bits32 else Bits64;
    var s := d[p + 1..p + 1 + w];
    ToBeOfBe(s);
    assert d[p..p + 1 + w] == [d[p]] + s;
  }

  lemma FormOf(d: Bytes, p: nat) returns (f: LenForm)
    requires p <= |d| && ReadLength(d, p).Ok? && ReadLength(d, p).value.Len?
    ensures var n := ReadLength(d, p).value.n;
            LenFits(n, f) && At(d, p, PrintLen(n, f)) && ReadLength(d, p).pos == p + |PrintLen(n, f)|
  {
    hide Be, PrintLen, LenFits;
    if d[p] < 128 {
      f := ShortForm(d, p);
    } else {
      f := LongForm(d, p);
    }
  }

  lemma NumOf(d: Bytes, p: nat) returns (x: Num)
    requires p <= |d| && ReadLengthValue(d, p).Ok?
    ensures x.Valid() && At(d, p, x.Print()) && ReadLengthValue(d, p) == Ok(x.n, p + |x.Print()|)
  {
    hide LenFits, PrintLen, ReadLength;
    var f := FormOf(d, p);
    x := Num(ReadLength(d, p).value.n, f);
  }

  lemma CountOf(d: Bytes, p: nat) returns (x: Num)
    requires p <= |d| && ReadCount(d, p).Ok?
    ensures x.Valid() && x.n <= MAX_ALLOC_BYTES && At(d, p, x.Print()) && ReadCount(d, p) == Ok(x.n, p + |x.Print()|)
  {
    hide Num.Valid, Num.Print, ReadLengthValue;
    x := NumOf(d, p);
  }

  lemma {:induction false} NumsOf(n: nat, d: Bytes, p: nat) returns (xs: seq<Num>)
    requires p <= |d| && SkipLengths(n, d, p).Ok?
    ensures |xs| == n && (forall x | x in xs :: x.Valid())
    ensures At(d, p, PrintNums(xs)) && SkipLengths(n, d, p).pos == p + |PrintNums(xs)|
    decreases n
  {
    hide Num.Valid, Num.Print, ReadLengthValue, At;
    if n == 0 {
      xs := [];
      NothingAt(d, p);
    } else {
      var x := NumOf(d, p);
      var rest := NumsOf(n - 1, d, p + |x.Print()|);
      xs := [x] + rest;
      assert xs[1..] == rest;
      AtJoin(d, p, x.Print(), PrintNums(rest));
    }
  }

  lemma NothingAt(d: Bytes, p: nat)
    requires p <= |d|
    ensures At(d, p, [])
  {}

  // ----- strings -----

  lemma PlainOf(d: Bytes, p: nat) returns (e: StrEnc)
    requires p <= |d| && ReadString(d, p).Ok? && ReadLength(d, p).value.Len?
    ensures StrFits(e) && At(d, p, PrintStr(e)) && ReadString(d, p) == Ok(Meaning(e), p + |PrintStr(e)|)
  {
    hide ReadLength, PrintLen, LenFits, ReadEncoded;
    var l := ReadLength(d, p);
    var n := l.value.n;
    var f := FormOf(d, p);
    e := StrEnc.Plain(d[l.pos..l.pos + n], f);
    AtSelf(d, l.pos, l.pos + n);
    AtJoin(d, p, PrintLen(n, f), e.s);
  }

  lemma IntTextOf(d: Bytes, p: nat) returns (e: StrEnc)
    requires p < |d| && 0xC0 <= d[p] <= 0xC2 && ReadString(d, p).Ok?
    ensures StrFits(e) && At(d, p, PrintStr(e)) && ReadString(d, p) == Ok(Meaning(e), p + |PrintStr(e)|)
  {
    hide C.ReadInt, C.WriteInt, C.FitsInt, Decimal, ReadCount, Lzf.Expected;
    var w := if d[p] == 0xC0 then 1 else if d[p] == 0xC1 then 2 else 4;
    assert ReadLength(d, p) == Ok(Special(d[p] - 0xC0), p + 1);
    hide ReadLength;
    var s := d[p + 1..p + 1 + w];
    C.WriteReadInt(s);
    e := IntText(C.ReadInt(s), w);
    assert d[p..p + 1 + w] == [d[p]] + s;
  }

  lemma PackedParts(d: Bytes, p: nat) returns (a: Num, b: Num)
    requires p < |d| && d[p] == 0xC3 && ReadString(d, p).Ok?
    ensures a.Valid() && b.Valid() && a.n <= MAX_ALLOC_BYTES && b.n <= MAX_ALLOC_BYTES
    ensures var p2 := p + 1 + |a.Print()|; var p3 := p2 + |b.Print()|;
            && At(d, p + 1, a.Print()) && At(d, p2, b.Print()) && p3 + a.n <= |d|
            && ReadString(d, p) == Lift(Lzf.Expected(d[p3..p3 + a.n], b.n), p3 + a.n)
  {
    hide ReadCount, Lzf.Expected, Decimal, C.ReadInt, Num.Print, Num.Valid, At;
    assert ReadLength(d, p) == Ok(Special(3), p + 1);
    hide ReadLength;
    a := CountOf(d, p + 1);
    b := CountOf(d, p + 1 + |a.Print()|);
  }

  lemma TokensOf(c: Bytes, n: nat) returns (ts: seq<Lzf.Token>)
    requires Lzf.Expected(c, n).Success?
    ensures (forall t | t in ts :: Lzf.Encodable(t)) && c == Lzf.EncodeAll(ts)
    ensures Lzf.Expand([], ts) == Some(Lzf.Expected(c, n).value) && |Lzf.Expected(c, n).value| == n
  {
    hide Lzf.Expected, Lzf.Encodable, Lzf.Expand, Lzf.EncodeAll;
    var o := Lzf.Expected(c, n).value;
    ExpectedLength(c, n);
    Lzf.AcceptsExactlyEncodings(c, o);
    ts :| (forall t | t in ts :: Lzf.Encodable(t)) && c == Lzf.EncodeAll(ts) && Lzf.Expand([], ts) == Some(o);
  }

  lemma PackedOf(d: Bytes, p: nat) returns (e: StrEnc)
    requires p < |d| && d[p] == 0xC3 && ReadString(d, p).Ok?
    ensures StrFits(e) && At(d, p, PrintStr(e)) && ReadString(d, p) == Ok(Meaning(e), p + |PrintStr(e)|)
  {
    hide ReadString, Lzf.Expected, Lzf.Encodable, Lzf.Expand, Lzf.EncodeAll, PrintLen, LenFits, At;
    var a, b := PackedParts(d, p);
    var p2 := p + 1 + |a.Print()|;
    var p3 := p2 + |b.Print()|;
    var c := d[p3..p3 + a.n];
    var ts := TokensOf(c, b.n);
    e := StrEnc.Packed(ts, a.f, b.f);
    AtSelf(d, p3, p3 + a.n);
    AtJoin(d, p2, b.Print(), c);
    AtJoin(d, p + 1, a.Print(), b.Print() + c);
    AtSelf(d, p, p + 1);
    assert d[p..p + 1] == [0xC3];
    AtJoin(d, p, [0xC3], a.Print() + (b.Print() + c));
  }

  lemma ExpectedLength(c: Bytes, n: nat)
    ensures Lzf.Expected(c, n).Success? ==> |Lzf.Expected(c, n).value| == n
  {
    hide Lzf.Meaning;
  }

  lemma StrOfBytes(d: Bytes, p: nat) returns (e: StrEnc)
    requires p <= |d| && ReadString(d, p).Ok?
    ensures StrFits(e) && At(d, p, PrintStr(e)) && ReadString(d, p) == Ok(Meaning(e), p + |PrintStr(e)|)
  {
    hide StrFits, PrintStr, Meaning, At;
    MarkedString(d, p);
    if ReadLength(d, p).value.Len? {
      e := PlainOf(d, p);
    } else if d[p] == 0xC3 {
      e := PackedOf(d, p);
    } else {
      e := IntTextOf(d, p);
    }
  }

  lemma MarkedString(d: Bytes, p: nat)
    requires p <= |d| && ReadString(d, p).Ok?
    ensures ReadLength(d, p).Ok? && (ReadLength(d, p).value.Special? ==> p < |d| && 0xC0 <= d[p] <= 0xC3)
  {
    hide Be, ReadCount, Lzf.Expected, Decimal, C.ReadInt;
  }

  lemma I64Of(d: Bytes, p: nat) returns (x: int)
    requires p <= |d| && ReadI64(d, p).Ok?
    ensures C.FitsInt(x, 8) && At(d, p, C.WriteInt(x, 8)) && ReadI64(d, p) == Ok(x, p + 8)
  {
    hide C.ReadInt, C.WriteInt, C.FitsInt;
    x := C.ReadInt(d[p..p + 8]);
    C.WriteReadInt(d[p..p + 8]);
    AtSelf(d, p, p + 8);
  }

  // ----- plain collections -----

  /** A score of the text form, or one of the three marks. */
  lemma ScoreOfBytes(env: Env, m: StrEnc, d: Bytes, p: nat, q: nat) returns (x: Elem)
    requires StrFits(m) && At(d, p, PrintStr(m)) && q == p + |PrintStr(m)| && q <= |d| && ReadDouble(env, d, q).Ok?
    ensures x.Fits(env, T_ZSET) && At(d, p, x.Print(env, T_ZSET))
    ensures ReadDouble(env, d, q).pos == p + |x.Print(env, T_ZSET)|
    ensures x.Alone(env, T_ZSET) == SortedSet([(Meaning(m), ReadDouble(env, d, q).value)])
  {
    hide StrFits, PrintStr, Meaning, At;
    var n: nat := d[q];
    AtSelf(d, q, q + 1);
    assert d[q..q + 1] == [d[q]];
    if n >= 253 {
      x := Marked(m, d[q]);
      AtJoin(d, p, PrintStr(m), [d[q]]);
    } else {
      var text := d[q + 1..q + 1 + n];
      x := Scored(m, text);
      AtSelf(d, q + 1, q + 1 + n);
      AtJoin(d, q, [d[q]], text);
      AtJoin(d, p, PrintStr(m), [d[q]] + text);
    }
  }

  lemma PairOf(env: Env, t: Byte, f: StrEnc, d: Bytes, p: nat, q: nat) returns (x: Elem)
    requires (t == T_HASH || t == T_HASH_2) && StrFits(f) && At(d, p, PrintStr(f)) && q == p + |PrintStr(f)|
    requires q <= |d| && ReadString(d, q).Ok? && (t == T_HASH_2 ==> ReadI64(d, ReadString(d, q).pos).Ok?)
    ensures x.Fits(env, t) && At(d, p, x.Print(env, t))
    ensures var v := ReadString(d, q);
            if t == T_HASH then
              v.pos == p + |x.Print(env, t)| && x.Alone(env, t) == Hash([HashField(Meaning(f), v.value, None)])
            else
              var ttl := ReadI64(d, v.pos);
              && ttl.pos == p + |x.Print(env, t)|
              && x.Alone(env, t)
                 == Hash([HashField(Meaning(f), v.value, if ttl.value == -1 then None else Some(ttl.value))])
  {
    hide StrFits, PrintStr, Meaning, At, ReadString, ReadI64, C.FitsInt, C.WriteInt;
    var v := StrOfBytes(d, q);
    if t == T_HASH {
      x := Pair(f, v);
      AtJoin(d, p, PrintStr(f), PrintStr(v));
    } else {
      var ttl := I64Of(d, q + |PrintStr(v)|);
      x := Expiring(f, v, ttl);
      AtJoin(d, q, PrintStr(v), C.WriteInt(ttl, 8));
      AtJoin(d, p, PrintStr(f), PrintStr(v) + C.WriteInt(ttl, 8));
    }
  }

  lemma ElemOf(env: Env, t: Byte, d: Bytes, p: nat) returns (x: Elem)
    requires p <= |d| && IsPlainType(t) && ReadElement(env, t, d, p).Ok?
    ensures x.Fits(env, t) && At(d, p, x.Print(env, t))
    ensures ReadElement(env, t, d, p) == Ok(x.Alone(env, t), p + |x.Print(env, t)|)
  {
    hide StrFits, PrintStr, Meaning, At, ReadString, ReadI64, ReadDouble, C.FitsInt, C.WriteInt;
    var a := StrOfBytes(d, p);
    var q := p + |PrintStr(a)|;
    if t == T_LIST || t == T_SET {
      x := Member(a);
    } else if t == T_ZSET {
      x := ScoreOfBytes(env, a, d, p, q);
    } else if t == T_ZSET_2 {
      x := Binary(a, d[q..q + 8]);
      AtSelf(d, q, q + 8);
      AtJoin(d, p, PrintStr(a), d[q..q + 8]);
    } else {
      x := PairOf(env, t, a, d, p, q);
    }
  }

  lemma {:induction false} ElemsOf(env: Env, t: Byte, n: nat, d: Bytes, p: nat) returns (xs: seq<Elem>)
    requires p <= |d| && IsPlainType(t) && ReadElements(env, t, n, d, p).Ok?
    ensures |xs| == n && AllFit(env, t, xs) && At(d, p, Concat(PrintElems(env, t, xs)))
    ensures ReadElements(env, t, n, d, p) == Ok(Collection(env, t, xs), p + |Concat(PrintElems(env, t, xs))|)
    decreases n
  {
    hide ReadElement, Elem.Fits, Elem.Print, Elem.Alone, At, Append;
    if n == 0 {
      xs := [];
      NothingAt(d, p);
    } else {
      var x := ElemOf(env, t, d, p);
      var rest := ElemsOf(env, t, n - 1, d, p + |x.Print(env, t)|);
      xs := [x] + rest;
      assert xs[1..] == rest;
      var bs := PrintElems(env, t, xs);
      assert bs[0] == x.Print(env, t) && bs[1..] == PrintElems(env, t, rest);
      AtJoin(d, p, x.Print(env, t), Concat(bs[1..]));
    }
  }

  // ----- compact collections -----

  lemma {:induction false} EntriesAccepted(env: Env, t: Byte, es: seq<C.CompactEntry>)
    requires IsHash(t) ==> HashPairs(es).Success?
    requires IsZset(t) ==> ZsetPairs(env, es).Success?
    ensures EntriesFit(env, t, es)
  {
    hide HashPairs, ZsetPairs;
    SameScores(env);
    hide ToDouble, ScoreOf;
    if IsZset(t) { Encodings.ZsetPairsAre(env, es); }
  }

  lemma ListpackOf(env: Env, t: Byte, blob: Bytes) returns (items: seq<Listpack.Item>)
    requires IsListpackType(t) && DecodeBlob(env, t, blob).Success?
    ensures Listpack.Holds(blob, items) && EntriesFit(env, t, Listpack.Entries(items))
  {
    hide Listpack.Holds, Listpack.DecodeSpec, HashPairs, ZsetPairs, EntriesFit;
    var es := Listpack.DecodeSpec(blob).value;
    Listpack.AcceptsExactlyLayouts(blob, es);
    items :| Listpack.Holds(blob, items) && Listpack.Entries(items) == es;
    EntriesAccepted(env, t, es);
  }

  lemma ZiplistOf(env: Env, t: Byte, blob: Bytes) returns (items: seq<Ziplist.Item>)
    requires IsZiplistType(t) && DecodeBlob(env, t, blob).Success?
    ensures Ziplist.Holds(blob, items) && EntriesFit(env, t, Ziplist.Entries(items))
  {
    hide Ziplist.Holds, Ziplist.DecodeSpec, HashPairs, ZsetPairs, EntriesFit;
    var es := Ziplist.DecodeSpec(blob).value;
    Ziplist.AcceptsExactlyLayouts(blob, es);
    items :| Ziplist.Holds(blob, items) && Ziplist.Entries(items) == es;
    EntriesAccepted(env, t, es);
  }

  lemma IntsetOf(env: Env, blob: Bytes) returns (w: nat, xs: seq<int>)
    requires DecodeBlob(env, T_SET_INTSET, blob).Success?
    ensures Intset.Holds(blob, w, xs)
  {
    hide Intset.Holds, Intset.DecodeSpec, Intset.DecimalAll;
    var ms := Intset.DecodeSpec(blob).value;
    Intset.AcceptsExactlyLayouts(blob, ms);
    w, xs :| Intset.Holds(blob, w, xs) && Intset.DecimalAll(xs) == ms;
  }

  /** The value that a string of a compact type was printed for. */
  lemma BlobOf(env: Env, t: Byte, e: StrEnc) returns (v: Val)
    requires IsBlobType(t) && StrFits(e) && DecodeBlob(env, t, Meaning(e)).Success?
    ensures v.Fits(env) && IsBlob(v) && v.Type() == t && v.Print(env) == PrintStr(e)
  {
    hide StrFits, PrintStr, Meaning, Intset.Holds, Listpack.Holds, Ziplist.Holds, EntriesFit, DecodeBlob;
    ZipmapFails(env, Meaning(e));
    if t == T_STRING {
      v := Val.Text(e);
    } else if t == T_SET_INTSET {
      var w, xs := IntsetOf(env, Meaning(e));
      v := Ints(e, w, xs);
    } else if IsListpackType(t) {
      var items := ListpackOf(env, t, Meaning(e));
      v := Val.Packed(t, e, items);
    } else {
      var items := ZiplistOf(env, t, Meaning(e));
      v := Zipped(t, e, items);
    }
  }

  lemma ZipmapFails(env: Env, blob: Bytes)
    ensures DecodeBlob(env, T_HASH_ZIPMAP, blob) == Failure(UnknownType(T_HASH_ZIPMAP))
  {}

  // ----- quicklists -----

  lemma ZipOf(e: StrEnc) returns (n: ListNode)
    requires StrFits(e) && Ziplist.DecodeSpec(Meaning(e)).Success?
    ensures n.Fits(false) && n.Print(false) == PrintStr(e)
    ensures n.Elements(false) == C.IntoBytesAll(Ziplist.DecodeSpec(Meaning(e)).value)
  {
    hide StrFits, PrintStr, Meaning, Ziplist.Holds, Ziplist.DecodeSpec, C.IntoBytesAll;
    var es := Ziplist.DecodeSpec(Meaning(e)).value;
    Ziplist.AcceptsExactlyLayouts(Meaning(e), es);
    var items :| Ziplist.Holds(Meaning(e), items) && Ziplist.Entries(items) == es;
    n := Zip(e, items);
  }

  lemma PackOf(tag: LenForm, e: StrEnc) returns (n: ListNode)
    requires StrFits(e) && Listpack.DecodeSpec(Meaning(e)).Success?
    ensures n.Fits(true) && n.Print(true) == Num(2, tag).Print() + PrintStr(e)
    ensures n.Elements(true) == C.IntoBytesAll(Listpack.DecodeSpec(Meaning(e)).value)
  {
    hide StrFits, PrintStr, Meaning, Listpack.Holds, Listpack.DecodeSpec, C.IntoBytesAll;
    var es := Listpack.DecodeSpec(Meaning(e)).value;
    Listpack.AcceptsExactlyLayouts(Meaning(e), es);
    var items :| Listpack.Holds(Meaning(e), items) && Listpack.Entries(items) == es;
    n := Pack(tag, e, items);
  }

  lemma ListNodeOf(v2: bool, d: Bytes, p: nat) returns (n: ListNode)
    requires p <= |d| && ReadNode(v2, d, p).Ok?
    ensures n.Fits(v2) && At(d, p, n.Print(v2)) && ReadNode(v2, d, p) == Ok(n.Elements(v2), p + |n.Print(v2)|)
  {
    hide StrFits, PrintStr, Meaning, At, ReadString, ReadLengthValue, Num.Print, C.IntoBytesAll;
    hide Ziplist.DecodeSpec, Listpack.DecodeSpec, Ziplist.Holds, Listpack.Holds;
    if !v2 {
      var e := StrOfBytes(d, p);
      n := ZipOf(e);
    } else {
      var tag := NumOf(d, p);
      var e := StrOfBytes(d, p + |tag.Print()|);
      if tag.n == 1 {
        n := Single(tag.f, e);
      } else {
        n := PackOf(tag.f, e);
      }
      AtJoin(d, p, tag.Print(), PrintStr(e));
    }
  }

  lemma {:induction false} ListNodesOf(v2: bool, n: nat, acc: seq<Bytes>, d: Bytes, p: nat) returns (ns: seq<ListNode>)
    requires p <= |d| && ReadNodes(v2, n, acc, d, p).Ok?
    ensures |ns| == n && (forall x | x in ns :: x.Fits(v2)) && At(d, p, Concat(PrintListNodes(v2, ns)))
    ensures ReadNodes(v2, n, acc, d, p) == Ok(acc + AllElements(v2, ns), p + |Concat(PrintListNodes(v2, ns))|)
    decreases n
  {
    hide ReadNode, ListNode.Fits, ListNode.Print, ListNode.Elements, At;
    if n == 0 {
      ns := [];
      NothingAt(d, p);
      assert acc + [] == acc;
    } else {
      var x := ListNodeOf(v2, d, p);
      var rest := ListNodesOf(v2, n - 1, acc + x.Elements(v2), d, p + |x.Print(v2)|);
      ns := [x] + rest;
      assert ns[1..] == rest;
      var bs := PrintListNodes(v2, ns);
      assert bs[0] == x.Print(v2) && bs[1..] == PrintListNodes(v2, rest);
      AtJoin(d, p, x.Print(v2), Concat(bs[1..]));
      assert (acc + x.Elements(v2)) + AllElements(v2, rest) == acc + AllElements(v2, ns);
    }
  }

  // ----- consumer groups -----

  lemma PendingAt(d: Bytes, p: nat) returns (x: Pending)
    requires p <= |d| && SkipPel(1, d, p).Ok?
    ensures x.Valid() && At(d, p, x.Print()) && SkipPel(1, d, p).pos == p + |x.Print()|
  {
    hide ReadI64, ReadLengthValue, Num.Valid, Num.Print, C.FitsInt, C.WriteInt, At;
    var time := I64Of(d, p + 16);
    var count := NumOf(d, p + 24);
    x := Pending(d[p..p + 16], time, count);
    AtSelf(d, p, p + 16);
    AtJoin(d, p + 16, C.WriteInt(time, 8), count.Print());
    AtJoin(d, p, x.id, C.WriteInt(time, 8) + count.Print());
  }

  lemma {:induction false} OnePending(n: nat, d: Bytes, p: nat)
    requires p <= |d|
    ensures var first := SkipPel(1, d, p); SkipPel(n + 1, d, p) == if first.Ok? then SkipPel(n, d, first.pos) else first
  {
    hide ReadI64, ReadLengthValue;
  }

  lemma {:induction false} PendingOf(n: nat, d: Bytes, p: nat) returns (xs: seq<Pending>)
    requires p <= |d| && SkipPel(n, d, p).Ok?
    ensures |xs| == n && (forall x | x in xs :: x.Valid())
    ensures At(d, p, PrintPending(xs)) && SkipPel(n, d, p).pos == p + |PrintPending(xs)|
    decreases n
  {
    hide SkipPel, Pending.Valid, Pending.Print, At;
    if n == 0 {
      xs := [];
      NothingAt(d, p);
      NonePending(d, p);
    } else {
      OnePending(n - 1, d, p);
      var x := PendingAt(d, p);
      var rest := PendingOf(n - 1, d, p + |x.Print()|);
      xs := [x] + rest;
      assert xs[1..] == rest;
      AtJoin(d, p, x.Print(), PrintPending(rest));
    }
  }

  lemma {:induction false} NonePending(d: Bytes, p: nat)
    requires p <= |d|
    ensures SkipPel(0, d, p) == Ok((), p)
  {}

  lemma {:induction false} IdsOf(n: nat, d: Bytes, p: nat) returns (ids: seq<Bytes>)
    requires p <= |d| && SkipIds(n, d, p).Ok?
    ensures |ids| == n && (forall id | id in ids :: |id| == 16)
    ensures At(d, p, Concat(ids)) && SkipIds(n, d, p).pos == p + |Concat(ids)|
    decreases n
  {
    hide At;
    if n == 0 {
      ids := [];
      NothingAt(d, p);
    } else {
      var rest := IdsOf(n - 1, d, p + 16);
      ids := [d[p..p + 16]] + rest;
      assert ids[1..] == rest;
      AtSelf(d, p, p + 16);
      AtJoin(d, p, ids[0], Concat(rest));
    }
  }

  lemma ConsumerHeadOf(t: Byte, d: Bytes, p: nat) returns (name: StrEnc, seen: int, active: int, q: nat)
    requires p <= |d| && SkipConsumers(t, 1, d, p).Ok?
    ensures StrFits(name) && C.FitsInt(seen, 8) && C.FitsInt(active, 8) && p < q <= |d|
    ensures var late := if t >= T_STREAM_LISTPACKS_3 then C.WriteInt(active, 8) else [];
            && At(d, p, PrintStr(name)) && At(d, p + |PrintStr(name)|, C.WriteInt(seen, 8))
            && At(d, p + |PrintStr(name)| + 8, late) && q == p + |PrintStr(name)| + 8 + |late|
    ensures var m := ReadCount(d, q);
            m.Ok? && SkipIds(m.value, d, m.pos).Ok? && SkipConsumers(t, 1, d, p).pos == SkipIds(m.value, d, m.pos).pos
  {
    hide ReadString, ReadI64, ReadCount, SkipIds, StrFits, PrintStr, Meaning, C.FitsInt, C.WriteInt, At;
    name := StrOfBytes(d, p);
    var p2 := p + |PrintStr(name)|;
    seen := I64Of(d, p2);
    if t >= T_STREAM_LISTPACKS_3 {
      active := I64Of(d, p2 + 8);
      q := p2 + 16;
    } else {
      active := seen;
      q := p2 + 8;
      NothingAt(d, q);
    }
  }

  lemma ConsumerOf(t: Byte, d: Bytes, p: nat) returns (c: Consumer)
    requires p <= |d| && SkipConsumers(t, 1, d, p).Ok?
    ensures c.Valid() && At(d, p, c.Print(t)) && SkipConsumers(t, 1, d, p).pos == p + |c.Print(t)|
  {
    hide SkipConsumers, SkipIds, ReadCount, StrFits, PrintStr, Num.Valid, Num.Print, C.FitsInt, C.WriteInt, At, Concat;
    var name, seen, active, q := ConsumerHeadOf(t, d, p);
    var count := CountOf(d, q);
    var ids := IdsOf(count.n, d, q + |count.Print()|);
    c := Consumer(name, seen, active, count.f, ids);
    var late := ActiveTime(t, c);
    AtJoin(d, q, count.Print(), Concat(ids));
    AtJoin(d, p + |PrintStr(name)| + 8, late, count.Print() + Concat(ids));
    AtJoin(d, p + |PrintStr(name)|, C.WriteInt(seen, 8), late + (count.Print() + Concat(ids)));
    AtJoin(d, p, PrintStr(name), C.WriteInt(seen, 8) + (late + (count.Print() + Concat(ids))));
  }

  lemma {:induction false} ConsumersOf(t: Byte, n: nat, d: Bytes, p: nat) returns (cs: seq<Consumer>)
    requires p <= |d| && SkipConsumers(t, n, d, p).Ok?
    ensures |cs| == n && (forall c | c in cs :: c.Valid())
    ensures At(d, p, PrintConsumers(t, cs)) && SkipConsumers(t, n, d, p).pos == p + |PrintConsumers(t, cs)|
    decreases n
  {
    hide SkipConsumers, Consumer.Valid, Consumer.Print, At;
    if n == 0 {
      cs := [];
      NothingAt(d, p);
      NoConsumers(t, d, p);
    } else {
      Locality.OneConsumer(t, n - 1, d, p);
      var c := ConsumerOf(t, d, p);
      var rest := ConsumersOf(t, n - 1, d, p + |c.Print(t)|);
      cs := [c] + rest;
      assert cs[1..] == rest;
      AtJoin(d, p, c.Print(t), PrintConsumers(t, rest));
    }
  }

  lemma {:induction false} NoConsumers(t: Byte, d: Bytes, p: nat)
    requires p <= |d|
    ensures SkipConsumers(t, 0, d, p) == Ok((), p)
  {}

  /** The two counted lists of a group, after its name and numbers. */
  lemma MembersOf(t: Byte, name: StrEnc, numbers: seq<Num>, d: Bytes, p: nat) returns (g: Group)
    requires StrFits(name) && |numbers| == (if t >= T_STREAM_LISTPACKS_2 then 3 else 2)
    requires (forall x | x in numbers :: x.Valid()) && p <= |d| && ReadCount(d, p).Ok?
    requires var a := ReadCount(d, p);
             && SkipPel(a.value, d, a.pos).Ok?
             && var b := ReadCount(d, SkipPel(a.value, d, a.pos).pos); b.Ok? && SkipConsumers(t, b.value, d, b.pos).Ok?
    ensures g.Valid(t) && g.name == name && g.numbers == numbers && At(d, p, g.Members(t))
    ensures var a := ReadCount(d, p);
            var b := ReadCount(d, SkipPel(a.value, d, a.pos).pos);
            SkipConsumers(t, b.value, d, b.pos).pos == p + |g.Members(t)|
  {
    hide ReadCount, SkipPel, SkipConsumers, StrFits, Num.Valid, Num.Print, At;
    hide PrintPending, PrintConsumers, Pending.Valid, Consumer.Valid;
    var a := CountOf(d, p);
    var p3 := p + |a.Print()|;
    var pending := PendingOf(a.n, d, p3);
    var p4 := p3 + |PrintPending(pending)|;
    var b := CountOf(d, p4);
    var consumers := ConsumersOf(t, b.n, d, p4 + |b.Print()|);
    g := Group(name, numbers, a.f, pending, b.f, consumers);
    AtJoin(d, p4, b.Print(), PrintConsumers(t, consumers));
    AtJoin(d, p3, PrintPending(pending), b.Print() + PrintConsumers(t, consumers));
    AtJoin(d, p, a.Print(), PrintPending(pending) + (b.Print() + PrintConsumers(t, consumers)));
  }

  lemma GroupOf(t: Byte, d: Bytes, p: nat) returns (g: Group)
    requires p <= |d| && SkipGroup(t, d, p).Ok?
    ensures g.Valid(t) && At(d, p, g.Print(t)) && SkipGroup(t, d, p).pos == p + |g.Print(t)|
  {
    hide ReadString, ReadCount, SkipLengths, SkipPel, SkipConsumers, StrFits, PrintStr, Meaning, At;
    hide PrintNums, Num.Valid, Group.Members, Pending.Valid, Consumer.Valid;
    var name := StrOfBytes(d, p);
    var p1 := p + |PrintStr(name)|;
    var numbers := NumsOf(if t >= T_STREAM_LISTPACKS_2 then 3 else 2, d, p1);
    g := MembersOf(t, name, numbers, d, p1 + |PrintNums(numbers)|);
    AtJoin(d, p1, PrintNums(numbers), g.Members(t));
    AtJoin(d, p, PrintStr(name), PrintNums(numbers) + g.Members(t));
  }

  lemma {:induction false} GroupsOf(t: Byte, n: nat, d: Bytes, p: nat) returns (gs: seq<Group>)
    requires p <= |d| && SkipGroups(t, n, d, p).Ok?
    ensures |gs| == n && (forall g | g in gs :: g.Valid(t))
    ensures At(d, p, PrintGroups(t, gs)) && SkipGroups(t, n, d, p).pos == p + |PrintGroups(t, gs)|
    decreases n
  {
    hide SkipGroup, Group.Valid, Group.Print, At;
    if n == 0 {
      gs := [];
      NothingAt(d, p);
    } else {
      var g := GroupOf(t, d, p);
      var rest := GroupsOf(t, n - 1, d, p + |g.Print(t)|);
      gs := [g] + rest;
      assert gs[1..] == rest;
      AtJoin(d, p, g.Print(t), PrintGroups(t, rest));
    }
  }

  // ----- stream nodes -----

  /** A node whose entries were added: a listpack of stream entries under a sixteen-byte identifier. */
  lemma NodeOf(acc: Packs, id: StrEnc, blob: StrEnc) returns (n: Node)
    requires StrFits(id) && StrFits(blob) && |acc.entries| <= StreamPack.MAX_STREAM_ENTRIES
    requires acc.deferred.None? && AddPack(acc, Meaning(id), Meaning(blob)).deferred.None?
    ensures n.Valid() && n.Print() == PrintStr(id) + PrintStr(blob)
    ensures AddPack(acc, Meaning(id), Meaning(blob)) == acc.(entries := acc.entries + n.Entries())
  {
    hide StrFits, PrintStr, Meaning, StreamPack.Decode, StreamPack.Live, Listpack.Holds, Listpack.DecodeSpec;
    hide StreamPack.Holds, StreamPack.ValidItems;
    var ms, sq := Be(Meaning(id)[..8]), Be(Meaning(id)[8..16]);
    var es := Listpack.DecodeSpec(Meaning(blob)).value;
    var room := StreamPack.MAX_STREAM_ENTRIES - |acc.entries|;
    IdBytes(Meaning(id));
    Listpack.AcceptsExactlyLayouts(Meaning(blob), es);
    var stored :| Listpack.Holds(Meaning(blob), stored) && Listpack.Entries(stored) == es;
    ShortListpack(Meaning(blob), stored);
    var count, deleted, fields, items := StreamPack.AcceptsOnlyLayouts(es, ms, sq, room);
    ItemsCounted(es, count, deleted, fields, items, ms, sq);
    n := Node(id, blob, ms, sq, stored, count, deleted, fields, items);
  }

  lemma IdBytes(id: Bytes)
    requires |id| == 16
    ensures Be(id[..8]) < U64 && Be(id[8..16]) < U64 && id == ToBe(Be(id[..8]), 8) + ToBe(Be(id[8..16]), 8)
  {
    PowValues();
    ToBeOfBe(id[..8]);
    ToBeOfBe(id[8..16]);
    assert id == id[..8] + id[8..16];
  }

  lemma ShortListpack(d: Bytes, items: seq<Listpack.Item>)
    requires Listpack.Holds(d, items)
    ensures |d| < U32
  {}

  lemma ItemsCounted(
    es: seq<C.CompactEntry>, count: nat, deleted: nat, fields: seq<C.CompactEntry>, items: seq<StreamPack.Item>,
        ms: nat, sq: nat)
    requires StreamPack.Holds(es, count, deleted, fields, items, ms, sq)
    ensures |items| == count + deleted && StreamPack.ValidItems(items, ms, sq, C.IntoBytesAll(fields))
  {}

  lemma {:induction false} DeferredStays(n: nat, acc: Packs, d: Bytes, p: nat)
    requires p <= |d| && acc.deferred.Some? && ReadPacks(n, acc, d, p).Ok?
    ensures ReadPacks(n, acc, d, p).value.deferred.Some?
    decreases n
  {
    hide ReadString;
    if n > 0 {
      var a := ReadString(d, p);
      var b := ReadString(d, a.pos);
      DeferredStays(n - 1, AddPack(acc, a.value, b.value), d, b.pos);
    }
  }

  lemma {:induction false} NodesOf(n: nat, acc: Packs, d: Bytes, p: nat) returns (ns: seq<Node>)
    requires p <= |d| && |acc.entries| <= StreamPack.MAX_STREAM_ENTRIES && acc.deferred.None?
    requires ReadPacks(n, acc, d, p).Ok? && ReadPacks(n, acc, d, p).value.deferred.None?
    ensures |ns| == n && (forall x | x in ns :: x.Valid()) && At(d, p, PrintNodes(ns))
    ensures ReadPacks(n, acc, d, p) == Ok(acc.(entries := acc.entries + AllEntries(ns)), p + |PrintNodes(ns)|)
    decreases n
  {
    hide ReadString, AddPack, StrFits, PrintStr, Meaning, At, Node.Valid, Node.Print, Node.Entries;
    if n == 0 {
      ns := [];
      NothingAt(d, p);
      assert acc.entries + [] == acc.entries;
    } else {
      var id := StrOfBytes(d, p);
      var p2 := p + |PrintStr(id)|;
      var blob := StrOfBytes(d, p2);
      var p3 := p2 + |PrintStr(blob)|;
      var acc2 := AddPack(acc, Meaning(id), Meaning(blob));
      if acc2.deferred.Some? { DeferredStays(n - 1, acc2, d, p3); }
      AddPackWithin(acc, Meaning(id), Meaning(blob));
      var x := NodeOf(acc, id, blob);
      var rest := NodesOf(n - 1, acc2, d, p3);
      ns := [x] + rest;
      assert ns[1..] == rest;
      AtJoin(d, p, PrintStr(id), PrintStr(blob));
      AtJoin(d, p, x.Print(), PrintNodes(rest));
      assert acc2.entries + AllEntries(rest) == acc.entries + AllEntries(ns);
    }
  }

  // ----- streams -----

  /** The parts of a stream one after another are the printed stream. */
  lemma {:induction false} StreamPlaces(t: Byte, s: StreamParts, d: Bytes, p: nat)
    requires s.Valid(t)
    requires var p1 := p + |s.NodeCount().Print()|; var p2 := p1 + |PrintNodes(s.nodes)|;
             var p3 := p2 + |s.length.Print()|;
             var p4 := p3 + |s.lastMs.Print()|; var p5 := p4 + |s.lastSeq.Print()|; var p6 := p5 + |PrintNums(s.extra)|;
             && At(d, p, s.NodeCount().Print()) && At(d, p1, PrintNodes(s.nodes)) && At(d, p2, s.length.Print())
             && At(d, p3, s.lastMs.Print()) && At(d, p4, s.lastSeq.Print()) && At(d, p5, PrintNums(s.extra))
             && At(d, p6, s.GroupCount().Print()) && At(d, p6 + |s.GroupCount().Print()|, PrintGroups(t, s.groups))
    ensures At(d, p, s.Print(t))
    ensures |s.Print(t)| == |s.NodeCount().Print()| + |PrintNodes(s.nodes)| + |s.length.Print()| + |s.lastMs.Print()|
                            + |s.lastSeq.Print()| + |PrintNums(s.extra)| + |s.GroupCount().Print()|
                                + |PrintGroups(t, s.groups)|
  {
    hide At, Num.Valid, Num.Print, PrintNums, PrintNodes, PrintGroups, Node.Valid, Group.Valid;
    var p2 := p + |s.NodeCount().Print()| + |PrintNodes(s.nodes)|;
    var p3 := p2 + |s.length.Print()|;
    var p4 := p3 + |s.lastMs.Print()|;
    var p5 := p4 + |s.lastSeq.Print()|;
    var p6 := p5 + |PrintNums(s.extra)|;
    AtJoin(d, p6, s.GroupCount().Print(), PrintGroups(t, s.groups));
    AtJoin(d, p5, PrintNums(s.extra), s.GroupCount().Print() + PrintGroups(t, s.groups));
    AtJoin(d, p4, s.lastSeq.Print(), s.Last(t));
    AtJoin(d, p3, s.lastMs.Print(), s.lastSeq.Print() + s.Last(t));
    AtJoin(d, p2, s.length.Print(), s.lastMs.Print() + (s.lastSeq.Print() + s.Last(t)));
    AtJoin(d, p + |s.NodeCount().Print()|, PrintNodes(s.nodes), s.Tail(t));
    AtJoin(d, p, s.NodeCount().Print(), PrintNodes(s.nodes) + s.Tail(t));
  }

  lemma StreamOf(t: Byte, d: Bytes, p: nat) returns (s: StreamParts)
    requires p <= |d| && IsStreamType(t) && ReadStream(t, d, p).Ok?
    ensures s.Valid(t) && s.length.n == |AllEntries(s.nodes)| <= StreamPack.MAX_STREAM_ENTRIES
    ensures At(d, p, s.Print(t)) && ReadStream(t, d, p).pos == p + |s.Print(t)|
    ensures ReadStream(t, d, p).value
         == Stream(AllEntries(s.nodes), s.length.n, StreamPack.StreamId(s.lastMs.n, s.lastSeq.n))
  {
    hide ReadCount, ReadPacks, ReadLengthValue, SkipLengths, SkipGroups, StreamPack.StreamId, ReadStream, At;
    hide Num.Valid, Num.Print, PrintNums, PrintNodes, PrintGroups, AllEntries, Node.Valid, Group.Valid;
    var a, b, c, e, f, g, h, r := Locality.StreamParts(t, d, p);
    Locality.StreamIs(t, d, p, a, b, c, e, f, g, h, r);
    var nodeCount := CountOf(d, p);
    var nodes := NodesOf(nodeCount.n, Packs([], None), d, a.pos);
    assert [] + AllEntries(nodes) == AllEntries(nodes);
    var length := NumOf(d, b.pos);
    var lastMs := NumOf(d, c.pos);
    var lastSeq := NumOf(d, e.pos);
    var extra := NumsOf(if t >= T_STREAM_LISTPACKS_2 then 5 else 0, d, f.pos);
    var groupCount := CountOf(d, g.pos);
    var groups := GroupsOf(t, groupCount.n, d, h.pos);
    s := StreamParts(nodeCount.f, nodes, length, lastMs, lastSeq, extra, groupCount.f, groups);
    StreamPlaces(t, s, d, p);
    PacksWithin(nodeCount.n, d, a.pos);
  }

  lemma {:induction false} PacksWithin(n: nat, d: Bytes, p: nat)
    requires p <= |d| && ReadPacks(n, Packs([], None), d, p).Ok?
    ensures |ReadPacks(n, Packs([], None), d, p).value.entries| <= StreamPack.MAX_STREAM_ENTRIES
  {
    hide ReadPacks, SkipPacks;
    PacksFraming(n, Packs([], None), d, p);
  }

  // ----- module payloads -----

  lemma PieceOf(env: Env, d: Bytes, p: nat) returns (x: Piece)
    requires p <= |d| && ReadLengthValue(d, p).Ok? && ReadLengthValue(d, p).value != 0
    requires ReadModuleValue(env, ReadLengthValue(d, p).value, d, ReadLengthValue(d, p).pos).Ok?
    ensures x.Valid() && x.Code() == ReadLengthValue(d, p).value && At(d, p, x.Op().Print())
    ensures var q := ReadLengthValue(d, p).pos;
            && q == p + |x.Op().Print()| && At(d, q, x.Rest())
            && ReadModuleValue(env, x.Code(), d, q) == Ok(x.Value(env), q + |x.Rest()|)
  {
    hide ReadLengthValue, ReadString, Num.Valid, Num.Print, StrFits, PrintStr, Meaning, At;
    var op := NumOf(d, p);
    var q := p + |op.Print()|;
    if op.n == 1 {
      var raw := NumOf(d, q);
      x := Signed64(op.f, raw);
    } else if op.n == 2 {
      var raw := NumOf(d, q);
      x := Unsigned64(op.f, raw);
    } else if op.n == 3 {
      x := Float32(op.f, d[q..q + 4]);
      AtSelf(d, q, q + 4);
    } else if op.n == 4 {
      x := Float64(op.f, d[q..q + 8]);
      AtSelf(d, q, q + 8);
    } else {
      var text := StrOfBytes(d, q);
      x := String(op.f, text);
    }
  }

  lemma {:induction false} PiecesOf(
    env: Env, capped: bool, acc: seq<ModuleValue>, stringBytes: nat, d: Bytes, p: nat)
    returns (ps: seq<Piece>, end: LenForm)
    requires p <= |d| && ReadModule(env, capped, acc, stringBytes, d, p).Ok?
    ensures (forall x | x in ps :: x.Valid()) && At(d, p, PrintPieces(ps) + EndMark(end).Print())
    ensures capped ==> WithinCaps(|acc|, stringBytes, ValueFormat.Values(env, ps))
    ensures ReadModule(env, capped, acc, stringBytes, d, p)
         == Ok(acc + ValueFormat.Values(env, ps), p + |PrintPieces(ps) + EndMark(end).Print()|)
    decreases |d| - p
  {
    hide ReadLengthValue, ReadModuleValue, At, OverCap, Piece.Value, Piece.Valid, Piece.Rest, Piece.Op;
    hide Num.Print, Num.Valid;
    hide WithinCaps;
    var op := ReadLengthValue(d, p);
    if op.value == 0 {
      var x := NumOf(d, p);
      ps, end := [], x.f;
      assert PrintPieces(ps) + EndMark(end).Print() == x.Print();
      assert acc + [] == acc;
      CapsNone(|acc|, stringBytes);
    } else {
      var x := PieceOf(env, d, p);
      var v := x.Value(env);
      var bytes := stringBytes + if v.Text? then |v.s| else 0;
      var q := op.pos + |x.Rest()|;
      var rest;
      rest, end := PiecesOf(env, capped, acc + [v], bytes, d, q);
      ps := [x] + rest;
      var last := PrintPieces(rest) + EndMark(end).Print();
      FirstPiece(env, x, rest, EndMark(end).Print(), acc);
      CapsNext(|acc|, stringBytes, v, ValueFormat.Values(env, rest));
      AtJoin(d, op.pos, x.Rest(), last);
      AtJoin(d, p, x.Op().Print(), x.Rest() + last);
    }
  }

  lemma {:induction false} FirstPiece(env: Env, x: Piece, rest: seq<Piece>, last: Bytes, acc: seq<ModuleValue>)
    requires x.Valid() && forall y | y in rest :: y.Valid()
    ensures var ps, v := [x] + rest, x.Value(env);
            && (forall y | y in ps :: y.Valid())
            && PrintPieces(ps) + last == x.Op().Print() + (x.Rest() + (PrintPieces(rest) + last))
            && ValueFormat.Values(env, ps) == [v] + ValueFormat.Values(env, rest)
            && (acc + [v]) + ValueFormat.Values(env, rest) == acc + ValueFormat.Values(env, ps)
  {
    hide Piece.Value, Piece.Valid, Piece.Rest, Piece.Op, Num.Print;
    assert ([x] + rest)[1..] == rest;
  }

  lemma {:induction false} CapsNone(count: nat, stringBytes: nat)
    ensures WithinCaps(count, stringBytes, [])
  {}

  lemma {:induction false} CapsNext(count: nat, stringBytes: nat, v: ModuleValue, rest: seq<ModuleValue>)
    ensures WithinCaps(count, stringBytes, [v] + rest) <==>
              !OverCap(count, stringBytes, v)
                  && WithinCaps(count + 1, stringBytes + (if v.Text? then |v.s| else 0), rest)
  {
    hide OverCap;
    assert ([v] + rest)[1..] == rest;
  }

  // ----- module identifiers -----

  function Pow64(n: nat): (m: nat)
    ensures m >= 1
  {
    if n == 0 then 1 else 64 * Pow64(n - 1)
  }

  lemma {:induction false} PackOfDigits(h: nat, n: nat)
    requires h < Pow64(n)
    ensures PackDigits(NameDigits(h, n)) == h
    decreases n
  {
    if n > 0 {
      PackOfDigits(h / 64, n - 1);
      var ds := NameDigits(h, n);
      assert ds[..n - 1] == NameDigits(h / 64, n - 1) && ds[n - 1] == h % 64;
    }
  }

  lemma CodeOfChar(k: nat)
    requires k < 64
    ensures IsNameChar(NameChar(k)) && CodeOf(NameChar(k)) == k
  {}

  lemma NineDigits()
    ensures Pow64(9) == 0x40_0000_0000_0000
  {
    assert Pow64(3) == 0x4_0000;
    assert Pow64(6) == 0x10_0000_0000;
  }

  /** Every 64-bit identifier is that of its name and version. */
  lemma IdIsModule(id: nat)
    requires id < U64
    ensures IsName(ModuleName(id)) && ModuleId(ModuleName(id), id % 1024) == id
  {
    hide NameChar, CodeOf, IsNameChar, PackDigits, NameDigits, Pow64;
    var ds, name := NameDigits(id / 1024, 9), ModuleName(id);
    forall i | 0 <= i < 9
      ensures IsNameChar(name[i]) && CodeOf(name[i]) == ds[i]
    {
      CodeOfChar(ds[i]);
    }
    assert Codes(name) == ds;
    NineDigits();
    PackOfDigits(id / 1024, 9);
  }

  lemma PayloadOf(env: Env, d: Bytes, p: nat) returns (v: Val)
    requires p <= |d| && ReadValue(env, T_MODULE_2, d, p).Ok?
    ensures v.Fits(env) && v.Type() == T_MODULE_2 && At(d, p, v.Print(env))
  {
    hide ReadModule, ReadLengthValue, ModuleName, WithinCaps, At, PrintPieces, Piece.Valid, EndMark, ModuleId, IsName;
    hide TextBytes;
    hide ValueFormat.Values, PrintLen, LenFits;
    var id := NumOf(d, p);
    NumBelow(id);
    IdIsModule(id.n);
    var q := p + |id.Print()|;
    var pieces, end := PiecesOf(env, true, [], 0, d, q);
    CapsAre(0, 0, ValueFormat.Values(env, pieces));
    v := Payload(ModuleName(id.n), id.n % 1024, id.f, pieces, end);
    AtJoin(d, p, id.Print(), PrintPieces(pieces) + EndMark(end).Print());
  }

  lemma NumBelow(x: Num)
    requires x.Valid()
    ensures x.n < U64
  {}

  // ----- any value -----

  lemma {:induction false} CountedElements(env: Env, t: Byte, d: Bytes, p: nat)
    requires p <= |d| && IsPlainType(t) && ReadValue(env, t, d, p).Ok?
    ensures var n := ReadCount(d, p); n.Ok? && ReadElements(env, t, n.value, d, n.pos).Ok?
  {
    hide ReadCount, ReadElements;
  }

  lemma {:induction false} CountedNodes(env: Env, v2: bool, d: Bytes, p: nat)
    requires p <= |d| && ReadValue(env, if v2 then T_LIST_QUICKLIST_2 else T_LIST_QUICKLIST, d, p).Ok?
    ensures var n := ReadCount(d, p); n.Ok? && ReadNodes(v2, n.value, [], d, n.pos).Ok?
  {
    hide ReadCount, ReadNodes;
  }

  lemma PlainValueOf(env: Env, t: Byte, d: Bytes, p: nat) returns (v: Val)
    requires p <= |d| && IsPlainType(t) && ReadValue(env, t, d, p).Ok?
    ensures v.Fits(env) && v.Type() == t && At(d, p, v.Print(env))
  {
    hide ReadValue, ReadCount, ReadElements, At, PrintLen, LenFits, Concat, PrintElems, AllFit;
    CountedElements(env, t, d, p);
    var count := CountOf(d, p);
    var xs := ElemsOf(env, t, count.n, d, p + |count.Print()|);
    v := Val.Plain(t, count.f, xs);
    AtJoin(d, p, count.Print(), Concat(PrintElems(env, t, xs)));
  }

  lemma QuicklistOf(env: Env, v2: bool, d: Bytes, p: nat) returns (v: Val)
    requires p <= |d| && ReadValue(env, if v2 then T_LIST_QUICKLIST_2 else T_LIST_QUICKLIST, d, p).Ok?
    ensures v.Fits(env) && v.Type() == (if v2 then T_LIST_QUICKLIST_2 else T_LIST_QUICKLIST) && At(d, p, v.Print(env))
  {
    hide ReadValue, ReadCount, ReadNodes, At, PrintLen, LenFits, Concat, PrintListNodes, AllElements, ListNode.Fits;
    CountedNodes(env, v2, d, p);
    var count := CountOf(d, p);
    var nodes := ListNodesOf(v2, count.n, [], d, p + |count.Print()|);
    v := Quicklist(v2, count.f, nodes);
    AtJoin(d, p, count.Print(), Concat(PrintListNodes(v2, nodes)));
  }

  lemma BlobValueOf(env: Env, t: Byte, d: Bytes, p: nat) returns (v: Val)
    requires p <= |d| && IsBlobType(t) && ReadValue(env, t, d, p).Ok?
    ensures v.Fits(env) && v.Type() == t && At(d, p, v.Print(env))
  {
    hide ReadString, DecodeBlob, StrFits, PrintStr, Meaning, At, Val.Fits, Val.Type, Val.Print;
    var e := StrOfBytes(d, p);
    v := BlobOf(env, t, e);
  }

  lemma NoDecoder(env: Env, t: Byte, d: Bytes, p: nat)
    requires p <= |d| && ReadValue(env, t, d, p).Ok?
    ensures IsBlobType(t) || IsPlainType(t) || t == T_LIST_QUICKLIST || t == T_LIST_QUICKLIST_2 || IsStreamType(t)
            || t == T_MODULE_2
  {
    hide ReadString, ReadCount, ReadElements, ReadNodes, ReadStream, ReadModule, DecodeBlob;
  }

  lemma StreamValueRead(env: Env, t: Byte, d: Bytes, p: nat)
    requires p <= |d| && IsStreamType(t)
    ensures ReadValue(env, t, d, p) == ReadStream(t, d, p)
  {
    hide ReadString, ReadStream;
  }

  /** Whatever value the reader accepts, of whatever type, is the printed form of one that fits. */
  lemma ValueFrom(env: Env, t: Byte, d: Bytes, p: nat) returns (v: Val)
    requires p <= |d| && ReadValue(env, t, d, p).Ok?
    ensures v.Fits(env) && v.Type() == t && At(d, p, v.Print(env))
    ensures ReadValue(env, t, d, p) == Ok(v.Value(env), p + |v.Print(env)|)
  {
    hide ReadValue, ReadStream, At, IsBlobType, ValueAlone, ValueOf, StreamParts.Valid, StreamParts.Print, AllEntries;
    NoDecoder(env, t, d, p);
    if IsBlobType(t) {
      v := BlobValueOf(env, t, d, p);
    } else if IsPlainType(t) {
      v := PlainValueOf(env, t, d, p);
    } else if t == T_LIST_QUICKLIST || t == T_LIST_QUICKLIST_2 {
      v := QuicklistOf(env, t == T_LIST_QUICKLIST_2, d, p);
    } else if IsStreamType(t) {
      StreamValueRead(env, t, d, p);
      var parts := StreamOf(t, d, p);
      v := Entries(t, parts);
    } else {
      v := PayloadOf(env, d, p);
    }
    hide Val.Fits, Val.Type, Val.Print, Val.Value;
    ValueReads(env, v);
    ValueAt(env, t, d, p, v.Print(env));
  }
}
