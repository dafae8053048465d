/**
 The encodings of a collection of integers are observationally equal: whichever one a file uses, the
 reader delivers the same byte strings.
 */
module Encodings {
  import opened Common
  import opened Compact
  import opened Types
  import opened Wire
  import opened Printing
  import BitLists
  import Intset
  import Listpack
  import Ziplist

  /** An integer kept as an integer, or as its decimal text. */
  predicate Spells(e: CompactEntry, x: int) { e == Int(x) || e == CompactEntry.Str(Decimal(x)) }

  predicate SpellsAll(es: seq<CompactEntry>, xs: seq<int>) {
    |es| == |xs| && forall i :: 0 <= i < |xs| ==> Spells(es[i], xs[i])
  }

  lemma {:induction false} DecimalAt(xs: seq<int>, i: nat)
    requires i < |xs|
    ensures Intset.DecimalAll(xs)[i] == Decimal(xs[i])
  {
    if i > 0 { DecimalAt(xs[1..], i - 1); }
  }

  lemma {:induction false} SpelledTexts(es: seq<CompactEntry>, xs: seq<int>)
    requires SpellsAll(es, xs)
    ensures IntoBytesAll(es) == Intset.DecimalAll(xs)
  {
    hide Decimal;
    forall i | 0 <= i < |xs|
      ensures IntoBytesAll(es)[i] == Intset.DecimalAll(xs)[i]
    {
      assert Spells(es[i], xs[i]);
      DecimalAt(xs, i);
    }
  }

  // ----- one blob -----

  ghost predicate InListpack(d: Bytes, xs: seq<int>) {
    exists items :: Listpack.Holds(d, items) && SpellsAll(Listpack.Entries(items), xs)
  }

  ghost predicate InZiplist(d: Bytes, xs: seq<int>) {
    exists items :: Ziplist.Holds(d, items) && SpellsAll(Ziplist.Entries(items), xs)
  }

  ghost predicate InIntset(d: Bytes, xs: seq<int>) { exists w :: Intset.Holds(d, w, xs) }

  lemma {:induction false} ListpackTexts(d: Bytes, xs: seq<int>)
    requires InListpack(d, xs)
    ensures Listpack.DecodeSpec(d).Success? && IntoBytesAll(Listpack.DecodeSpec(d).value) == Intset.DecimalAll(xs)
  {
    hide Listpack.Holds, SpellsAll, Listpack.DecodeSpec, Listpack.Entries;
    var items :| Listpack.Holds(d, items) && SpellsAll(Listpack.Entries(items), xs);
    Listpack.AcceptsExactlyLayouts(d, Listpack.Entries(items));
    SpelledTexts(Listpack.Entries(items), xs);
  }

  lemma {:induction false} ZiplistTexts(d: Bytes, xs: seq<int>)
    requires InZiplist(d, xs)
    ensures Ziplist.DecodeSpec(d).Success? && IntoBytesAll(Ziplist.DecodeSpec(d).value) == Intset.DecimalAll(xs)
  {
    hide Ziplist.Holds, SpellsAll, Ziplist.DecodeSpec, Ziplist.Entries;
    var items :| Ziplist.Holds(d, items) && SpellsAll(Ziplist.Entries(items), xs);
    Ziplist.AcceptsExactlyLayouts(d, Ziplist.Entries(items));
    SpelledTexts(Ziplist.Entries(items), xs);
  }

  lemma {:induction false} IntsetTexts(d: Bytes, xs: seq<int>)
    requires InIntset(d, xs)
    ensures Intset.DecodeSpec(d) == Success(Intset.DecimalAll(xs))
  {
    hide Intset.Holds, Intset.DecodeSpec;
    var w :| Intset.Holds(d, w, xs);
    Intset.AcceptsExactlyLayouts(d, Intset.DecimalAll(xs));
  }

  // ----- plain collections -----

  /** Strings that read as the integers' decimal texts: integer-encoded, plain or compressed. */
  ghost predicate SpellsStrings(ss: seq<StrEnc>, xs: seq<int>) {
    |ss| == |xs| && forall i :: 0 <= i < |xs| ==> StrFits(ss[i]) && Meaning(ss[i]) == Decimal(xs[i])
  }

  ghost function Printed(ss: seq<StrEnc>): (bs: seq<Bytes>)
    requires forall i :: 0 <= i < |ss| ==> StrFits(ss[i])
    ensures |bs| == |ss|
  {
    if ss == [] then [] else [PrintStr(ss[0])] + Printed(ss[1..])
  }

  lemma StringElement(env: Env, t: Byte, s: StrEnc)
    requires (t == T_SET || t == T_LIST) && StrFits(s)
    ensures ElementAlone(env, t, PrintStr(s))
    ensures ReadElement(env, t, PrintStr(s), 0).value == if t == T_SET then Set([Meaning(s)]) else List([Meaning(s)])
  {
    hide PrintStr, Meaning, StrFits, ReadString;
    StrRoundTrip(s);
  }

  lemma {:induction false} StringsCollect(env: Env, t: Byte, ss: seq<StrEnc>, xs: seq<int>)
    requires (t == T_SET || t == T_LIST) && SpellsStrings(ss, xs)
    ensures forall b | b in Printed(ss) :: ElementAlone(env, t, b)
    ensures Collect(env, t, Printed(ss)) == if t == T_SET then Set(Intset.DecimalAll(xs))
            else List(Intset.DecimalAll(xs))
  {
    hide PrintStr, Meaning, StrFits, ReadElement, ElementAlone, Decimal;
    if ss != [] {
      StringsCollect(env, t, ss[1..], xs[1..]);
      StringElement(env, t, ss[0]);
      var bs := Printed(ss);
      assert bs[0] == PrintStr(ss[0]) && bs[1..] == Printed(ss[1..]);
      assert forall b | b in bs :: b == bs[0] || b in bs[1..];
    }
  }

  // ----- quicklists -----

  /** One quicklist node, as written: in the first version a ziplist; in the second, after its tag, a
      listpack or one element. */
  ghost predicate NodeWritten(v2: bool, b: Bytes, xs: seq<int>) {
    if !v2 then exists e :: StrFits(e) && InZiplist(Meaning(e), xs) && b == PrintStr(e)
    else
      exists f, e :: StrFits(e) && (PackedWritten(f, e, b, xs) || SingleWritten(f, e, b, xs))
  }

  ghost predicate PackedWritten(f: LenForm, e: StrEnc, b: Bytes, xs: seq<int>)
    requires StrFits(e)
  {
    LenFits(2, f) && InListpack(Meaning(e), xs) && b == PrintLen(2, f) + PrintStr(e)
  }

  ghost predicate SingleWritten(f: LenForm, e: StrEnc, b: Bytes, xs: seq<int>)
    requires StrFits(e)
  {
    LenFits(1, f) && |xs| == 1 && Meaning(e) == Decimal(xs[0]) && b == PrintLen(1, f) + PrintStr(e)
  }

  /** A node that the reader takes for these integers. */
  ghost predicate NodeSpells(v2: bool, b: Bytes, xs: seq<int>) {
    && NodeAlone(v2, b)
    && ReadNode(v2, b, 0).value == Intset.DecimalAll(xs)
  }

  lemma ZiplistNode(e: StrEnc, xs: seq<int>)
    requires StrFits(e) && InZiplist(Meaning(e), xs)
    ensures NodeSpells(false, PrintStr(e), xs)
  {
    hide PrintStr, Meaning, StrFits, ReadString, Ziplist.DecodeSpec, InZiplist;
    StrRoundTrip(e);
    ZiplistTexts(Meaning(e), xs);
  }

  /** In version 2 a node is a container tag and then a string. */
  lemma TaggedNode(container: nat, f: LenForm, e: StrEnc)
    requires (container == 1 || container == 2) && LenFits(container, f) && StrFits(e)
    ensures var b := PrintLen(container, f) + PrintStr(e);
            ReadLengthValue(b, 0) == Ok(container, |PrintLen(container, f)|)
            && ReadString(b, |PrintLen(container, f)|) == Ok(Meaning(e), |b|)
  {
    hide PrintLen, PrintStr, Meaning, StrFits, ReadString, ReadLengthValue, LenFits, LenAlone, StrAlone, LenOf, StrOf;
    var b := PrintLen(container, f) + PrintStr(e);
    assert At(b, 0, b);
    AtSplit(b, 0, PrintLen(container, f), PrintStr(e));
    LenRoundTrip(container, f);
    LenAt(b, 0, PrintLen(container, f));
    StrRoundTrip(e);
    StrAt(b, |PrintLen(container, f)|, PrintStr(e));
  }

  lemma PackedNode(f: LenForm, e: StrEnc, xs: seq<int>)
    requires LenFits(2, f) && StrFits(e) && InListpack(Meaning(e), xs)
    ensures NodeSpells(true, PrintLen(2, f) + PrintStr(e), xs)
  {
    hide PrintLen, PrintStr, Meaning, StrFits, ReadString, ReadLengthValue, LenFits, Listpack.DecodeSpec, InListpack;
    TaggedNode(2, f, e);
    ListpackTexts(Meaning(e), xs);
  }

  lemma PlainNode(f: LenForm, e: StrEnc, x: int)
    requires LenFits(1, f) && StrFits(e) && Meaning(e) == Decimal(x)
    ensures NodeSpells(true, PrintLen(1, f) + PrintStr(e), [x])
  {
    hide PrintLen, PrintStr, Meaning, StrFits, ReadString, ReadLengthValue, LenFits, Decimal;
    TaggedNode(1, f, e);
    assert Intset.DecimalAll([x]) == [Decimal(x)];
  }

  lemma WrittenSpells(v2: bool, b: Bytes, xs: seq<int>)
    requires NodeWritten(v2, b, xs)
    ensures NodeSpells(v2, b, xs)
  {
    hide PrintLen, PrintStr, Meaning, StrFits, LenFits, NodeSpells, InZiplist, InListpack, Decimal;
    if !v2 {
      var e :| StrFits(e) && InZiplist(Meaning(e), xs) && b == PrintStr(e);
      ZiplistNode(e, xs);
    } else {
      var f, e :| StrFits(e) && (PackedWritten(f, e, b, xs) || SingleWritten(f, e, b, xs));
      if PackedWritten(f, e, b, xs) {
        PackedNode(f, e, xs);
      } else {
        PlainNode(f, e, xs[0]);
        assert xs == [xs[0]];
      }
    }
  }

  function Flatten(parts: seq<seq<int>>): seq<int> {
    if parts == [] then [] else parts[0] + Flatten(parts[1..])
  }

  lemma {:induction false} DecimalAppend(a: seq<int>, b: seq<int>)
    ensures Intset.DecimalAll(a + b) == Intset.DecimalAll(a) + Intset.DecimalAll(b)
  {
    hide Decimal;
    if a == [] {
      assert a + b == b;
    } else {
      DecimalAppend(a[1..], b);
      assert (a + b)[1..] == a[1..] + b;
    }
  }

  /** However a list is cut into nodes, and whatever the nodes are, its elements are the same. */
  lemma {:induction false} NodesSpell(v2: bool, bs: seq<Bytes>, parts: seq<seq<int>>)
    requires |bs| == |parts| && forall i :: 0 <= i < |bs| ==> NodeSpells(v2, bs[i], parts[i])
    ensures forall b | b in bs :: NodeAlone(v2, b)
    ensures NodeElements(v2, bs) == Intset.DecimalAll(Flatten(parts))
  {
    hide NodeAlone, ReadNode, Decimal;
    assert forall i :: 0 <= i < |bs| && NodeSpells(v2, bs[i], parts[i]) ==> NodeAlone(v2, bs[i]);
    if bs != [] {
      NodesSpell(v2, bs[1..], parts[1..]);
      DecimalAppend(parts[0], Flatten(parts[1..]));
      assert NodeSpells(v2, bs[0], parts[0]);
    }
  }

  // ----- fields and scores in compact hashes and sorted sets -----

  /** A compact hash: entries alternate field and value, and an odd number is corruption. */
  lemma {:induction false} HashPairsAt(es: seq<CompactEntry>, i: nat)
    requires HashPairs(es).Success? && i < |es| / 2
    ensures HashPairs(es).value[i] == HashField(es[2 * i].IntoBytes(), es[2 * i + 1].IntoBytes(), None)
    decreases |es|
  {
    if i > 0 { HashPairsAt(es[2..], i - 1); }
  }

  predicate AllScores(env: Env, es: seq<CompactEntry>) {
    forall i :: 0 <= i < |es| / 2 ==> ToDouble(env, es[2 * i + 1]).Some?
  }

  lemma ShiftScores(env: Env, es: seq<CompactEntry>)
    requires |es| % 2 == 0 && es != []
    ensures AllScores(env, es) <==> ToDouble(env, es[1]).Some? && AllScores(env, es[2..])
  {
    hide ToDouble;
    var rest := es[2..];
    if AllScores(env, es) {
      assert ToDouble(env, es[2 * 0 + 1]).Some?;
      forall i | 0 <= i < |rest| / 2
        ensures ToDouble(env, rest[2 * i + 1]).Some?
      {
        assert ToDouble(env, es[2 * (i + 1) + 1]).Some?;
      }
    }
    if ToDouble(env, es[1]).Some? && AllScores(env, rest) {
      forall i | 0 <= i < |es| / 2
        ensures ToDouble(env, es[2 * i + 1]).Some?
      {
        if i > 0 { assert ToDouble(env, rest[2 * (i - 1) + 1]).Some?; }
      }
    }
  }

  lemma {:induction false} ZsetAccepts(env: Env, es: seq<CompactEntry>)
    ensures ZsetPairs(env, es).Success? <==> |es| % 2 == 0 && AllScores(env, es)
    decreases |es|
  {
    hide ToDouble, AllScores;
    if |es| % 2 == 0 {
      if es == [] {
        assert AllScores(env, es) by { NoScores(env); }
      } else {
        ZsetAccepts(env, es[2..]);
        ShiftScores(env, es);
      }
    }
  }

  lemma NoScores(env: Env)
    ensures AllScores(env, [])
  {}

  lemma {:induction false} ZsetPairsAt(env: Env, es: seq<CompactEntry>, i: nat)
    requires ZsetPairs(env, es).Success? && i < |es| / 2
    ensures ToDouble(env, es[2 * i + 1]).Some?
    ensures ZsetPairs(env, es).value[i] == (es[2 * i].IntoBytes(), ToDouble(env, es[2 * i + 1]).value)
    decreases |es|
  {
    hide ToDouble;
    if i > 0 { ZsetPairsAt(env, es[2..], i - 1); }
  }

  /** A compact sorted set: entries alternate member and score, and it is corrupt if and only if their
      number is odd or a score is no number. */
  lemma {:induction false} ZsetPairsAre(env: Env, es: seq<CompactEntry>)
    ensures ZsetPairs(env, es).Success? <==>
              |es| % 2 == 0 && forall i :: 0 <= i < |es| / 2 ==> ToDouble(env, es[2 * i + 1]).Some?
    ensures ZsetPairs(env, es).Success? ==>
              forall i :: 0 <= i < |es| / 2 ==>
                ZsetPairs(env, es).value[i] == (es[2 * i].IntoBytes(), ToDouble(env, es[2 * i + 1]).value)
  {
    hide ToDouble, ZsetPairs, CompactEntry.IntoBytes;
    ZsetAccepts(env, es);
    if ZsetPairs(env, es).Success? {
      forall i | 0 <= i < |es| / 2
        ensures ZsetPairs(env, es).value[i] == (es[2 * i].IntoBytes(), ToDouble(env, es[2 * i + 1]).value)
      {
        ZsetPairsAt(env, es, i);
      }
    }
  }

  /** A listpack and a ziplist whose entries have the same texts read as the same hash. */
  lemma HashesReadAlike(env: Env, listpack: Bytes, ziplist: Bytes)
    requires Listpack.DecodeSpec(listpack).Success? && Ziplist.DecodeSpec(ziplist).Success?
    requires IntoBytesAll(Listpack.DecodeSpec(listpack).value) == IntoBytesAll(Ziplist.DecodeSpec(ziplist).value)
    ensures DecodeBlob(env, T_HASH_LISTPACK, listpack) == DecodeBlob(env, T_HASH_ZIPLIST, ziplist)
  {
    hide Listpack.DecodeSpec, Ziplist.DecodeSpec, HashPairs;
    SameHashPairs(Listpack.DecodeSpec(listpack).value, Ziplist.DecodeSpec(ziplist).value);
  }

  lemma {:induction false} SameHashPairs(a: seq<CompactEntry>, b: seq<CompactEntry>)
    requires IntoBytesAll(a) == IntoBytesAll(b)
    ensures HashPairs(a) == HashPairs(b)
  {
    hide HashPairs;
    assert |a| == |IntoBytesAll(a)| == |IntoBytesAll(b)| == |b|;
    if |a| % 2 == 0 {
      forall i | 0 <= i < |a| / 2
        ensures HashPairs(a).value[i] == HashPairs(b).value[i]
      {
        HashPairsAt(a, i);
        HashPairsAt(b, i);
        assert IntoBytesAll(a)[2 * i] == IntoBytesAll(b)[2 * i];
        assert IntoBytesAll(a)[2 * i + 1] == IntoBytesAll(b)[2 * i + 1];
      }
      assert HashPairs(a).value == HashPairs(b).value;
    }
  }

  // ----- elements of plain collections -----

  lemma TwoStrings(a: StrEnc, b: StrEnc, tail: Bytes)
    requires StrFits(a) && StrFits(b)
    ensures var d := PrintStr(a) + (PrintStr(b) + tail);
            var p := |PrintStr(a)|;
            var q := p + |PrintStr(b)|;
            && ReadString(d, 0) == Ok(Meaning(a), p) && ReadString(d, p) == Ok(Meaning(b), q) && At(d, q, tail)
            && q + |tail| == |d|
  {
    hide PrintStr, Meaning, StrFits, ReadString, StrAlone, StrOf;
    var d := PrintStr(a) + (PrintStr(b) + tail);
    assert At(d, 0, d);
    AtSplit(d, 0, PrintStr(a), PrintStr(b) + tail);
    AtSplit(d, |PrintStr(a)|, PrintStr(b), tail);
    StrRoundTrip(a);
    StrRoundTrip(b);
    StrAt(d, 0, PrintStr(a));
    StrAt(d, |PrintStr(a)|, PrintStr(b));
  }

  /** A field and its value. */
  lemma HashElement(env: Env, f: StrEnc, v: StrEnc)
    requires StrFits(f) && StrFits(v)
    ensures var b := PrintStr(f) + PrintStr(v);
            && ElementAlone(env, T_HASH, b)
            && ReadElement(env, T_HASH, b, 0).value == Hash([HashField(Meaning(f), Meaning(v), None)])
  {
    hide PrintStr, Meaning, StrFits, ReadString;
    TwoStrings(f, v, []);
    assert PrintStr(v) + [] == PrintStr(v);
  }

  /** A field, its value and its expiry, where -1 stands for none. */
  lemma ExpiringHashElement(env: Env, f: StrEnc, v: StrEnc, ttl: int)
    requires StrFits(f) && StrFits(v) && FitsInt(ttl, 8)
    ensures var b := PrintStr(f) + (PrintStr(v) + WriteInt(ttl, 8));
            && ElementAlone(env, T_HASH_2, b)
            && ReadElement(env, T_HASH_2, b, 0).value
               == Hash([HashField(Meaning(f), Meaning(v), if ttl == -1 then None else Some(ttl))])
  {
    hide PrintStr, Meaning, StrFits, ReadString, FitsInt, WriteInt, ReadInt;
    TwoStrings(f, v, WriteInt(ttl, 8));
    ReadWriteInt(ttl, 8);
  }

  lemma StringThen(a: StrEnc, tail: Bytes)
    requires StrFits(a)
    ensures var d := PrintStr(a) + tail;
            var p := |PrintStr(a)|;
            ReadString(d, 0) == Ok(Meaning(a), p) && At(d, p, tail) && p + |tail| == |d|
  {
    hide PrintStr, Meaning, StrFits, ReadString, StrAlone, StrOf;
    var d := PrintStr(a) + tail;
    assert At(d, 0, d);
    AtSplit(d, 0, PrintStr(a), tail);
    StrRoundTrip(a);
    StrAt(d, 0, PrintStr(a));
  }

  /** A member and a score of eight bytes. */
  lemma BinaryScoreElement(env: Env, m: StrEnc, score: Bytes)
    requires StrFits(m) && |score| == 8
    ensures var b := PrintStr(m) + score;
            && ElementAlone(env, T_ZSET_2, b)
            && ReadElement(env, T_ZSET_2, b, 0).value == SortedSet([(Meaning(m), env.doubleOf(score))])
  {
    hide PrintStr, Meaning, StrFits, ReadString;
    StringThen(m, score);
  }

  /** A member and a score as text of up to 252 bytes, or one of the three special marks. */
  lemma TextScoreElement(env: Env, m: StrEnc, text: Bytes, x: F64)
    requires StrFits(m) && |text| <= 252 && env.parseDouble(text) == Some(x)
    ensures var b := PrintStr(m) + ([|text|] + text);
            && ElementAlone(env, T_ZSET, b)
            && ReadElement(env, T_ZSET, b, 0).value == SortedSet([(Meaning(m), x)])
  {
    hide PrintStr, Meaning, StrFits, ReadString;
    var tail := [|text|] + text;
    StringThen(m, tail);
    var d, p := PrintStr(m) + tail, |PrintStr(m)|;
    assert d[p] == d[p..p + |tail|][0];
    assert d[p + 1..p + 1 + |text|] == d[p..p + |tail|][1..];
  }

  lemma SpecialScoreElement(env: Env, m: StrEnc, mark: Byte)
    requires StrFits(m) && mark >= 253
    ensures var b := PrintStr(m) + [mark];
            && ElementAlone(env, T_ZSET, b)
            && ReadElement(env, T_ZSET, b, 0).value
               == SortedSet([(Meaning(m), if mark == 253 then NaN else if mark == 254 then PosInf else NegInf)])
  {
    hide PrintStr, Meaning, StrFits, ReadString;
    StringThen(m, [mark]);
    var d, p := PrintStr(m) + [mark], |PrintStr(m)|;
    assert d[p] == d[p..p + 1][0];
  }

  // ----- the main statements -----

  /** One list of integers, four ways to store a set of them: intset, listpack and plain strings all
      read as the same set; ziplist and plain strings as the same list. */
  lemma {:induction false} IntegersReadAlike(env: Env, xs: seq<int>, intset: Bytes, listpack: Bytes, ziplist: Bytes,
      f: LenForm, ss: seq<StrEnc>)
    requires InIntset(intset, xs) && InListpack(listpack, xs) && InZiplist(ziplist, xs) && SpellsStrings(ss, xs)
    requires |xs| <= MAX_ALLOC_BYTES && LenFits(|xs|, f)
    ensures var texts := Intset.DecimalAll(xs);
            && DecodeBlob(env, T_SET_INTSET, intset) == Success(Set(texts))
            && DecodeBlob(env, T_SET_LISTPACK, listpack) == Success(Set(texts))
            && DecodeBlob(env, T_LIST_ZIPLIST, ziplist) == Success(List(texts))
            && var b := PrintLen(|xs|, f) + Concat(Printed(ss));
               && ValueAlone(env, T_SET, b) && ValueOf(env, T_SET, b) == Set(texts)
               && ValueAlone(env, T_LIST, b) && ValueOf(env, T_LIST, b) == List(texts)
  {
    hide InIntset, InListpack, InZiplist, Listpack.DecodeSpec, Ziplist.DecodeSpec, Intset.DecodeSpec, IntoBytesAll;
    hide PrintLen, LenFits, Concat, ValueAlone, ValueOf, ElementAlone, Collect, SpellsStrings, Printed;
    hide Intset.DecimalAll;
    IntsetTexts(intset, xs);
    ListpackTexts(listpack, xs);
    ZiplistTexts(ziplist, xs);
    SpelledLength(ss, xs);
    StringsCollect(env, T_SET, ss, xs);
    StringsCollect(env, T_LIST, ss, xs);
    PlainRoundTrip(env, T_SET, f, Printed(ss));
    PlainRoundTrip(env, T_LIST, f, Printed(ss));
  }

  // ----- every list of integers has all these forms -----

  predicate AllWide(xs: seq<int>) { forall x | x in xs :: FitsInt(x, 8) }

  ghost function ListpackItems(xs: seq<int>): (items: seq<Listpack.Item>)
    ensures |items| == |xs|
  {
    seq(|xs|, i requires 0 <= i < |xs| => Listpack.Item(Int(xs[i]), Listpack.Int64, Listpack.EncodeBacklen(9, 1)))
  }

  lemma WideItem(x: int)
    requires FitsInt(x, 8)
    ensures var it := Listpack.Item(Int(x), Listpack.Int64, Listpack.EncodeBacklen(9, 1));
            it.Valid() && |it.Stored()| == 10
    ensures var it := Ziplist.Item([0], Int(x), Ziplist.Int64); it.Valid() && |it.Stored()| == 10
  {
    hide FitsInt, WriteInt, Listpack.BacklenSpec;
    Listpack.WriterItemValid(Int(x), Listpack.Int64, 1);
  }

  lemma {:induction false} ListpackBody(xs: seq<int>)
    requires AllWide(xs)
    ensures Listpack.ValidItems(ListpackItems(xs)) && |Listpack.Body(ListpackItems(xs))| == 10 * |xs| + 1
    ensures SpellsAll(Listpack.Entries(ListpackItems(xs)), xs)
    decreases |xs|
  {
    hide FitsInt, Listpack.Item.Valid, Listpack.Item.Stored, Decimal;
    if xs != [] {
      var items := ListpackItems(xs);
      assert items[1..] == ListpackItems(xs[1..]);
      assert FitsInt(xs[0], 8);
      WideItem(xs[0]);
      ListpackBody(xs[1..]);
      assert forall it | it in items :: it == items[0] || it in items[1..];
      SpellsNext(Listpack.Entries(items), xs);
    }
  }

  ghost function ZiplistItems(xs: seq<int>): (items: seq<Ziplist.Item>)
    ensures |items| == |xs|
  {
    seq(|xs|, i requires 0 <= i < |xs| => Ziplist.Item([0], Int(xs[i]), Ziplist.Int64))
  }

  lemma {:induction false} ZiplistBody(xs: seq<int>)
    requires AllWide(xs)
    ensures Ziplist.ValidItems(ZiplistItems(xs)) && |Ziplist.Body(ZiplistItems(xs))| == 10 * |xs| + 1
    ensures SpellsAll(Ziplist.Entries(ZiplistItems(xs)), xs)
    decreases |xs|
  {
    hide FitsInt, Ziplist.Item.Valid, Ziplist.Item.Stored, Decimal;
    if xs != [] {
      var items := ZiplistItems(xs);
      assert items[1..] == ZiplistItems(xs[1..]);
      assert FitsInt(xs[0], 8);
      WideItem(xs[0]);
      ZiplistBody(xs[1..]);
      assert forall it | it in items :: it == items[0] || it in items[1..];
      SpellsNext(Ziplist.Entries(items), xs);
    }
  }

  lemma SpellsNext(es: seq<CompactEntry>, xs: seq<int>)
    requires es != [] && xs != [] && Spells(es[0], xs[0]) && SpellsAll(es[1..], xs[1..])
    ensures SpellsAll(es, xs)
  {
    hide Spells;
    forall i | 0 <= i < |xs|
      ensures Spells(es[i], xs[i])
    {
      if i > 0 { assert Spells(es[1..][i - 1], xs[1..][i - 1]); }
    }
  }

  lemma {:induction false} DigitsShort(n: nat, k: nat)
    requires 1 <= k && n < BitLists.Pow2(k)
    ensures |Digits(n)| <= k
    decreases k
  {
    if n >= 10 { DigitsShort(n / 10, k - 1); }
  }

  lemma DecimalShort(x: int)
    requires FitsInt(x, 8)
    ensures |Decimal(x)| <= 65
  {
    PowValues();
    BitLists.Pow2Of64();
    DigitsShort(if x >= 0 then x else -x, 64);
  }

  ghost function Texts(xs: seq<int>): seq<StrEnc> {
    seq(|xs|, i requires 0 <= i < |xs| => Plain(Decimal(xs[i]), Bits14))
  }

  lemma TextsSpell(xs: seq<int>)
    requires AllWide(xs)
    ensures SpellsStrings(Texts(xs), xs)
  {
    hide FitsInt, Decimal;
    forall i | 0 <= i < |xs|
      ensures StrFits(Texts(xs)[i]) && Meaning(Texts(xs)[i]) == Decimal(xs[i])
    {
      assert FitsInt(xs[i], 8);
      DecimalShort(xs[i]);
    }
  }

  lemma HeaderAndBody(size: Bytes, filler: Bytes, body: Bytes)
    ensures var d, n := size + filler + body, |size| + |filler|;
            |d| == n + |body| && d[..|size|] == size && d[n..] == body && At(d, n, body)
  {}

  lemma ListpackBlob(xs: seq<int>) returns (d: Bytes)
    requires AllWide(xs) && |xs| <= Intset.MAX_INTSET_ELEMENTS
    ensures InListpack(d, xs)
  {
    hide SpellsAll, AllWide, Listpack.ValidItems, Listpack.Body, Listpack.Entries, ListpackItems, ToLe;
    ListpackBody(xs);
    var items := ListpackItems(xs);
    var body := Listpack.Body(items);
    PowValues();
    d := ToLe(6 + |body|, 4) + [0, 0] + body;
    HeaderAndBody(ToLe(6 + |body|, 4), [0, 0], body);
    assert Listpack.Holds(d, items);
  }

  lemma ZiplistBlob(xs: seq<int>) returns (d: Bytes)
    requires AllWide(xs) && |xs| <= Intset.MAX_INTSET_ELEMENTS
    ensures InZiplist(d, xs)
  {
    hide SpellsAll, AllWide, Ziplist.ValidItems, Ziplist.Body, Ziplist.Entries, ZiplistItems, ToLe;
    ZiplistBody(xs);
    var items := ZiplistItems(xs);
    var body := Ziplist.Body(items);
    PowValues();
    d := ToLe(10 + |body|, 4) + [0, 0, 0, 0, 0, 0] + body;
    HeaderAndBody(ToLe(10 + |body|, 4), [0, 0, 0, 0, 0, 0], body);
    assert Ziplist.Holds(d, items);
  }

  /** Every list of 64-bit integers that an intset may hold has an intset, a listpack, a ziplist and
      plain strings, so the four do read alike for each of them. */
  lemma StoredEveryWay(xs: seq<int>) returns (intset: Bytes, listpack: Bytes, ziplist: Bytes, ss: seq<StrEnc>)
    requires AllWide(xs) && |xs| <= Intset.MAX_INTSET_ELEMENTS
    ensures InIntset(intset, xs) && InListpack(listpack, xs) && InZiplist(ziplist, xs) && SpellsStrings(ss, xs)
  {
    hide InListpack, InZiplist, SpellsStrings, FitsInt;
    intset := ToLe(8, 4) + ToLe(|xs|, 4) + Intset.Elements(xs, 8);
    assert Intset.Holds(intset, 8, xs);
    listpack := ListpackBlob(xs);
    ziplist := ZiplistBlob(xs);
    ss := Texts(xs);
    TextsSpell(xs);
  }

  lemma SpelledLength(ss: seq<StrEnc>, xs: seq<int>)
    requires SpellsStrings(ss, xs)
    ensures |ss| == |xs| && forall i :: 0 <= i < |ss| ==> StrFits(ss[i])
  {}

  /** Any way of cutting a list of integers into written nodes, in either quicklist version, reads as the
      list. */
  lemma {:induction false} QuicklistsReadAlike(env: Env, v2: bool, f: LenForm, bs: seq<Bytes>, parts: seq<seq<int>>)
    requires |bs| == |parts| && forall i :: 0 <= i < |bs| ==> NodeWritten(v2, bs[i], parts[i])
    requires |bs| <= MAX_ALLOC_BYTES && LenFits(|bs|, f)
    ensures var b := PrintLen(|bs|, f) + Concat(bs);
            var t := if v2 then T_LIST_QUICKLIST_2 else T_LIST_QUICKLIST;
            ValueAlone(env, t, b) && ValueOf(env, t, b) == List(Intset.DecimalAll(Flatten(parts)))
  {
    hide NodeWritten, NodeSpells, NodeAlone, ReadNode, PrintLen, Concat, ValueAlone, ValueOf, LenFits, NodeElements;
    forall i | 0 <= i < |bs|
      ensures NodeSpells(v2, bs[i], parts[i])
    {
      WrittenSpells(v2, bs[i], parts[i]);
    }
    NodesSpell(v2, bs, parts);
    QuicklistRoundTrip(env, v2, f, bs);
  }
}
