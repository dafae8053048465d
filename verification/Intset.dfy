/** Intset blobs: a sorted integer set at one element width, decoded to decimal text. */
module Intset {
  import opened Common
  import opened Compact

  const INTSET_HDR_SIZE: nat := 8
  const MAX_INTSET_ELEMENTS: nat := 10_000_000

  /** `n * w` for the three element widths. */
  function Size(n: nat, w: nat): nat
    requires w in {2, 4, 8}
  {
    if w == 2 then n * 2 else if w == 4 then n * 4 else n * 8
  }

  function Texts(d: Bytes, p: nat, w: nat, n: nat): (ms: seq<Bytes>)
    requires w in {2, 4, 8} && p + Size(n, w) <= |d|
    ensures |ms| == n
    decreases n
  {
    if n == 0 then [] else [Decimal(ReadInt(d[p..p + w]))] + Texts(d, p + w, w, n - 1)
  }

  function DecodeSpec(d: Bytes): Result<seq<Bytes>> {
    if |d| < INTSET_HDR_SIZE then Failure(CorruptData)
    else
      var w, n := Le(d[..4]), Le(d[4..8]);
      if n > MAX_INTSET_ELEMENTS || w !in {2, 4, 8} || |d| != INTSET_HDR_SIZE + Size(n, w) then Failure(CorruptData)
      else Success(Texts(d, INTSET_HDR_SIZE, w, n))
  }

  lemma {:induction false} TextsLast(d: Bytes, p: nat, w: nat, n: nat)
    requires w in {2, 4, 8} && p + Size(n + 1, w) <= |d|
    ensures Texts(d, p, w, n + 1)
         == Texts(d, p, w, n) + [Decimal(ReadInt(d[p + Size(n, w)..p + Size(n + 1, w)]))]
    decreases n
  {
    hide Decimal, ReadInt;
    if n > 0 {
      TextsLast(d, p + w, w, n - 1);
    }
  }

  /** The member loop of `decode`. */
  method DecodeMembers(data: Bytes, encoding: nat, length: nat) returns (members: seq<Bytes>)
    requires encoding in {2, 4, 8} && INTSET_HDR_SIZE + Size(length, encoding) <= |data|
    ensures members == Texts(data, INTSET_HDR_SIZE, encoding, length)
  {
    members := [];
    var pos := INTSET_HDR_SIZE;
    assert Texts(data, INTSET_HDR_SIZE, encoding, 0) == [];
    hide Texts, Decimal, ReadInt;
    for i := 0 to length
      invariant pos == INTSET_HDR_SIZE + Size(i, encoding) <= |data|
      invariant members == Texts(data, INTSET_HDR_SIZE, encoding, i)
    {
      TextsLast(data, INTSET_HDR_SIZE, encoding, i);
      members := members + [Decimal(ReadInt(data[pos..pos + encoding]))];
      pos := pos + encoding;
    }
  }

  method Decode(data: Bytes) returns (r: Result<seq<Bytes>>)
    ensures r == DecodeSpec(data)
  {
    if |data| < INTSET_HDR_SIZE { return Failure(CorruptData); }
    var encoding := Le(data[..4]);
    var length := Le(data[4..8]);
    if length > MAX_INTSET_ELEMENTS { return Failure(CorruptData); }
    if encoding !in {2, 4, 8} { return Failure(CorruptData); }
    var expectedSize := INTSET_HDR_SIZE + Size(length, encoding);
    if |data| != expectedSize { return Failure(CorruptData); }
    var members := DecodeMembers(data, encoding, length);
    r := Success(members);
  }

  // ----- layouts -----

  function Elements(xs: seq<int>, w: nat): (s: Bytes)
    requires w in {2, 4, 8} && forall i | i in xs :: FitsInt(i, w)
    ensures |s| == Size(|xs|, w)
  {
    if xs == [] then [] else WriteInt(xs[0], w) + Elements(xs[1..], w)
  }

  function DecimalAll(xs: seq<int>): (r: seq<Bytes>)
    ensures |r| == |xs|
  {
    if xs == [] then [] else [Decimal(xs[0])] + DecimalAll(xs[1..])
  }

  ghost predicate Holds(d: Bytes, w: nat, xs: seq<int>) {
    && w in {2, 4, 8} && |xs| <= MAX_INTSET_ELEMENTS && (forall i | i in xs :: FitsInt(i, w))
    && d == ToLe(w, 4) + ToLe(|xs|, 4) + Elements(xs, w)
  }

  lemma {:induction false} ElementsDecode(d: Bytes, p: nat, w: nat, xs: seq<int>)
    requires w in {2, 4, 8} && (forall i | i in xs :: FitsInt(i, w)) && At(d, p, Elements(xs, w))
    ensures Texts(d, p, w, |xs|) == DecimalAll(xs)
    decreases |xs|
  {
    hide ReadInt, WriteInt, FitsInt, Decimal;
    if xs != [] {
      AtSplit(d, p, WriteInt(xs[0], w), Elements(xs[1..], w));
      ReadWriteInt(xs[0], w);
      ElementsDecode(d, p + w, w, xs[1..]);
    }
  }

  function IntsFrom(d: Bytes, p: nat, w: nat, n: nat): (xs: seq<int>)
    requires w in {2, 4, 8} && p + Size(n, w) <= |d|
    ensures |xs| == n
    decreases n
  {
    if n == 0 then [] else [ReadInt(d[p..p + w])] + IntsFrom(d, p + w, w, n - 1)
  }

  lemma {:induction false} DecodedElements(d: Bytes, p: nat, w: nat, n: nat)
    requires w in {2, 4, 8} && p + Size(n, w) <= |d|
    ensures var xs := IntsFrom(d, p, w, n);
            && (forall i | i in xs :: FitsInt(i, w)) && d[p..p + Size(n, w)] == Elements(xs, w)
            && DecimalAll(xs) == Texts(d, p, w, n)
    decreases n
  {
    hide ReadInt, WriteInt, FitsInt, Decimal;
    if n > 0 {
      WriteReadInt(d[p..p + w]);
      DecodedElements(d, p + w, w, n - 1);
      assert d[p..p + Size(n, w)] == d[p..p + w] + d[p + w..p + Size(n, w)];
    }
  }

  lemma {:induction false} LayoutDecodes(d: Bytes, w: nat, xs: seq<int>)
    requires Holds(d, w, xs)
    ensures DecodeSpec(d) == Success(DecimalAll(xs))
  {
    hide ReadInt, WriteInt, FitsInt, Decimal;
    PowValues();
    LeOfToLe(w, 4);
    LeOfToLe(|xs|, 4);
    assert d[..4] == ToLe(w, 4) && d[4..8] == ToLe(|xs|, 4);
    assert At(d, INTSET_HDR_SIZE, Elements(xs, w));
    ElementsDecode(d, INTSET_HDR_SIZE, w, xs);
  }

  lemma {:induction false} DecodedIsLayout(d: Bytes)
    requires DecodeSpec(d).Success?
    ensures var xs := IntsFrom(d, INTSET_HDR_SIZE, Le(d[..4]), Le(d[4..8]));
            Holds(d, Le(d[..4]), xs) && DecodeSpec(d) == Success(DecimalAll(xs))
  {
    hide ReadInt, WriteInt, FitsInt, Decimal;
    var w, n := Le(d[..4]), Le(d[4..8]);
    ToLeOfLe(d[..4]);
    ToLeOfLe(d[4..8]);
    DecodedElements(d, INTSET_HDR_SIZE, w, n);
    assert d == d[..4] + d[4..8] + d[8..8 + Size(n, w)];
  }

  /** Round trip and its converse: the members are the decimal texts of the integers stored, at
      whichever of the three widths holds them. */
  lemma AcceptsExactlyLayouts(d: Bytes, ms: seq<Bytes>)
    ensures DecodeSpec(d) == Success(ms) <==> exists w, xs :: Holds(d, w, xs) && DecimalAll(xs) == ms
  {
    hide ReadInt, WriteInt, FitsInt, Decimal, Holds;
    if DecodeSpec(d) == Success(ms) {
      DecodedIsLayout(d);
    }
    forall w, xs | Holds(d, w, xs) && DecimalAll(xs) == ms ensures DecodeSpec(d) == Success(ms) {
      LayoutDecodes(d, w, xs);
    }
  }

  /** Stored integers are read back up to ten million of them, and refused beyond. */
  lemma {:induction false} CapIsTenMillion(w: nat, xs: seq<int>)
    requires w in {2, 4, 8} && |xs| < U32 && forall i | i in xs :: FitsInt(i, w)
    ensures DecodeSpec(ToLe(w, 4) + ToLe(|xs|, 4) + Elements(xs, w))
            == if |xs| <= 10_000_000 then Success(DecimalAll(xs)) else Failure(CorruptData)
  {
    hide ReadInt, WriteInt, FitsInt, Decimal;
    var d := ToLe(w, 4) + ToLe(|xs|, 4) + Elements(xs, w);
    if |xs| <= MAX_INTSET_ELEMENTS {
      LayoutDecodes(d, w, xs);
    } else {
      PowValues();
      LeOfToLe(|xs|, 4);
      assert d[4..8] == ToLe(|xs|, 4);
    }
  }
}
