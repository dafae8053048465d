/**
 Geohash scores: the six-stage bit deinterleave against its meaning bit by bit, and decoding, over
 exact reals, against the encoder that the repository's tests use as its inverse.
 */
module Geohash {
  import opened BitLists
  import opened Common
  import opened Types
  import opened Words

  // ----- numbers as lists of bits, lowest first -----

  /** The bits at even positions; those at odd positions are `Evens(bs[1..])`. */
  function Evens(bs: seq<bool>): (r: seq<bool>)
    ensures |r| == (|bs| + 1) / 2
  {
    if |bs| < 2 then bs else [bs[0]] + Evens(bs[2..])
  }

  /** Two equally long lists woven together, `es` at the even positions. */
  function Weave(es: seq<bool>, os: seq<bool>): (bs: seq<bool>)
    requires |es| == |os|
    ensures |bs| == 2 * |es|
  {
    if es == [] then [] else [es[0], os[0]] + Weave(es[1..], os[1..])
  }

  /** Splitting a woven list gives both lists back, and splitting then weaving is the identity. */
  lemma {:induction false} SplitOfWeave(es: seq<bool>, os: seq<bool>)
    requires |es| == |os| > 0
    ensures Evens(Weave(es, os)) == es && Evens(Weave(es, os)[1..]) == os
  {
    var w := Weave(es, os);
    assert w[0] == es[0] && w[1] == os[0] && w[2..] == Weave(es[1..], os[1..]);
    if |es| == 1 {
      assert w == [es[0], os[0]] && w[1..] == [os[0]] && w[2..] == [];
      assert es == [es[0]] && os == [os[0]];
    } else {
      SplitOfWeave(es[1..], os[1..]);
      assert w[1..][0] == os[0] && w[1..][2..] == w[2..][1..];
      assert Evens(w) == [es[0]] + es[1..] && Evens(w[1..]) == [os[0]] + os[1..];
    }
  }

  lemma {:induction false} WeaveOfSplit(bs: seq<bool>)
    requires |bs| > 0 && |bs| % 2 == 0
    ensures Weave(Evens(bs), Evens(bs[1..])) == bs
  {
    if |bs| == 2 {
      assert bs[2..] == [] && bs[1..] == [bs[1]];
      assert Weave([], []) == [];
      assert Weave([bs[0]], [bs[1]]) == [bs[0], bs[1]];
      assert Evens(bs) == [bs[0]];
    } else {
      WeaveOfSplit(bs[2..]);
      assert bs[1..][2..] == bs[2..][1..];
      assert Evens(bs)[1..] == Evens(bs[2..]) && Evens(bs[1..])[1..] == Evens(bs[2..][1..]);
    }
  }

  /** A number of `m` bits has both halves within half as many, whatever zeros stand above. */
  lemma {:induction false} HalfBelow(bs: seq<bool>, m: nat)
    requires Value(bs) < Pow2(m)
    ensures Value(Evens(bs)) < Pow2((m + 1) / 2)
  {
    if |bs| >= 2 {
      assert bs[1..][1..] == bs[2..];
      assert Value(bs) == Bit(bs[0]) + 2 * (Bit(bs[1]) + 2 * Value(bs[2..]));
      var es := Evens(bs);
      assert es[0] == bs[0] && es[1..] == Evens(bs[2..]);
      if m < 2 {
        assert Pow2(0) == 1 && Pow2(1) == 2;
        assert Value(bs[2..]) < Pow2(0);
        HalfBelow(bs[2..], 0);
      } else {
        assert Pow2(m) == 4 * Pow2(m - 2);
        HalfBelow(bs[2..], m - 2);
        assert (m - 2 + 1) / 2 + 1 == (m + 1) / 2;
      }
    } else if |bs| == 1 {
      if m > 0 { assert Pow2((m + 1) / 2) >= 2; }
      assert bs[1..] == [];
    }
  }

  /** The converse: two halves of `k` bits weave to a number of 2k bits. */
  lemma {:induction false} WeaveBelow(es: seq<bool>, os: seq<bool>, k: nat)
    requires |es| == |os| && Value(es) < Pow2(k) && Value(os) < Pow2(k)
    ensures Value(Weave(es, os)) < Pow2(2 * k)
  {
    if es != [] {
      var w := Weave(es, os);
      assert w[1..][1..] == Weave(es[1..], os[1..]);
      assert Value(w) == Bit(es[0]) + 2 * (Bit(os[0]) + 2 * Value(Weave(es[1..], os[1..])));
      if k == 0 {
        WeaveBelow(es[1..], os[1..], 0);
      } else {
        WeaveBelow(es[1..], os[1..], k - 1);
        assert Pow2(2 * k) == 4 * Pow2(2 * (k - 1));
      }
    }
  }

  // ----- machine words -----

  /** The six stages applied to one of the two halves. */
  function Gather(z: bv64): bv64 {
    var x := (z | (z >> 0)) & 0x5555555555555555;
    var x := (x | (x >> 1)) & 0x3333333333333333;
    var x := (x | (x >> 2)) & 0x0F0F0F0F0F0F0F0F;
    var x := (x | (x >> 4)) & 0x00FF00FF00FF00FF;
    var x := (x | (x >> 8)) & 0x0000FFFF0000FFFF;
    (x | (x >> 16)) & 0x00000000FFFFFFFF
  }

  function Spread(z: bv64): bv64 {
    var x := (z | (z << 16)) & 0x0000FFFF0000FFFF;
    var x := (x | (x << 8)) & 0x00FF00FF00FF00FF;
    var x := (x | (x << 4)) & 0x0F0F0F0F0F0F0F0F;
    var x := (x | (x << 2)) & 0x3333333333333333;
    (x | (x << 1)) & 0x5555555555555555
  }

  /** The test-side inverse on words. */
  function Interleave64(x: bv64, y: bv64): bv64 { Spread(x) | (Spread(y) << 1) }

  /** On every 64-bit word and on every pair of 32-bit words the two pipelines are inverse. */
  lemma WordsInverse(z: bv64, x: bv64, y: bv64)
    requires x & 0xFFFFFFFF == x && y & 0xFFFFFFFF == y
    ensures Interleave64(Gather(z), Gather(z >> 1)) == z
    ensures Gather(Interleave64(x, y)) == x && Gather(Interleave64(x, y) >> 1) == y
  {}

  lemma GatherShift(z: bv64)
    ensures Gather((z >> 1) >> 1) == Gather(z) >> 1
    ensures Gather(z) & 1 == z & 1
  {}

  predicate LowBit(w: bv64) { w & 1 == 1 }

  lemma GatherBits(z: bv64, k: nat)
    ensures WordBits(Gather(z), k + 1) == [LowBit(z)] + WordBits(Gather((z >> 1) >> 1), k)
  {
    hide Gather;
    WordBitsDef(Gather(z), k);
    hide WordBits;
    GatherShift(z);
  }

  lemma TwoBits(z: bv64, k: nat)
    ensures WordBits(z, k + 2) == [LowBit(z), LowBit(z >> 1)] + WordBits((z >> 1) >> 1, k)
  {
    WordBitsDef(z, k + 1);
    WordBitsDef(z >> 1, k);
    hide WordBits;
  }

  lemma {:induction false} OneBit(z: bv64)
    ensures WordBits(z, 1) == [LowBit(z)] && WordBits(z, 0) == []
  {}

  lemma {:induction false} EvensDef(a: bool, b: bool, bs: seq<bool>)
    ensures Evens([a, b] + bs) == [a] + Evens(bs)
  {
    assert ([a, b] + bs)[2..] == bs;
  }

  /** The pipeline gathers exactly the even-position bits of every word. */
  lemma {:induction false} GatherIsEvens(z: bv64, m: nat)
    ensures WordBits(Gather(z), (m + 1) / 2) == Evens(WordBits(z, m))
  {
    hide Gather, WordBits, LowBit;
    if m < 2 {
      OneBit(z);
      OneBit(Gather(z));
      GatherBits(z, 0);
      OneBit(Gather((z >> 1) >> 1));
    } else {
      GatherIsEvens((z >> 1) >> 1, m - 2);
      GatherBits(z, (m - 1) / 2);
      TwoBits(z, m - 2);
      hide Evens;
      EvensDef(LowBit(z), LowBit(z >> 1), WordBits((z >> 1) >> 1, m - 2));
    }
  }

  /** Run one bit further on, as for the second half, it gathers exactly the odd-position ones. */
  lemma {:induction false} GatherIsOdds(z: bv64)
    ensures WordBits(Gather(z >> 1), 32) == Evens(WordBits(z, 64)[1..])
  {
    hide Gather, Evens;
    GatherIsEvens(z >> 1, 63);
    WordBitsDef(z, 63);
    hide WordBits;
  }

  // ----- the pipeline as the code runs it -----

  /** Both halves put in one word. */
  function Both(low: bv64, high: bv64): bv64 { low | (high << 32) }

  function LowHalf(r: bv64): bv64 { r & 0xFFFFFFFF }

  function HighHalf(r: bv64): bv64 { r >> 32 }

  lemma Halves(z: bv64)
    ensures var r := Both(Gather(z), Gather(z >> 1)); LowHalf(r) == Gather(z) && HighHalf(r) == Gather(z >> 1)
  {
    hide *;
    GatherSmall(z);
    GatherSmall(z >> 1);
    HalvesOf(Gather(z), Gather(z >> 1));
  }

  predicate Small(x: bv64) { x & 0xFFFFFFFF == x }

  lemma GatherSmall(z: bv64)
    ensures Small(Gather(z))
  {}

  lemma HalvesOf(x: bv64, y: bv64)
    requires Small(x) && Small(y)
    ensures LowHalf(Both(x, y)) == x && HighHalf(Both(x, y)) == y
  {}

  /** The low half of the result holds the even-position bits, in order, the high half the odd ones. */
  method Deinterleave64(interleaved: bv64) returns (r: bv64)
    ensures WordBits(LowHalf(r), 32) == Evens(WordBits(interleaved, 64))
    ensures WordBits(HighHalf(r), 32) == Evens(WordBits(interleaved, 64)[1..])
  {
    hide LowHalf, HighHalf, WordBits, Evens;
    var x := interleaved;
    var y := interleaved >> 1;
    x := (x | (x >> 0)) & 0x5555555555555555;
    y := (y | (y >> 0)) & 0x5555555555555555;
    x := (x | (x >> 1)) & 0x3333333333333333;
    y := (y | (y >> 1)) & 0x3333333333333333;
    x := (x | (x >> 2)) & 0x0F0F0F0F0F0F0F0F;
    y := (y | (y >> 2)) & 0x0F0F0F0F0F0F0F0F;
    x := (x | (x >> 4)) & 0x00FF00FF00FF00FF;
    y := (y | (y >> 4)) & 0x00FF00FF00FF00FF;
    x := (x | (x >> 8)) & 0x0000FFFF0000FFFF;
    y := (y | (y >> 8)) & 0x0000FFFF0000FFFF;
    x := (x | (x >> 16)) & 0x00000000FFFFFFFF;
    y := (y | (y >> 16)) & 0x00000000FFFFFFFF;
    r := x | (y << 32);
    assert r == Both(Gather(interleaved), Gather(interleaved >> 1));
    hide *;
    Halves(interleaved);
    GatherIsEvens(interleaved, 64);
    GatherIsOdds(interleaved);
  }

  /** The same for any list of 64 bits. */
  method Split(bs: seq<bool>) returns (low: seq<bool>, high: seq<bool>)
    requires |bs| == 64
    ensures low == Evens(bs) && high == Evens(bs[1..])
  {
    hide *;
    var z := BitWord(bs);
    var r := Deinterleave64(z);
    WordHolds(bs);
    low := WordBits(LowHalf(r), 32);
    high := WordBits(HighHalf(r), 32);
  }

  /** The test encoder's interleave weaves the two 32-bit words. */
  lemma {:induction false} InterleaveIsWeave(x: bv64, y: bv64)
    requires x & 0xFFFFFFFF == x && y & 0xFFFFFFFF == y
    ensures WordBits(Interleave64(x, y), 64) == Weave(WordBits(x, 32), WordBits(y, 32))
  {
    hide *;
    var z := Interleave64(x, y);
    WordsInverse(0, x, y);
    GatherIsEvens(z, 64);
    GatherIsOdds(z);
    WeaveOfSplit(WordBits(z, 64));
  }

  // ----- scores and points -----

  const LAT_MIN: real := -85.05112878
  const LAT_MAX: real := 85.05112878
  const LONG_MIN: real := -180.0
  const LONG_MAX: real := 180.0
  const CELLS: nat := 0x400_0000  // 2^26 cells along each axis
  const SCORES: nat := 0x10_0000_0000_0000  // 2^52

  /** The centre of a cell, as the mean of its two edges. */
  function Centre(min: real, max: real, i: nat): real {
    var low := min + (i as real / CELLS as real) * (max - min);
    var high := min + ((i as real + 1.0) / CELLS as real) * (max - min);
    (low + high) / 2.0
  }

  predicate IsScore(score: F64) {
    score.Finite? && score.value >= 0.0 && score.value == score.value.Floor as real && score.value < SCORES as real
  }

  /** Longitude and latitude of a score: odd-position bits are longitude, even ones latitude. */
  function Decode(score: F64): Option<(real, real)> {
    if IsScore(score) then
      var bs := Bits(score.value.Floor, 64);
      Some((Centre(LONG_MIN, LONG_MAX, Value(Evens(bs[1..]))), Centre(LAT_MIN, LAT_MAX, Value(Evens(bs)))))
    else None
  }

  method GeohashDecode(score: F64) returns (r: Option<(real, real)>)
    ensures r == Decode(score)
  {
    if score.NaN? || score.NegInf? || score.PosInf? { return None; }
    if score.value < 0.0 || score.value != score.value.Floor as real || score.value >= SCORES as real { return None; }
    var lat, long := Split(Bits(score.value.Floor, 64));
    hide Bits, Evens, Value;
    var latMin := LAT_MIN + (Value(lat) as real / CELLS as real) * (LAT_MAX - LAT_MIN);
    var latMax := LAT_MIN + ((Value(lat) as real + 1.0) / CELLS as real) * (LAT_MAX - LAT_MIN);
    var longMin := LONG_MIN + (Value(long) as real / CELLS as real) * (LONG_MAX - LONG_MIN);
    var longMax := LONG_MIN + ((Value(long) as real + 1.0) / CELLS as real) * (LONG_MAX - LONG_MIN);
    r := Some(((longMin + longMax) / 2.0, (latMin + latMax) / 2.0));
  }

  /** Rust's saturating `as u32`. */
  function ToU32(x: real): (n: nat)
    ensures n < U32
  {
    if x < 0.0 then 0 else if x >= U32 as real then U32 - 1 else x.Floor
  }

  function Index(min: real, max: real, x: real): nat
    requires min < max
  {
    ToU32((x - min) / (max - min) * CELLS as real)
  }

  /** The test encoder. */
  function Encode(long: real, lat: real): nat {
    Value(Weave(Bits(Index(LAT_MIN, LAT_MAX, lat), 32), Bits(Index(LONG_MIN, LONG_MAX, long), 32)))
  }

  lemma DivideBack(a: real, b: real)
    requires b > 0.0
    ensures a * b / b == a
  {}

  lemma MeanOf(min: real, scale: real, t: real, u: real)
    ensures ((min + t * scale) + (min + u * scale)) / 2.0 - min == (t + u) / 2.0 * scale
  {}

  lemma Inside(w: real, scale: real)
    requires 0.0 < w < 1.0 && scale > 0.0
    ensures 0.0 < w * scale < scale
  {}

  /** How far along its axis a cell's centre is. */
  function Along(i: nat): real { (i as real + 0.5) / CELLS as real }

  lemma CentreAlong(min: real, max: real, i: nat)
    ensures Centre(min, max, i) - min == Along(i) * (max - min)
  {
    var t, u := i as real / CELLS as real, (i as real + 1.0) / CELLS as real;
    assert (t + u) / 2.0 == Along(i);
    MeanOf(min, max - min, t, u);
  }

  lemma AlongInside(i: nat)
    requires i < CELLS
    ensures 0.0 < Along(i) < 1.0 && ToU32(Along(i) * CELLS as real) == i
  {
    assert Along(i) * CELLS as real == i as real + 0.5;
  }

  /** A cell's centre lies strictly inside the limits, and is indexed back to its cell. */
  lemma CentreIndex(min: real, max: real, i: nat)
    requires min < max && i < CELLS
    ensures min < Centre(min, max, i) < max && Index(min, max, Centre(min, max, i)) == i
  {
    hide Centre, Along, ToU32;
    CentreAlong(min, max, i);
    AlongInside(i);
    Scaled(min, max, max - min, Centre(min, max, i), Along(i));
  }

  lemma Scaled(min: real, max: real, scale: real, c: real, w: real)
    requires scale == max - min && scale > 0.0 && c - min == w * scale && 0.0 < w < 1.0
    ensures min < c < max && (c - min) / (max - min) == w
  {
    InLimits(min, max, scale, c, w);
    DivideBack(w, scale);
  }

  lemma InLimits(min: real, max: real, scale: real, c: real, w: real)
    requires scale == max - min && scale > 0.0 && c - min == w * scale && 0.0 < w < 1.0
    ensures min < c && c < max
  {
    Inside(w, scale);
    assert w * scale < scale;
    assert c - min < scale;
  }

  lemma {:induction false} ScoreBits(n: nat)
    requires n < SCORES
    ensures Value(Bits(n, 64)) == n
    ensures Value(Evens(Bits(n, 64))) < CELLS && Value(Evens(Bits(n, 64)[1..])) < CELLS
  {
    hide Value, Evens, Bits, Pow2;
    Powers();
    var bs := Bits(n, 64);
    ValueOfBits(n, 64);
    HalfBelow(bs, 52);
    HighBits(bs, 51);
    HalfBelow(bs[1..], 51);
  }

  lemma HighBits(bs: seq<bool>, k: nat)
    requires bs != [] && Value(bs) < Pow2(k + 1)
    ensures Value(bs[1..]) < Pow2(k)
  {}

  lemma Powers()
    ensures Pow2(26) == CELLS && Pow2(32) == U32 && Pow2(52) == SCORES && Pow2(64) > SCORES
  {
    assert Pow2(8) == 256;
    assert Pow2(16) == 256 * Pow2(8);
    assert Pow2(24) == 256 * Pow2(16);
    assert Pow2(26) == 4 * Pow2(24);
    assert Pow2(32) == 64 * Pow2(26);
    assert Pow2(40) == 256 * Pow2(32);
    assert Pow2(48) == 256 * Pow2(40);
    assert Pow2(52) == 16 * Pow2(48);
    assert Pow2(60) == 256 * Pow2(52);
    assert Pow2(64) == 16 * Pow2(60);
  }

  /** Weaving the two cell numbers of a score gives the score. */
  lemma {:induction false} WeaveScore(n: nat)
    requires n < SCORES
    ensures var bs := Bits(n, 64);
            Value(Weave(Bits(Value(Evens(bs)), 32), Bits(Value(Evens(bs[1..])), 32))) == n
  {
    hide *;
    var bs := Bits(n, 64);
    ScoreBits(n);
    BitsOfValue(Evens(bs));
    BitsOfValue(Evens(bs[1..]));
    WeaveOfSplit(bs);
  }

  /** Decoding any score gives a point strictly inside the limits that encodes to the same score;
      no other double decodes at all. */
  lemma DecodeEncode(score: F64)
    ensures Decode(score).Some? <==> IsScore(score)
    ensures IsScore(score) ==>
              var p := Decode(score).value;
              && -180.0 < p.0 < 180.0 && -85.05112878 < p.1 < 85.05112878
              && Encode(p.0, p.1) as real == score.value
  {
    if IsScore(score) {
      var n: nat := score.value.Floor;
      var bs := Bits(n, 64);
      hide Value, Bits, Evens, Centre, Index, Weave;
      ScoreBits(n);
      var lat, long := Value(Evens(bs)), Value(Evens(bs[1..]));
      CentreIndex(LAT_MIN, LAT_MAX, lat);
      CentreIndex(LONG_MIN, LONG_MAX, long);
      WeaveScore(n);
    }
  }

  lemma Edges(min: real, scale: real, x: real, i: real, cells: real)
    requires scale > 0.0 && cells > 0.0
    requires i <= (x - min) / scale * cells < i + 1.0
    ensures min + i / cells * scale <= x < min + (i + 1.0) / cells * scale
  {
    var w := (x - min) / scale;
    assert w * scale == x - min;
    Below(i, w, cells);
    BelowStrictly(w, i + 1.0, cells);
    Scale(i / cells, w, scale);
    Scale(w, (i + 1.0) / cells, scale);
  }

  lemma Below(i: real, w: real, cells: real)
    requires cells > 0.0 && i <= w * cells
    ensures i / cells <= w
  {}

  lemma BelowStrictly(w: real, j: real, cells: real)
    requires cells > 0.0 && w * cells < j
    ensures w < j / cells
  {}

  lemma Scale(a: real, b: real, scale: real)
    requires scale > 0.0
    ensures a <= b ==> a * scale <= b * scale
    ensures a < b ==> a * scale < b * scale
  {}

  /** A point within the limits is in the cell it is indexed to, so within half a cell of its centre. */
  lemma IndexCentre(min: real, max: real, x: real)
    requires min <= x < max
    ensures Index(min, max, x) < CELLS
    ensures var half := (max - min) / CELLS as real / 2.0;
            -half <= x - Centre(min, max, Index(min, max, x)) <= half
  {
    var scale, cells := max - min, CELLS as real;
    var w := (x - min) / scale;
    Fraction(x - min, scale);
    var i := (w * cells).Floor;
    Edges(min, scale, x, i as real, cells);
    Width(i as real, cells, scale);
  }

  lemma Fraction(a: real, b: real)
    requires 0.0 <= a < b
    ensures 0.0 <= a / b < 1.0
  {}

  lemma Width(i: real, cells: real, scale: real)
    requires cells > 0.0
    ensures (i + 1.0) / cells * scale - i / cells * scale == scale / cells
  {
    assert (i + 1.0) / cells == i / cells + 1.0 / cells;
  }

  /** Encoding any point within the limits gives a score, which decodes to within half a cell of it. */
  lemma EncodeDecode(long: real, lat: real)
    requires -180.0 <= long < 180.0 && -85.05112878 <= lat < 85.05112878
    ensures Encode(long, lat) < 4503599627370496
    ensures var p := Decode(Finite(Encode(long, lat) as real));
            && p.Some?
            && var halfLong, halfLat := 180.0 / 67108864.0, 85.05112878 / 67108864.0;
            && -halfLong <= long - p.value.0 <= halfLong && -halfLat <= lat - p.value.1 <= halfLat
  {
    var i, j := Index(LAT_MIN, LAT_MAX, lat), Index(LONG_MIN, LONG_MAX, long);
    IndexCentre(LAT_MIN, LAT_MAX, lat);
    IndexCentre(LONG_MIN, LONG_MAX, long);
    hide Value, Bits, Evens, Centre, Index, Weave;
    Powers();
    hide Pow2;
    ValueOfBits(i, 32);
    ValueOfBits(j, 32);
    WeaveBelow(Bits(i, 32), Bits(j, 32), 26);
    var bs := Weave(Bits(i, 32), Bits(j, 32));
    BitsOfValue(bs);
    SplitOfWeave(Bits(i, 32), Bits(j, 32));
  }
}
