/**
 The CRC-64 of the RDB trailer: the 256-entry table form of the source, proved equal to the
 bit-at-a-time reflected shift register.

 A `u64` is its 64 bits, least significant first. Everything but the last declaration is
 stated for an arbitrary reflected polynomial `poly`; the source's own is `Poly()`.
 */
module Crc64 {
  import opened BitLists
  import opened Common

  type Word = s: seq<bool> | |s| == 64 witness seq(64, _ => false)

  function Zeros(n: nat): (s: seq<bool>)
    ensures |s| == n && forall i | 0 <= i < n :: !s[i]
  {
    seq(n, _ => false)
  }

  function Xor(a: Word, b: Word): Word {
    seq(64, i requires 0 <= i < 64 => a[i] != b[i])
  }

  // ----- the reference: a shift register fed one bit at a time -----

  function Half(c: Word): Word { c[1..] + [false] }

  function Shift(poly: Word, c: Word): Word {
    if c[0] then Xor(Half(c), poly) else Half(c)
  }

  function Clock(poly: Word, c: Word, bit: bool): Word {
    Shift(poly, c[0 := c[0] != bit])
  }

  function ClockBits(poly: Word, c: Word, bits: seq<bool>): Word
    decreases bits
  {
    if bits == [] then c else ClockBits(poly, Clock(poly, c, bits[0]), bits[1..])
  }

  /** The bits of a byte string in the order the register takes them. */
  function BitsOf(s: Bytes): (bits: seq<bool>)
    ensures |bits| == 8 * |s|
  {
    if s == [] then [] else Bits(s[0], 8) + BitsOf(s[1..])
  }

  function Crc(poly: Word, c: Word, s: Bytes): Word { ClockBits(poly, c, BitsOf(s)) }

  // ----- composition over any split of the input -----

  lemma {:induction false} ClockBitsAppend(poly: Word, c: Word, a: seq<bool>, b: seq<bool>)
    ensures ClockBits(poly, c, a + b) == ClockBits(poly, ClockBits(poly, c, a), b)
    decreases a
  {
    if a == [] {
      assert a + b == b;
    } else {
      ClockBitsAppend(poly, Clock(poly, c, a[0]), a[1..], b);
      assert (a + b)[1..] == a[1..] + b;
    }
  }

  lemma {:induction false} BitsOfAppend(a: Bytes, b: Bytes)
    ensures BitsOf(a + b) == BitsOf(a) + BitsOf(b)
  {
    hide Bits;
    if a == [] {
      assert a + b == b;
    } else {
      BitsOfAppend(a[1..], b);
      assert (a + b)[1..] == a[1..] + b;
    }
  }

  lemma CrcAppend(poly: Word, c: Word, a: Bytes, b: Bytes)
    ensures Crc(poly, c, a + b) == Crc(poly, Crc(poly, c, a), b)
  {
    BitsOfAppend(a, b);
    ClockBitsAppend(poly, c, BitsOf(a), BitsOf(b));
  }

  // ----- clocking in bits is shifting their exclusive-or with the register -----

  function ShiftN(poly: Word, c: Word, n: nat): Word
    decreases n
  {
    if n == 0 then c else ShiftN(poly, Shift(poly, c), n - 1)
  }

  function Pad(bits: seq<bool>): Word
    requires |bits| <= 64
  {
    bits + Zeros(64 - |bits|)
  }

  lemma ClockStep(poly: Word, c: Word, bits: seq<bool>)
    requires 0 < |bits| <= 64
    ensures Xor(Clock(poly, c, bits[0]), Pad(bits[1..])) == Shift(poly, Xor(c, Pad(bits)))
  {
    var l, r := Xor(Clock(poly, c, bits[0]), Pad(bits[1..])), Shift(poly, Xor(c, Pad(bits)));
    forall i | 0 <= i < 64 ensures l[i] == r[i] {
      assert i < 63 ==> Pad(bits)[i + 1] == Pad(bits[1..])[i];
    }
  }

  lemma {:induction false} ClockIsShift(poly: Word, c: Word, bits: seq<bool>)
    requires |bits| <= 64
    ensures ClockBits(poly, c, bits) == ShiftN(poly, Xor(c, Pad(bits)), |bits|)
    decreases bits
  {
    if bits == [] {
      assert Xor(c, Pad(bits)) == c;
    } else {
      ClockIsShift(poly, Clock(poly, c, bits[0]), bits[1..]);
      ClockStep(poly, c, bits);
    }
  }

  // ----- the shift is linear -----

  lemma {:induction false} ShiftNLinear(poly: Word, a: Word, b: Word, n: nat)
    ensures ShiftN(poly, Xor(a, b), n) == Xor(ShiftN(poly, a, n), ShiftN(poly, b, n))
    decreases n
  {
    if n > 0 {
      assert Shift(poly, Xor(a, b)) == Xor(Shift(poly, a), Shift(poly, b));
      ShiftNLinear(poly, Shift(poly, a), Shift(poly, b), n - 1);
    }
  }

  lemma {:induction false} ShiftOfZeros(poly: Word, y: seq<bool>, n: nat)
    requires n + |y| == 64
    ensures ShiftN(poly, Zeros(n) + y, n) == y + Zeros(n)
    decreases n
  {
    if n == 0 {
      assert Zeros(0) + y == y == y + Zeros(0);
    } else {
      assert Shift(poly, Zeros(n) + y) == Zeros(n - 1) + (y + [false]);
      ShiftOfZeros(poly, y + [false], n - 1);
      assert (y + [false]) + Zeros(n - 1) == y + Zeros(n);
    }
  }

  // ----- the table -----

  function Entry(poly: Word, i: nat): Word { ClockBits(poly, Zeros(64), Bits(i, 8)) }

  ghost predicate IsTable(poly: Word, t: seq<Word>) {
    |t| == 256 && forall i | 0 <= i < 256 :: t[i] == Entry(poly, i)
  }

  method MakeEntry(poly: Word, i: nat) returns (crc: Word)
    ensures crc == Entry(poly, i)
  {
    crc := Zeros(64);
    var input := Bits(i, 8);
    var j := 0;
    while j < 8
      invariant 0 <= j <= 8
      invariant crc == ClockBits(poly, Zeros(64), input[..j])
    {
      ClockBitsAppend(poly, Zeros(64), input[..j], [input[j]]);
      assert input[..j + 1] == input[..j] + [input[j]];
      assert Half(crc[0 := crc[0] != input[j]]) == Half(crc);
      if input[j] != crc[0] {
        crc := Xor(Half(crc), poly);
      } else {
        crc := Half(crc);
      }
      j := j + 1;
    }
    assert input[..8] == input;
  }

  method MakeTable(poly: Word) returns (table: array<Word>)
    ensures fresh(table) && IsTable(poly, table[..])
  {
    table := new Word[256](_ => Zeros(64));
    var i := 0;
    while i < 256
      invariant 0 <= i <= 256
      invariant forall k | 0 <= k < i :: table[k] == Entry(poly, k)
    {
      var crc := MakeEntry(poly, i);
      table[i] := crc;
      i := i + 1;
    }
  }

  /** One table step: `TABLE[(crc ^ byte) & 0xFF] ^ (crc >> 8)`. */
  function TableStep(t: seq<Word>, c: Word, b: Byte): Word
    requires |t| == 256
  {
    var idx := Value(Xor(c, Pad(Bits(b, 8)))[..8]);
    LowByte(Xor(c, Pad(Bits(b, 8)))[..8]);
    Xor(t[idx], c[8..] + Zeros(8))
  }

  lemma {:induction false} LowByte(s: seq<bool>)
    requires |s| == 8
    ensures Value(s) < 256
  {
    ValueBelow(s);
    assert Pow2(4) == 16;
  }

  lemma {:induction false} TableStepIsClocking(poly: Word, t: seq<Word>, c: Word, b: Byte)
    requires IsTable(poly, t)
    ensures TableStep(t, c, b) == ClockBits(poly, c, Bits(b, 8))
  {
    hide Bits, ClockBits, ShiftN, Value;
    var x := Xor(c, Pad(Bits(b, 8)));
    var low, high := x[..8], x[8..];
    LowByte(low);
    ClockIsShift(poly, c, Bits(b, 8));
    LowAndHigh(x);
    ShiftNLinear(poly, Pad(low), Zeros(8) + high, 8);
    ShiftOfZeros(poly, high, 8);
    assert high == c[8..];
    BitsOfValue(low);
    ClockIsShift(poly, Zeros(64), low);
    FromZero(Pad(low));
  }

  lemma LowAndHigh(x: Word)
    ensures x == Xor(Pad(x[..8]), Zeros(8) + x[8..])
  {}

  lemma FromZero(x: Word)
    ensures Xor(Zeros(64), x) == x
  {}

  /** `crc64`: the table-driven loop computes the bitwise register for every start and input. */
  method Update(poly: Word, table: array<Word>, c: Word, data: Bytes) returns (crc: Word)
    requires IsTable(poly, table[..])
    ensures crc == Crc(poly, c, data)
  {
    crc := c;
    for k := 0 to |data|
      invariant crc == Crc(poly, c, data[..k])
    {
      TableStepIsClocking(poly, table[..], crc, data[k]);
      CrcAppend(poly, c, data[..k], [data[k]]);
      assert BitsOf([data[k]]) == Bits(data[k], 8);
      assert data[..k + 1] == data[..k] + [data[k]];
      crc := TableStep(table[..], crc, data[k]);
    }
    assert data[..|data|] == data;
  }

  // ----- the polynomial of the source -----

  /** `0x95ac9329ac4bc9b5`, least significant byte first. */
  function Poly(): Word {
    BitsOf([0xb5, 0xc9, 0x4b, 0xac, 0x29, 0x93, 0xac]) + Bits(0x95, 8)
  }
}
