/** The checksum's own numbers: its polynomial written both ways round, and the check value a catalogue
    of checksums gives for the nine digits. */
module CheckValue {
  import opened BitLists
  import opened Common
  import opened Crc64
  import opened Words

  // ----- the shift register as a machine word -----

  function XorOf(g: bv64, h: bv64): bv64 { g ^ h }

  lemma XorLow(g: bv64, h: bv64)
    ensures XorOf(Push(g, false), Push(h, false)) == Push(XorOf(g, h), false)
    ensures XorOf(Push(g, true), Push(h, true)) == Push(XorOf(g, h), false)
  {}

  lemma XorHigh(g: bv64, h: bv64)
    ensures XorOf(Push(g, true), Push(h, false)) == Push(XorOf(g, h), true)
    ensures XorOf(Push(g, false), Push(h, true)) == Push(XorOf(g, h), true)
  {}

  lemma PushXor(g: bv64, h: bv64, a: bool, b: bool)
    ensures XorOf(Push(g, a), Push(h, b)) == Push(XorOf(g, h), a != b)
  {
    hide *;
    XorLow(g, h);
    XorHigh(g, h);
    if a && b {} else if a {} else if b {} else {}
  }

  lemma {:induction false} HighZero(bs: seq<bool>)
    ensures BitWord(bs + [false]) == BitWord(bs)
  {
    if bs != [] {
      assert (bs + [false])[1..] == bs[1..] + [false];
      HighZero(bs[1..]);
    }
  }

  function Differ(a: seq<bool>, b: seq<bool>): (s: seq<bool>)
    requires |a| == |b|
    ensures |s| == |a|
  {
    seq(|a|, i requires 0 <= i < |a| => a[i] != b[i])
  }

  lemma XorEmpty()
    ensures BitWord([]) == XorOf(BitWord([]), BitWord([]))
  {}

  lemma {:induction false} XorWords(a: seq<bool>, b: seq<bool>)
    requires |a| == |b|
    ensures BitWord(Differ(a, b)) == XorOf(BitWord(a), BitWord(b))
  {
    hide Push, BitWord, XorOf;
    if a == [] {
      XorEmpty();
      assert a == b == Differ(a, b) == [];
    } else {
      BitWordDef(a);
      BitWordDef(b);
      BitWordDef(Differ(a, b));
      assert Differ(a, b)[1..] == Differ(a[1..], b[1..]);
      XorWords(a[1..], b[1..]);
      PushXor(BitWord(a[1..]), BitWord(b[1..]), a[0], b[0]);
    }
  }

  lemma {:induction false} LowBit(c: Word)
    ensures Over(BitWord(c), BitWord(c[1..]), c[0])
  {
    hide *;
    WordHolds(c[1..]);
    BitWordDef(c);
    ClearTop(BitWord(c[1..]), 63);
    Pushed(BitWord(c[1..]), c[0]);
  }

  /** One turn of the source's inner loop, on a machine word and with its constant. */
  function Step(w: bv64, bit: bool): bv64 {
    if (w & 1 == 1) != bit then XorOf(w >> 1, 0x95ac9329ac4bc9b5) else w >> 1
  }

  lemma StepOver(w: bv64, h: bv64, b: bool, bit: bool)
    requires Over(w, h, b)
    ensures Step(w, bit) == if b != bit then XorOf(h, 0x95ac9329ac4bc9b5) else h
  {
    hide XorOf;
  }

  function Steps(w: bv64, bits: seq<bool>): bv64
    decreases bits
  {
    if bits == [] then w else Steps(Step(w, bits[0]), bits[1..])
  }

  lemma {:induction false} ClockWord(c: Word, bit: bool)
    ensures BitWord(Clock(Poly(), c, bit)) == Step(BitWord(c), bit)
  {
    hide BitWord, Push, Poly, Over, Step, XorOf;
    PolyAsWord();
    LowBit(c);
    StepOver(BitWord(c), BitWord(c[1..]), c[0], bit);
    HighZero(c[1..]);
    var x := c[0 := c[0] != bit];
    assert x[1..] == c[1..];
    XorWords(Half(x), Poly());
    assert Differ(Half(x), Poly()) == Xor(Half(x), Poly());
  }

  /** The list form of the register is the source's word form. */
  lemma {:induction false} ClockWords(c: Word, bits: seq<bool>)
    ensures BitWord(ClockBits(Poly(), c, bits)) == Steps(BitWord(c), bits)
    decreases bits
  {
    hide BitWord, Poly, Step, Clock;
    if bits != [] {
      ClockWord(c, bits[0]);
      ClockWords(Clock(Poly(), c, bits[0]), bits[1..]);
    }
  }

  // ----- bytes -----

  lemma {:induction false} PushedFour(s: seq<bool>)
    requires |s| >= 4
    ensures BitWord(s) == Push(Push(Push(Push(BitWord(s[4..]), s[3]), s[2]), s[1]), s[0])
  {
    hide BitWord, Push;
    BitWordDef(s);
    BitWordDef(s[1..]);
    BitWordDef(s[2..]);
    BitWordDef(s[3..]);
  }

  lemma {:induction false} SteppedOne(w: bv64, s: seq<bool>)
    ensures s == [] ==> Steps(w, s) == w
    ensures s != [] ==> Steps(w, s) == Steps(Step(w, s[0]), s[1..])
  {}

  lemma {:induction false} SteppedFour(w: bv64, s: seq<bool>)
    requires |s| >= 4
    ensures Steps(w, s) == Steps(Step(Step(Step(Step(w, s[0]), s[1]), s[2]), s[3]), s[4..])
  {
    hide Step, Steps;
    SteppedOne(w, s);
    SteppedOne(Step(w, s[0]), s[1..]);
    SteppedOne(Step(Step(w, s[0]), s[1]), s[2..]);
    SteppedOne(Step(Step(Step(w, s[0]), s[1]), s[2]), s[3..]);
  }

  lemma ValueAppend(a: seq<bool>, b: seq<bool>)
    requires |a| == 8
    ensures Value(a + b) == Value(a) + 256 * Value(b)
  {
    hide Value, Bit;
    var s := a + b;
    ValueOfFour(s);
    ValueOfFour(s[4..]);
    ValueOfFour(a);
    ValueOfFour(a[4..]);
    assert s[4..][4..] == b && a[4..][4..] == [];
  }

  /** Bits and bytes of a list name the same number. */
  lemma {:induction false} ValueOfBytes(s: Bytes)
    ensures Value(BitsOf(s)) == Le(s)
  {
    if s != [] {
      ValueOfBytes(s[1..]);
      assert s[0] < Pow2(8) by { assert Pow2(4) == 16; }
      ValueOfBits(s[0], 8);
      ValueAppend(Bits(s[0], 8), BitsOf(s[1..]));
    }
  }

  function Nibble(w: bv64, a: bool, b: bool, c: bool, d: bool): bv64 { Step(Step(Step(Step(w, a), b), c), d) }

  lemma {:induction false} SteppedEight(w: bv64, s: seq<bool>)
    requires |s| == 8
    ensures Steps(w, s) == Nibble(Nibble(w, s[0], s[1], s[2], s[3]), s[4], s[5], s[6], s[7])
  {
    hide Step, Steps;
    var x := Nibble(w, s[0], s[1], s[2], s[3]);
    SteppedFour(w, s);
    SteppedFour(x, s[4..]);
    SteppedOne(Nibble(x, s[4], s[5], s[6], s[7]), s[4..][4..]);
  }

  function AfterByte(w: bv64, s: seq<bool>): bv64
    requires |s| == 8
  {
    Nibble(Nibble(w, s[0], s[1], s[2], s[3]), s[4], s[5], s[6], s[7])
  }

  function ByteOf(s: seq<bool>): nat
    requires |s| == 8
  {
    Bit(s[0]) + 2 * Bit(s[1]) + 4 * Bit(s[2]) + 8 * Bit(s[3])
    + 16 * (Bit(s[4]) + 2 * Bit(s[5]) + 4 * Bit(s[6]) + 8 * Bit(s[7]))
  }

  lemma {:induction false} ByteIs(b: Byte, s: seq<bool>)
    requires |s| == 8 && b == ByteOf(s)
    ensures Bits(b, 8) == s
  {
    hide Value, Bits;
    ValueOfFour(s);
    ValueOfFour(s[4..]);
    assert s[4..][4..] == [];
    BitsOfValue(s);
  }

  lemma {:induction false} ValueOfFour(s: seq<bool>)
    requires |s| >= 4
    ensures Value(s) == Bit(s[0]) + 2 * Bit(s[1]) + 4 * Bit(s[2]) + 8 * Bit(s[3]) + 16 * Value(s[4..])
    ensures Value([]) == 0
  {
    assert Value(s) == Bit(s[0]) + 2 * Value(s[1..]);
    assert Value(s[1..]) == Bit(s[1]) + 2 * Value(s[2..]) by { assert s[1..][1..] == s[2..]; }
    assert Value(s[2..]) == Bit(s[2]) + 2 * Value(s[3..]) by { assert s[2..][1..] == s[3..]; }
    assert Value(s[3..]) == Bit(s[3]) + 2 * Value(s[4..]) by { assert s[3..][1..] == s[4..]; }
  }

  lemma {:induction false} SteppedByte(s: Bytes, b: Byte, w: bv64)
    requires BitWord(Crc(Poly(), Zeros(64), s)) == w
    ensures BitWord(Crc(Poly(), Zeros(64), s + [b])) == AfterByte(w, Bits(b, 8))
  {
    hide BitWord, Poly, Steps, ClockBits, Nibble;
    CrcAppend(Poly(), Zeros(64), s, [b]);
    OneByte(b);
    ClockWords(Crc(Poly(), Zeros(64), s), Bits(b, 8));
    SteppedEight(w, Bits(b, 8));
  }

  /** The register after the digits 1 to 3, 4 to 6 and 7 to 9. */
  lemma Digits1To3()
    ensures Nibble(Nibble(0x0, true, false, false, false), true, true, false, false) == 0xfdc17184a9f739fa
    ensures Nibble(Nibble(0xfdc17184a9f739fa, false, true, false, false), true, true, false, false)
            == 0xe10364513a98ed96
    ensures Nibble(Nibble(0xe10364513a98ed96, true, true, false, false), true, true, false, false)
            == 0xd5bcfb814479b1ac
  {}

  lemma Digits4To6()
    ensures Nibble(Nibble(0xd5bcfb814479b1ac, false, false, true, false), true, true, false, false)
            == 0x43593c5dcda521f0
    ensures Nibble(Nibble(0x43593c5dcda521f0, true, false, true, false), true, true, false, false)
            == 0xf0758513239c7e0d
    ensures Nibble(Nibble(0xf0758513239c7e0d, false, true, true, false), true, true, false, false)
            == 0xa3a90925b2ab4903
  {}

  lemma Digits7To9()
    ensures Nibble(Nibble(0xa3a90925b2ab4903, true, true, true, false), true, true, false, false)
            == 0x47824d362431ad45
    ensures Nibble(Nibble(0x47824d362431ad45, false, false, false, true), true, true, false, false)
            == 0x49ec20b315e86dc2
    ensures Nibble(Nibble(0x49ec20b315e86dc2, true, false, false, true), true, true, false, false)
            == 0xe9c6d914c4b8d9ca
  {}

  lemma After3()
    ensures BitWord(Crc(Poly(), Zeros(64), [49, 50, 51])) == 0xd5bcfb814479b1ac
  {
    hide BitWord, Poly, Nibble, Crc, Bits;
    ZeroWord();
    Digits1To3();
    ByteIs(49, [true, false, false, false, true, true, false, false]);
    SteppedByte([], 49, 0x0);
    assert [] + [49] == [49];
    ByteIs(50, [false, true, false, false, true, true, false, false]);
    SteppedByte([49], 50, 0xfdc17184a9f739fa);
    assert [49] + [50] == [49, 50];
    ByteIs(51, [true, true, false, false, true, true, false, false]);
    SteppedByte([49, 50], 51, 0xe10364513a98ed96);
    assert [49, 50] + [51] == [49, 50, 51];
  }

  lemma After6()
    requires BitWord(Crc(Poly(), Zeros(64), [49, 50, 51])) == 0xd5bcfb814479b1ac
    ensures BitWord(Crc(Poly(), Zeros(64), [49, 50, 51, 52, 53, 54])) == 0xa3a90925b2ab4903
  {
    hide BitWord, Poly, Nibble, Crc, Bits;
    Digits4To6();
    ByteIs(52, [false, false, true, false, true, true, false, false]);
    SteppedByte([49, 50, 51], 52, 0xd5bcfb814479b1ac);
    assert [49, 50, 51] + [52] == [49, 50, 51, 52];
    ByteIs(53, [true, false, true, false, true, true, false, false]);
    SteppedByte([49, 50, 51, 52], 53, 0x43593c5dcda521f0);
    assert [49, 50, 51, 52] + [53] == [49, 50, 51, 52, 53];
    ByteIs(54, [false, true, true, false, true, true, false, false]);
    SteppedByte([49, 50, 51, 52, 53], 54, 0xf0758513239c7e0d);
    assert [49, 50, 51, 52, 53] + [54] == [49, 50, 51, 52, 53, 54];
  }

  lemma After9()
    requires BitWord(Crc(Poly(), Zeros(64), [49, 50, 51, 52, 53, 54])) == 0xa3a90925b2ab4903
    ensures BitWord(Crc(Poly(), Zeros(64), [49, 50, 51, 52, 53, 54, 55, 56, 57])) == 0xe9c6d914c4b8d9ca
  {
    hide BitWord, Poly, Nibble, Crc, Bits;
    Digits7To9();
    ByteIs(55, [true, true, true, false, true, true, false, false]);
    SteppedByte([49, 50, 51, 52, 53, 54], 55, 0xa3a90925b2ab4903);
    assert [49, 50, 51, 52, 53, 54] + [55] == [49, 50, 51, 52, 53, 54, 55];
    ByteIs(56, [false, false, false, true, true, true, false, false]);
    SteppedByte([49, 50, 51, 52, 53, 54, 55], 56, 0x47824d362431ad45);
    assert [49, 50, 51, 52, 53, 54, 55] + [56] == [49, 50, 51, 52, 53, 54, 55, 56];
    ByteIs(57, [true, false, false, true, true, true, false, false]);
    SteppedByte([49, 50, 51, 52, 53, 54, 55, 56], 57, 0x49ec20b315e86dc2);
    assert [49, 50, 51, 52, 53, 54, 55, 56] + [57] == [49, 50, 51, 52, 53, 54, 55, 56, 57];
  }

  lemma ZeroWord()
    ensures BitWord(Crc(Poly(), Zeros(64), [])) == 0
  {
    hide Poly;
    ZerosWord(64);
  }

  lemma {:induction false} ZerosWord(n: nat)
    ensures BitWord(Zeros(n)) == 0
  {
    if n > 0 {
      ZerosWord(n - 1);
      assert Zeros(n)[1..] == Zeros(n - 1);
    }
  }

  // ----- the two constants -----

  function Below(h: bv64, a: bool, b: bool, c: bool, d: bool): bv64 { Push(Push(Push(Push(h, d), c), b), a) }

  lemma {:induction false} WordOfBytes(b: Byte, s: seq<bool>, rest: Bytes)
    requires |s| == 8 && b == ByteOf(s)
    ensures BitWord(BitsOf([b] + rest))
            == Below(Below(BitWord(BitsOf(rest)), s[4], s[5], s[6], s[7]), s[0], s[1], s[2], s[3])
  {
    hide BitWord, Push, Bits, ByteOf;
    ByteIs(b, s);
    var bits := BitsOf([b] + rest);
    assert ([b] + rest)[1..] == rest;
    assert bits == s + BitsOf(rest);
    PushedFour(bits);
    PushedFour(bits[4..]);
    assert bits[4..][4..] == BitsOf(rest);
  }

  lemma NoBytes()
    ensures BitWord(BitsOf([])) == 0
  {}

  lemma PolyHighSteps()
    ensures Below(Below(0x0, true, false, false, true), true, false, true, false) == 0x95
    ensures Below(Below(0x95, false, true, false, true), false, false, true, true) == 0x95ac
    ensures Below(Below(0x95ac, true, false, false, true), true, true, false, false) == 0x95ac93
    ensures Below(Below(0x95ac93, false, true, false, false), true, false, false, true) == 0x95ac9329
  {}

  lemma PolyHighWord()
    ensures BitWord(BitsOf([0x29, 0x93, 0xac, 0x95])) == 0x95ac9329
  {
    hide BitWord, BitsOf, Below;
    PolyHighSteps();
    NoBytes();
    WordOfBytes(0x95, [true, false, true, false, true, false, false, true], []);
    assert [0x95] + [] == [0x95];
    WordOfBytes(0xac, [false, false, true, true, false, true, false, true], [0x95]);
    assert [0xac] + [0x95] == [0xac, 0x95];
    WordOfBytes(0x93, [true, true, false, false, true, false, false, true], [0xac, 0x95]);
    assert [0x93] + [0xac, 0x95] == [0x93, 0xac, 0x95];
    WordOfBytes(0x29, [true, false, false, true, false, true, false, false], [0x93, 0xac, 0x95]);
    assert [0x29] + [0x93, 0xac, 0x95] == [0x29, 0x93, 0xac, 0x95];
  }

  lemma PolyLowSteps()
    ensures Below(Below(0x95ac9329, false, true, false, true), false, false, true, true) == 0x95ac9329ac
    ensures Below(Below(0x95ac9329ac, false, false, true, false), true, true, false, true) == 0x95ac9329ac4b
    ensures Below(Below(0x95ac9329ac4b, false, false, true, true), true, false, false, true) == 0x95ac9329ac4bc9
    ensures Below(Below(0x95ac9329ac4bc9, true, true, false, true), true, false, true, false) == 0x95ac9329ac4bc9b5
  {}

  /** The constant of the source as a machine word. */
  lemma PolyWord()
    ensures BitWord(BitsOf([0xb5, 0xc9, 0x4b, 0xac, 0x29, 0x93, 0xac, 0x95])) == 0x95ac9329ac4bc9b5
  {
    hide BitWord, BitsOf, Below;
    PolyLowSteps();
    PolyHighWord();
    WordOfBytes(0xac, [false, false, true, true, false, true, false, true], [0x29, 0x93, 0xac, 0x95]);
    assert [0xac] + [0x29, 0x93, 0xac, 0x95] == [0xac, 0x29, 0x93, 0xac, 0x95];
    WordOfBytes(0x4b, [true, true, false, true, false, false, true, false], [0xac, 0x29, 0x93, 0xac, 0x95]);
    assert [0x4b] + [0xac, 0x29, 0x93, 0xac, 0x95] == [0x4b, 0xac, 0x29, 0x93, 0xac, 0x95];
    WordOfBytes(0xc9, [true, false, false, true, false, false, true, true], [0x4b, 0xac, 0x29, 0x93, 0xac, 0x95]);
    assert [0xc9] + [0x4b, 0xac, 0x29, 0x93, 0xac, 0x95] == [0xc9, 0x4b, 0xac, 0x29, 0x93, 0xac, 0x95];
    WordOfBytes(0xb5, [true, false, true, false, true, true, false, true],
        [0xc9, 0x4b, 0xac, 0x29, 0x93, 0xac, 0x95]);
    assert [0xb5] + [0xc9, 0x4b, 0xac, 0x29, 0x93, 0xac, 0x95] == [0xb5, 0xc9, 0x4b, 0xac, 0x29, 0x93, 0xac, 0x95];
  }

  lemma CheckHighSteps()
    ensures Below(Below(0x0, false, true, true, true), true, false, false, true) == 0xe9
    ensures Below(Below(0xe9, false, false, true, true), false, true, true, false) == 0xe9c6
    ensures Below(Below(0xe9c6, true, false, true, true), true, false, false, true) == 0xe9c6d9
    ensures Below(Below(0xe9c6d9, true, false, false, false), false, false, true, false) == 0xe9c6d914
  {}

  lemma CheckHighWord()
    ensures BitWord(BitsOf([0x14, 0xd9, 0xc6, 0xe9])) == 0xe9c6d914
  {
    hide BitWord, BitsOf, Below;
    CheckHighSteps();
    NoBytes();
    WordOfBytes(0xe9, [true, false, false, true, false, true, true, true], []);
    assert [0xe9] + [] == [0xe9];
    WordOfBytes(0xc6, [false, true, true, false, false, false, true, true], [0xe9]);
    assert [0xc6] + [0xe9] == [0xc6, 0xe9];
    WordOfBytes(0xd9, [true, false, false, true, true, false, true, true], [0xc6, 0xe9]);
    assert [0xd9] + [0xc6, 0xe9] == [0xd9, 0xc6, 0xe9];
    WordOfBytes(0x14, [false, false, true, false, true, false, false, false], [0xd9, 0xc6, 0xe9]);
    assert [0x14] + [0xd9, 0xc6, 0xe9] == [0x14, 0xd9, 0xc6, 0xe9];
  }

  lemma CheckLowSteps()
    ensures Below(Below(0xe9c6d914, false, false, true, true), false, false, true, false) == 0xe9c6d914c4
    ensures Below(Below(0xe9c6d914c4, true, true, false, true), false, false, false, true) == 0xe9c6d914c4b8
    ensures Below(Below(0xe9c6d914c4b8, true, false, true, true), true, false, false, true) == 0xe9c6d914c4b8d9
    ensures Below(Below(0xe9c6d914c4b8d9, false, false, true, true), false, true, false, true) == 0xe9c6d914c4b8d9ca
  {}

  /** The check value as a machine word. */
  lemma CheckWord()
    ensures BitWord(BitsOf([0xca, 0xd9, 0xb8, 0xc4, 0x14, 0xd9, 0xc6, 0xe9])) == 0xe9c6d914c4b8d9ca
  {
    hide BitWord, BitsOf, Below;
    CheckLowSteps();
    CheckHighWord();
    WordOfBytes(0xc4, [false, false, true, false, false, false, true, true], [0x14, 0xd9, 0xc6, 0xe9]);
    assert [0xc4] + [0x14, 0xd9, 0xc6, 0xe9] == [0xc4, 0x14, 0xd9, 0xc6, 0xe9];
    WordOfBytes(0xb8, [false, false, false, true, true, true, false, true], [0xc4, 0x14, 0xd9, 0xc6, 0xe9]);
    assert [0xb8] + [0xc4, 0x14, 0xd9, 0xc6, 0xe9] == [0xb8, 0xc4, 0x14, 0xd9, 0xc6, 0xe9];
    WordOfBytes(0xd9, [true, false, false, true, true, false, true, true], [0xb8, 0xc4, 0x14, 0xd9, 0xc6, 0xe9]);
    assert [0xd9] + [0xb8, 0xc4, 0x14, 0xd9, 0xc6, 0xe9] == [0xd9, 0xb8, 0xc4, 0x14, 0xd9, 0xc6, 0xe9];
    WordOfBytes(0xca, [false, true, false, true, false, false, true, true],
        [0xd9, 0xb8, 0xc4, 0x14, 0xd9, 0xc6, 0xe9]);
    assert [0xca] + [0xd9, 0xb8, 0xc4, 0x14, 0xd9, 0xc6, 0xe9] == [0xca, 0xd9, 0xb8, 0xc4, 0x14, 0xd9, 0xc6, 0xe9];
  }

  /** The source's constant is the reflected polynomial: read the other way round it is the one the
      checksum is named by. */
  lemma PolynomialBothWays()
    ensures Value(Poly()) == 0x95ac9329ac4bc9b5 && Value(Mirrored(Poly())) == 0xad93d23594c935a9
  {
    hide BitsOf, Bits, Poly, Mirrored, Value, Le;
    PolyBytes();
    ValueOfBytes([0xb5, 0xc9, 0x4b, 0xac, 0x29, 0x93, 0xac, 0x95]);
    MirroredHigh();
    MirroredLow();
    ValueOfBytes([0xa9, 0x35, 0xc9, 0x94, 0x35, 0xd2, 0x93, 0xad]);
    PolyNumbers();
  }

  lemma PolyBytes()
    ensures Poly() == BitsOf([0xb5, 0xc9, 0x4b, 0xac, 0x29, 0x93, 0xac, 0x95])
  {
    hide Bits;
    BitsOfAppend([0xb5, 0xc9, 0x4b, 0xac, 0x29, 0x93, 0xac], [0x95]);
    OneByte(0x95);
    assert [0xb5, 0xc9, 0x4b, 0xac, 0x29, 0x93, 0xac] + [0x95] == [0xb5, 0xc9, 0x4b, 0xac, 0x29, 0x93, 0xac, 0x95];
  }

  lemma PolyAsWord()
    ensures BitWord(Poly()) == 0x95ac9329ac4bc9b5
  {
    hide BitWord, BitsOf, Poly;
    PolyBytes();
    PolyWord();
  }

  lemma LeFour(s: Bytes)
    requires |s| >= 4
    ensures Le(s) == s[0] as nat + 256 * s[1] as nat + 0x1_0000 * s[2] as nat + 0x100_0000 * s[3] as nat
                     + 0x1_0000_0000 * Le(s[4..])
    ensures Le([]) == 0
  {
    assert Le(s) == s[0] as nat + 256 * Le(s[1..]);
    assert Le(s[1..]) == s[1] as nat + 256 * Le(s[2..]) by { assert s[1..][1..] == s[2..]; }
    assert Le(s[2..]) == s[2] as nat + 256 * Le(s[3..]) by { assert s[2..][1..] == s[3..]; }
    assert Le(s[3..]) == s[3] as nat + 256 * Le(s[4..]) by { assert s[3..][1..] == s[4..]; }
  }

  lemma LeEight(s: Bytes)
    requires |s| == 8
    ensures Le(s) == s[0] as nat + 256 * s[1] as nat + 0x1_0000 * s[2] as nat + 0x100_0000 * s[3] as nat
                     + 0x1_0000_0000 * (s[4] as nat + 256 * s[5] as nat
                                        + 0x1_0000 * s[6] as nat + 0x100_0000 * s[7] as nat)
  {
    hide Le;
    LeFour(s);
    LeFour(s[4..]);
    assert s[4..][4..] == [];
  }

  lemma PolyNumbers()
    ensures Le([0xb5, 0xc9, 0x4b, 0xac, 0x29, 0x93, 0xac, 0x95]) == 0x95ac9329ac4bc9b5
    ensures Le([0xa9, 0x35, 0xc9, 0x94, 0x35, 0xd2, 0x93, 0xad]) == 0xad93d23594c935a9
  {
    hide Le;
    LeEight([0xb5, 0xc9, 0x4b, 0xac, 0x29, 0x93, 0xac, 0x95]);
    LeEight([0xa9, 0x35, 0xc9, 0x94, 0x35, 0xd2, 0x93, 0xad]);
  }

  function Mirrored(s: seq<bool>): (r: seq<bool>)
    ensures |r| == |s|
  {
    seq(|s|, i requires 0 <= i < |s| => s[|s| - 1 - i])
  }

  lemma MirrorAppend(a: seq<bool>, b: seq<bool>)
    ensures Mirrored(a + b) == Mirrored(b) + Mirrored(a)
  {}

  lemma OneByte(b: Byte)
    ensures BitsOf([b]) == Bits(b, 8)
  {
    assert Bits(b, 8) + [] == Bits(b, 8);
  }

  lemma {:induction false} MirrorByte(b: Byte, r: Byte, s: seq<bool>, rest: Bytes, mirror: Bytes)
    requires |s| == 8 && b == ByteOf(s) && r == ByteOf([s[7], s[6], s[5], s[4], s[3], s[2], s[1], s[0]])
    requires Mirrored(BitsOf(rest)) == BitsOf(mirror)
    ensures Mirrored(BitsOf([b] + rest)) == BitsOf(mirror + [r])
  {
    hide Bits, ByteOf;
    ByteIs(b, s);
    ByteIs(r, [s[7], s[6], s[5], s[4], s[3], s[2], s[1], s[0]]);
    assert Mirrored(s) == [s[7], s[6], s[5], s[4], s[3], s[2], s[1], s[0]];
    MirrorAppend(s, BitsOf(rest));
    hide Mirrored;
    assert ([b] + rest)[1..] == rest;
    assert BitsOf([b] + rest) == s + BitsOf(rest);
    BitsOfAppend(mirror, [r]);
    OneByte(r);
  }

  lemma MirroredHigh()
    ensures Mirrored(BitsOf([0x29, 0x93, 0xac, 0x95])) == BitsOf([0xa9, 0x35, 0xc9, 0x94])
  {
    hide Bits, BitsOf, Mirrored;
    NoBits();
    MirrorByte(0x95, 0xa9, [true, false, true, false, true, false, false, true], [], []);
    assert [0x95] + [] == [0x95] && [] + [0xa9] == [0xa9];
    MirrorByte(0xac, 0x35, [false, false, true, true, false, true, false, true], [0x95], [0xa9]);
    assert [0xac] + [0x95] == [0xac, 0x95] && [0xa9] + [0x35] == [0xa9, 0x35];
    MirrorByte(0x93, 0xc9, [true, true, false, false, true, false, false, true], [0xac, 0x95], [0xa9, 0x35]);
    assert [0x93] + [0xac, 0x95] == [0x93, 0xac, 0x95] && [0xa9, 0x35] + [0xc9] == [0xa9, 0x35, 0xc9];
    MirrorByte(0x29, 0x94, [true, false, false, true, false, true, false, false], [0x93, 0xac, 0x95],
        [0xa9, 0x35, 0xc9]);
    assert [0x29] + [0x93, 0xac, 0x95] == [0x29, 0x93, 0xac, 0x95];
    assert [0xa9, 0x35, 0xc9] + [0x94] == [0xa9, 0x35, 0xc9, 0x94];
  }

  lemma MirroredLow()
    requires Mirrored(BitsOf([0x29, 0x93, 0xac, 0x95])) == BitsOf([0xa9, 0x35, 0xc9, 0x94])
    ensures Mirrored(BitsOf([0xb5, 0xc9, 0x4b, 0xac, 0x29, 0x93, 0xac, 0x95]))
            == BitsOf([0xa9, 0x35, 0xc9, 0x94, 0x35, 0xd2, 0x93, 0xad])
  {
    hide Bits, BitsOf, Mirrored;
    MirrorByte(0xac, 0x35, [false, false, true, true, false, true, false, true], [0x29, 0x93, 0xac, 0x95],
        [0xa9, 0x35, 0xc9, 0x94]);
    assert [0xac] + [0x29, 0x93, 0xac, 0x95] == [0xac, 0x29, 0x93, 0xac, 0x95];
    assert [0xa9, 0x35, 0xc9, 0x94] + [0x35] == [0xa9, 0x35, 0xc9, 0x94, 0x35];
    MirrorByte(0x4b, 0xd2, [true, true, false, true, false, false, true, false], [0xac, 0x29, 0x93, 0xac, 0x95],
        [0xa9, 0x35, 0xc9, 0x94, 0x35]);
    assert [0x4b] + [0xac, 0x29, 0x93, 0xac, 0x95] == [0x4b, 0xac, 0x29, 0x93, 0xac, 0x95];
    assert [0xa9, 0x35, 0xc9, 0x94, 0x35] + [0xd2] == [0xa9, 0x35, 0xc9, 0x94, 0x35, 0xd2];
    MirrorByte(0xc9, 0x93, [true, false, false, true, false, false, true, true],
        [0x4b, 0xac, 0x29, 0x93, 0xac, 0x95], [0xa9, 0x35, 0xc9, 0x94, 0x35, 0xd2]);
    assert [0xc9] + [0x4b, 0xac, 0x29, 0x93, 0xac, 0x95] == [0xc9, 0x4b, 0xac, 0x29, 0x93, 0xac, 0x95];
    assert [0xa9, 0x35, 0xc9, 0x94, 0x35, 0xd2] + [0x93] == [0xa9, 0x35, 0xc9, 0x94, 0x35, 0xd2, 0x93];
    MirrorByte(0xb5, 0xad, [true, false, true, false, true, true, false, true],
        [0xc9, 0x4b, 0xac, 0x29, 0x93, 0xac, 0x95], [0xa9, 0x35, 0xc9, 0x94, 0x35, 0xd2, 0x93]);
    assert [0xb5] + [0xc9, 0x4b, 0xac, 0x29, 0x93, 0xac, 0x95] == [0xb5, 0xc9, 0x4b, 0xac, 0x29, 0x93, 0xac, 0x95];
    assert [0xa9, 0x35, 0xc9, 0x94, 0x35, 0xd2, 0x93] + [0xad] == [0xa9, 0x35, 0xc9, 0x94, 0x35, 0xd2, 0x93, 0xad];
  }

  lemma NoBits()
    ensures Mirrored(BitsOf([])) == BitsOf([])
  {}

  /** The check value of this checksum: what it makes of the nine characters "123456789". */
  lemma NineDigits()
    ensures Value(Crc(Poly(), Zeros(64), [49, 50, 51, 52, 53, 54, 55, 56, 57])) == 0xe9c6d914c4b8d9ca
  {
    hide BitWord, Poly, Crc, BitsOf, WordBits;
    var c := Crc(Poly(), Zeros(64), [49, 50, 51, 52, 53, 54, 55, 56, 57]);
    var k := BitsOf([0xca, 0xd9, 0xb8, 0xc4, 0x14, 0xd9, 0xc6, 0xe9]);
    After3();
    After6();
    After9();
    CheckWord();
    WordHolds(c);
    WordHolds(k);
    ValueOfBytes([0xca, 0xd9, 0xb8, 0xc4, 0x14, 0xd9, 0xc6, 0xe9]);
    CheckNumber();
  }

  lemma CheckNumber()
    ensures Le([0xca, 0xd9, 0xb8, 0xc4, 0x14, 0xd9, 0xc6, 0xe9]) == 0xe9c6d914c4b8d9ca
  {
    hide Le;
    LeEight([0xca, 0xd9, 0xb8, 0xc4, 0x14, 0xd9, 0xc6, 0xe9]);
  }
}
