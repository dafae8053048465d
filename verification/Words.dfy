/** 64-bit machine words as lists of bits, lowest first: every list of 64 bits is some word's. */
module Words {
  function Push(h: bv64, b: bool): bv64 { if b then (h << 1) | 1 else h << 1 }

  /** The 64-bit word with these bits. */
  function BitWord(bs: seq<bool>): bv64 {
    if bs == [] then 0 else Push(BitWord(bs[1..]), bs[0])
  }

  /** The low `k` bits of a word. */
  function WordBits(w: bv64, k: nat): (bs: seq<bool>)
    ensures |bs| == k
  {
    if k == 0 then [] else [w & 1 == 1] + WordBits(w >> 1, k - 1)
  }

  /** Nothing is set from bit `j` up. */
  predicate Clear(w: bv64, j: nat) { if j == 0 then w == 0 else Clear(w >> 1, j - 1) }

  lemma {:induction false} Clear1(w: bv64, k: nat)
    requires Clear(w, k + 1)
    ensures Clear(w >> 1, k)
  {}

  lemma Shift1(w: bv64)
    ensures (w >> 1) >> 1 == w >> 2
  {}

  lemma Shift2(w: bv64)
    ensures (w >> 2) >> 2 == w >> 4
  {}

  lemma Shift4(w: bv64)
    ensures (w >> 4) >> 4 == w >> 8
  {}

  lemma Shift8(w: bv64)
    ensures (w >> 8) >> 8 == w >> 16
  {}

  lemma Shift16(w: bv64)
    ensures (w >> 16) >> 16 == w >> 32
  {}

  lemma Clear2(w: bv64, k: nat)
    requires Clear(w, k + 2)
    ensures Clear(w >> 2, k)
  {
    hide *;
    Clear1(w, k + 1);
    Clear1(w >> 1, k);
    Shift1(w);
  }

  lemma Clear4(w: bv64, k: nat)
    requires Clear(w, k + 4)
    ensures Clear(w >> 4, k)
  {
    hide *;
    Clear2(w, k + 2);
    Clear2(w >> 2, k);
    Shift2(w);
  }

  lemma Clear8(w: bv64, k: nat)
    requires Clear(w, k + 8)
    ensures Clear(w >> 8, k)
  {
    hide *;
    Clear4(w, k + 4);
    Clear4(w >> 4, k);
    Shift4(w);
  }

  lemma Clear16(w: bv64, k: nat)
    requires Clear(w, k + 16)
    ensures Clear(w >> 16, k)
  {
    hide *;
    Clear8(w, k + 8);
    Clear8(w >> 8, k);
    Shift8(w);
  }

  lemma Clear32(w: bv64, k: nat)
    requires Clear(w, k + 32)
    ensures Clear(w >> 32, k)
  {
    hide *;
    Clear16(w, k + 16);
    Clear16(w >> 16, k);
    Shift16(w);
  }

  lemma ClearDef(w: bv64, j: nat)
    ensures Clear(w, j + 1) == Clear(w >> 1, j)
  {}

  lemma {:induction false} ClearEnd(w: bv64)
    ensures Clear(w, 0) == (w == 0)
  {}

  lemma ZeroShift()
    ensures 0 as bv64 >> 1 == 0
  {}

  lemma WordBitsDef(w: bv64, k: nat)
    ensures WordBits(w, k + 1) == [w & 1 == 1] + WordBits(w >> 1, k)
  {}

  lemma {:induction false} BitWordDef(bs: seq<bool>)
    requires bs != []
    ensures BitWord(bs) == Push(BitWord(bs[1..]), bs[0])
  {}

  lemma {:induction false} ClearMore(w: bv64, j: nat)
    requires Clear(w, j)
    ensures Clear(w, j + 1)
  {
    hide *;
    ClearDef(w, j);
    if j == 0 {
      ClearEnd(w);
      ZeroShift();
      ClearEnd(w >> 1);
    } else {
      ClearDef(w, j - 1);
      ClearMore(w >> 1, j - 1);
    }
  }

  lemma {:induction false} ClearUpTo(w: bv64, j: nat, k: nat)
    requires Clear(w, j) && j <= k
    ensures Clear(w, k)
    decreases k
  {
    hide *;
    if j < k {
      ClearUpTo(w, j, k - 1);
      ClearMore(w, k - 1);
    }
  }

  predicate TopClear(w: bv64) { w & 0x8000000000000000 == 0 }

  predicate Over(w: bv64, h: bv64, b: bool) { w >> 1 == h && (w & 1 == 1) == b }

  lemma {:induction false} Nothing(w: bv64)
    requires Clear(w, 1)
    ensures w >> 1 == 0
  {}

  lemma Sum48(w: bv64)
    ensures (w >> 32) >> 16 == w >> 48
  {}

  lemma Sum56(w: bv64)
    ensures (w >> 48) >> 8 == w >> 56
  {}

  lemma Sum60(w: bv64)
    ensures (w >> 56) >> 4 == w >> 60
  {}

  lemma Sum62(w: bv64)
    ensures (w >> 60) >> 2 == w >> 62
  {}

  lemma Top(w: bv64)
    requires (w >> 62) >> 1 == 0
    ensures TopClear(w)
  {}

  lemma {:induction false} Clear48(w: bv64)
    requires Clear(w, 63)
    ensures Clear(w >> 48, 15)
  {
    hide *;
    Clear32(w, 31);
    Clear16(w >> 32, 15);
    Sum48(w);
  }

  lemma {:induction false} Clear56(w: bv64)
    requires Clear(w, 63)
    ensures Clear(w >> 56, 7)
  {
    hide *;
    Clear48(w);
    Clear8(w >> 48, 7);
    Sum56(w);
  }

  lemma {:induction false} Clear60(w: bv64)
    requires Clear(w, 63)
    ensures Clear(w >> 60, 3)
  {
    hide *;
    Clear56(w);
    Clear4(w >> 56, 3);
    Sum60(w);
  }

  lemma {:induction false} Clear62(w: bv64)
    requires Clear(w, 63)
    ensures Clear(w >> 62, 1)
  {
    hide *;
    Clear60(w);
    Clear2(w >> 60, 1);
    Sum62(w);
  }

  lemma {:induction false} ClearTop(w: bv64, j: nat)
    requires j <= 63 && Clear(w, j)
    ensures TopClear(w)
  {
    hide *;
    ClearUpTo(w, j, 63);
    Clear62(w);
    Nothing(w >> 62);
    Top(w);
  }

  lemma Pushed(h: bv64, b: bool)
    requires TopClear(h)
    ensures Over(Push(h, b), h, b)
  {}

  lemma BitsStep(w: bv64, h: bv64, b: bool, k: nat)
    requires Over(w, h, b)
    ensures WordBits(w, k + 1) == [b] + WordBits(h, k)
  {
    WordBitsDef(w, k);
    hide WordBits;
  }

  lemma ClearStep(w: bv64, h: bv64, b: bool, k: nat)
    requires Over(w, h, b) && Clear(h, k)
    ensures Clear(w, k + 1)
  {
    ClearDef(w, k);
    hide Clear;
  }

  lemma PushStep(h: bv64, b: bool, k: nat)
    requires Clear(h, k) && k < 64
    ensures WordBits(Push(h, b), k + 1) == [b] + WordBits(h, k) && Clear(Push(h, b), k + 1)
  {
    hide *;
    ClearTop(h, k);
    Pushed(h, b);
    BitsStep(Push(h, b), h, b, k);
    ClearStep(Push(h, b), h, b, k);
  }

  /** The word of up to 64 bits has exactly those bits. */
  lemma {:induction false} WordHolds(bs: seq<bool>)
    requires |bs| <= 64
    ensures WordBits(BitWord(bs), |bs|) == bs && Clear(BitWord(bs), |bs|)
  {
    hide WordBits, BitWord, Push;
    if bs == [] {
      Empty();
    } else {
      WordHolds(bs[1..]);
      PushStep(BitWord(bs[1..]), bs[0], |bs| - 1);
      BitWordDef(bs);
    }
  }

  lemma Empty()
    ensures BitWord([]) == 0 && Clear(0, 0)
  {}
}
