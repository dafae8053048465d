/** What the checksum promises about damaged bytes, for any reflected polynomial with its top bit set. */
module Burst {
  import opened BitLists
  import opened Common
  import opened Crc64

  function Unshift(poly: Word, c: Word): Word {
    if c[63] then [true] + Xor(c, poly)[..63] else [false] + c[..63]
  }

  lemma UnshiftShift(poly: Word, c: Word)
    requires poly[63]
    ensures Unshift(poly, Shift(poly, c)) == c
  {
    var s := Shift(poly, c);
    assert s[63] == c[0];
    if c[0] {
      assert Xor(s, poly)[..63] == c[1..];
    } else {
      assert s[..63] == c[1..];
    }
  }

  lemma {:induction false} ShiftNInjective(poly: Word, a: Word, b: Word, n: nat)
    requires poly[63]
    requires ShiftN(poly, a, n) == ShiftN(poly, b, n)
    ensures a == b
    decreases n
  {
    if n > 0 {
      ShiftNInjective(poly, Shift(poly, a), Shift(poly, b), n - 1);
      UnshiftShift(poly, a);
      UnshiftShift(poly, b);
    }
  }

  /** Two registers fed two equally long windows of at most 64 bits meet exactly when the
      registers differ by the exclusive-or of the windows. */
  lemma {:induction false} WindowCollision(poly: Word, a: Word, b: Word, u: seq<bool>, v: seq<bool>)
    requires poly[63]
    requires |u| == |v| <= 64
    ensures ClockBits(poly, a, u) == ClockBits(poly, b, v) <==> Xor(a, Pad(u)) == Xor(b, Pad(v))
  {
    ClockIsShift(poly, a, u);
    ClockIsShift(poly, b, v);
    if ClockBits(poly, a, u) == ClockBits(poly, b, v) {
      ShiftNInjective(poly, Xor(a, Pad(u)), Xor(b, Pad(v)), |u|);
    }
  }

  lemma {:induction false} SuffixInjective(poly: Word, a: Word, b: Word, post: seq<bool>)
    requires poly[63]
    requires ClockBits(poly, a, post) == ClockBits(poly, b, post)
    ensures a == b
    decreases post
  {
    if post != [] {
      SuffixInjective(poly, Clock(poly, a, post[0]), Clock(poly, b, post[0]), post[1..]);
      WindowCollision(poly, a, b, post[..1], post[..1]);
      var x, y := Xor(a, Pad(post[..1])), Xor(b, Pad(post[..1]));
      assert ClockBits(poly, a, post[..1]) == Clock(poly, a, post[0]);
      assert ClockBits(poly, b, post[..1]) == Clock(poly, b, post[0]);
      forall i | 0 <= i < 64 ensures a[i] == b[i] {
        assert x[i] == y[i];
      }
    }
  }

  lemma XorPadInjective(s: Word, u: seq<bool>, v: seq<bool>)
    requires |u| == |v| <= 64
    ensures Xor(s, Pad(u)) == Xor(s, Pad(v)) <==> u == v
  {
    var x, y := Xor(s, Pad(u)), Xor(s, Pad(v));
    if x == y {
      forall i | 0 <= i < |u| ensures u[i] == v[i] {
        assert x[i] == y[i];
      }
    }
  }

  /** Any two bit strings that differ, and only inside one window of at most 64 consecutive
      bits, leave the register in different states. */
  lemma {:induction false} BurstDetected(poly: Word, c: Word, pre: seq<bool>, u: seq<bool>, v: seq<bool>,
      post: seq<bool>)
    requires poly[63]
    requires |u| == |v| <= 64 && u != v
    ensures ClockBits(poly, c, pre + u + post) != ClockBits(poly, c, pre + v + post)
  {
    var s := ClockBits(poly, c, pre);
    ClockBitsAppend(poly, c, pre, u);
    ClockBitsAppend(poly, c, pre, v);
    ClockBitsAppend(poly, c, pre + u, post);
    ClockBitsAppend(poly, c, pre + v, post);
    WindowCollision(poly, s, s, u, v);
    XorPadInjective(s, u, v);
    if ClockBits(poly, c, pre + u + post) == ClockBits(poly, c, pre + v + post) {
      SuffixInjective(poly, ClockBits(poly, s, u), ClockBits(poly, s, v), post);
    }
  }

  lemma {:induction false} BitsOfInjective(a: Bytes, b: Bytes)
    requires |a| == |b| && BitsOf(a) == BitsOf(b)
    ensures a == b
  {
    if a != [] {
      assert Bits(a[0], 8) == BitsOf(a)[..8] == BitsOf(b)[..8] == Bits(b[0], 8);
      assert BitsOf(a[1..]) == BitsOf(a)[8..] == BitsOf(b)[8..] == BitsOf(b[1..]);
      assert Pow2(8) == 256 by { assert Pow2(4) == 16; }
      ValueOfBits(a[0], 8);
      ValueOfBits(b[0], 8);
      BitsOfInjective(a[1..], b[1..]);
    }
  }

  /** The byte form: damage confined to eight consecutive bytes always changes the checksum. */
  lemma ByteBurstDetected(poly: Word, c: Word, pre: Bytes, u: Bytes, v: Bytes, post: Bytes)
    requires poly[63]
    requires |u| == |v| <= 8 && u != v
    ensures Crc(poly, c, pre + u + post) != Crc(poly, c, pre + v + post)
  {
    BitsOfAppend(pre, u);
    BitsOfAppend(pre, v);
    BitsOfAppend(pre + u, post);
    BitsOfAppend(pre + v, post);
    if BitsOf(u) == BitsOf(v) { BitsOfInjective(u, v); }
    BurstDetected(poly, c, BitsOf(pre), BitsOf(u), BitsOf(v), BitsOf(post));
  }

  /** The reflected polynomial has its top bit, so every burst lemma above applies to it. */
  lemma PolyInvertible()
    ensures Poly()[63]
  {
    assert Bits(0x95, 8)[7];
  }
}
