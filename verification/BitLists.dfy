/** Numbers as lists of bits, lowest first. */
module BitLists {
  function Bit(b: bool): nat { if b then 1 else 0 }

  /** The `k` low bits of `n`. */
  function Bits(n: nat, k: nat): (s: seq<bool>)
    ensures |s| == k
  {
    if k == 0 then [] else [n % 2 == 1] + Bits(n / 2, k - 1)
  }

  function Value(s: seq<bool>): nat {
    if s == [] then 0 else Bit(s[0]) + 2 * Value(s[1..])
  }

  function Pow2(k: nat): (m: nat)
    ensures m >= 1
  {
    if k == 0 then 1 else 2 * Pow2(k - 1)
  }

  lemma Pow2Of64()
    ensures Pow2(64) == 0x1_0000_0000_0000_0000
  {
    assert Pow2(8) == 256;
    assert Pow2(16) == 65536;
    assert Pow2(24) == 0x100_0000;
    assert Pow2(32) == 0x1_0000_0000;
    assert Pow2(40) == 0x100_0000_0000;
    assert Pow2(48) == 0x1_0000_0000_0000;
    assert Pow2(56) == 0x100_0000_0000_0000;
  }

  lemma BitsDef(b: bool, n: nat, k: nat)
    ensures Bits(Bit(b) + 2 * n, k + 1) == [b] + Bits(n, k)
  {
    assert (Bit(b) + 2 * n) % 2 == Bit(b) && (Bit(b) + 2 * n) / 2 == n;
  }

  lemma {:induction false} BitsOfValue(s: seq<bool>)
    ensures Bits(Value(s), |s|) == s
  {
    if s != [] {
      BitsOfValue(s[1..]);
      BitsDef(s[0], Value(s[1..]), |s| - 1);
      hide Bits;
      assert s == [s[0]] + s[1..];
    }
  }

  lemma {:induction false} ValueBelow(s: seq<bool>)
    ensures Value(s) < Pow2(|s|)
  {
    if s != [] { ValueBelow(s[1..]); }
  }

  lemma {:induction false} ValueOfBits(n: nat, k: nat)
    requires n < Pow2(k)
    ensures Value(Bits(n, k)) == n
  {
    if k > 0 {
      ValueOfBits(n / 2, k - 1);
      assert Bits(n, k)[1..] == Bits(n / 2, k - 1);
    }
  }
}
