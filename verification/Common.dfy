/**
 Bytes, errors and fixed-width integers: what every decoder of the parser crate shares.
 A bit mask or shift of the source is written with `/` and `%` on a byte taken as a number.
 */
module Common {
  type Byte = b: int | 0 <= b < 256
  type Bytes = seq<Byte>

  datatype Option<+T> = None | Some(value: T)

  /** The parser's error variants; message texts carry no behaviour and are dropped. */
  datatype RdbError =
    | Io
    | InvalidMagic
    | UnsupportedVersion(version: nat)
    | CorruptData
    | UnknownType(typeCode: Byte)

  datatype Result<+T> = Success(value: T) | Failure(error: RdbError)
  {
    predicate IsFailure() { Failure? }
    function PropagateFailure<U>(): Result<U> requires Failure? { Failure(error) }
    function Extract(): T requires Success? { value }
  }

  const U16: nat := 0x1_0000
  const U24: nat := 0x100_0000
  const U32: nat := 0x1_0000_0000
  const U64: nat := 0x1_0000_0000_0000_0000

  /** `enc` occurs in `d` at position `p`. */
  predicate At(d: Bytes, p: nat, enc: Bytes) {
    p + |enc| <= |d| && d[p..p + |enc|] == enc
  }

  lemma AtSplit(d: Bytes, p: nat, a: Bytes, b: Bytes)
    ensures At(d, p, a + b) <==> At(d, p, a) && At(d, p + |a|, b)
  {
    if At(d, p, a + b) {
      assert d[p..p + |a|] == (a + b)[..|a|];
      assert d[p + |a|..p + |a| + |b|] == (a + b)[|a|..];
    }
    if At(d, p, a) && At(d, p + |a|, b) {
      assert d[p..p + |a| + |b|] == d[p..p + |a|] + d[p + |a|..p + |a| + |b|];
    }
  }

  // ----- little- and big-endian unsigned integers -----

  function Pow256(w: nat): (m: nat)
    ensures m >= 1
  {
    if w == 0 then 1 else 256 * Pow256(w - 1)
  }

  lemma PowValues()
    ensures Pow256(1) == 256 && Pow256(2) == U16 && Pow256(3) == U24 && Pow256(4) == U32 && Pow256(8) == U64
  {
    assert Pow256(5) == 256 * Pow256(4);
    assert Pow256(6) == 256 * Pow256(5);
  }

  function Le(s: Bytes): nat {
    if s == [] then 0 else s[0] + 256 * Le(s[1..])
  }

  function ToLe(n: nat, w: nat): (s: Bytes)
    ensures |s| == w
  {
    if w == 0 then [] else [n % 256] + ToLe(n / 256, w - 1)
  }

  function Be(s: Bytes): nat {
    if s == [] then 0 else 256 * Be(s[..|s| - 1]) + s[|s| - 1]
  }

  function ToBe(n: nat, w: nat): (s: Bytes)
    ensures |s| == w
  {
    if w == 0 then [] else ToBe(n / 256, w - 1) + [n % 256]
  }

  lemma {:induction false} LeOfToLe(n: nat, w: nat)
    requires n < Pow256(w)
    ensures Le(ToLe(n, w)) == n
  {
    if w > 0 {
      LeOfToLe(n / 256, w - 1);
      assert ToLe(n, w)[1..] == ToLe(n / 256, w - 1);
    }
  }

  lemma {:induction false} ToLeOfLe(s: Bytes)
    ensures Le(s) < Pow256(|s|)
    ensures ToLe(Le(s), |s|) == s
  {
    if s != [] {
      ToLeOfLe(s[1..]);
      assert Le(s) % 256 == s[0] && Le(s) / 256 == Le(s[1..]);
    }
  }

  lemma {:induction false} BeOfToBe(n: nat, w: nat)
    requires n < Pow256(w)
    ensures Be(ToBe(n, w)) == n
  {
    if w > 0 {
      BeOfToBe(n / 256, w - 1);
      assert ToBe(n, w)[..w - 1] == ToBe(n / 256, w - 1);
    }
  }

  lemma {:induction false} ToBeOfBe(s: Bytes)
    ensures Be(s) < Pow256(|s|)
    ensures ToBe(Be(s), |s|) == s
  {
    if s != [] {
      ToBeOfBe(s[..|s| - 1]);
      assert Be(s) % 256 == s[|s| - 1] && Be(s) / 256 == Be(s[..|s| - 1]);
    }
  }

  // ----- two's complement -----

  /** The signed reading of `u`, an unsigned value below the even modulus `m`. */
  function Signed(u: nat, m: nat): int {
    if u < m / 2 then u else u - m
  }

  function Unsigned(i: int, m: nat): nat
    requires i + m >= 0
  {
    if i >= 0 then i else i + m
  }

  predicate InRange(i: int, m: nat) { -(m / 2) <= i < m / 2 }

  // ----- decimal text of an integer (`to_string`) -----

  function Digits(n: nat): (s: Bytes)
    ensures |s| >= 1
    ensures forall i | 0 <= i < |s| :: 48 <= s[i] <= 57
  {
    if n < 10 then [48 + n] else Digits(n / 10) + [48 + n % 10]
  }

  function Decimal(i: int): Bytes {
    if i >= 0 then Digits(i) else [45] + Digits(-i)
  }

  function Parse(s: Bytes): int {
    if s == [] then 0 else 10 * Parse(s[..|s| - 1]) - 48 + s[|s| - 1]
  }

  lemma {:induction false} ParseDigits(n: nat)
    ensures Parse(Digits(n)) == n
  {
    if n >= 10 {
      ParseDigits(n / 10);
      assert Digits(n)[..|Digits(n)| - 1] == Digits(n / 10);
    } else {
      assert Digits(n)[..0] == [];
    }
  }

  /** Distinct integers have distinct decimal texts. */
  lemma DecimalInjective(i: int, j: int)
    ensures Decimal(i) == Decimal(j) <==> i == j
  {
    ParseDigits(if i >= 0 then i else -i);
    ParseDigits(if j >= 0 then j else -j);
    if Decimal(i) == Decimal(j) {
      assert Decimal(i)[0] == Decimal(j)[0];
      if i < 0 {
        assert Digits(-i) == Decimal(i)[1..] == Decimal(j)[1..];
      }
    }
  }

  /** `s` is how a natural number is written: ASCII digits, most significant first, no leading zero. */
  predicate Writes(s: Bytes, n: nat) {
    && s != [] && (forall i | 0 <= i < |s| :: 48 <= s[i] <= 57) && (|s| > 1 ==> s[0] != 48)
    && Parse(s) == n
  }

  lemma {:induction false} DigitsWrite(n: nat)
    ensures Writes(Digits(n), n)
    ensures n > 0 ==> Digits(n)[0] != 48
  {
    ParseDigits(n);
    if n >= 10 { DigitsWrite(n / 10); }
  }

  /** The text of an integer is its magnitude in digits, behind a minus sign exactly when it is negative. */
  lemma DecimalWrites(i: int)
    ensures i >= 0 ==> Writes(Decimal(i), i)
    ensures i < 0 ==> Decimal(i)[0] == 45 && Writes(Decimal(i)[1..], -i)
  {
    DigitsWrite(if i >= 0 then i else -i);
    if i < 0 { assert Decimal(i)[1..] == Digits(-i); }
  }
}
