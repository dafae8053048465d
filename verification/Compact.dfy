/** The entry type shared by the compact encodings, and fixed-width signed integers. */
module Compact {
  import opened Common

  datatype CompactEntry = Int(n: int) | Str(s: Bytes)
  {
    function IntoBytes(): Bytes {
      match this
      case Str(s) => s
      case Int(n) => Decimal(n)
    }
  }

  function IntoBytesAll(es: seq<CompactEntry>): (r: seq<Bytes>)
    ensures |r| == |es| && forall i | 0 <= i < |es| :: r[i] == es[i].IntoBytes()
  {
    seq(|es|, i requires 0 <= i < |es| => es[i].IntoBytes())
  }

  /** `b` is what an entry says as a byte string: its bytes, or its integer written in decimal. */
  predicate Says(e: CompactEntry, b: Bytes) {
    match e
    case Str(s) => b == s
    case Int(n) => if n >= 0 then Writes(b, n) else b != [] && b[0] == 45 && Writes(b[1..], -n)
  }

  /** A string entry becomes its own bytes and an integer entry its decimal text. */
  lemma IntoBytesSays(e: CompactEntry)
    ensures Says(e, e.IntoBytes())
  {
    if e.Int? { DecimalWrites(e.n); }
  }

  /** A signed integer of `w` little-endian bytes. */
  function ReadInt(s: Bytes): int { Signed(Le(s), Pow256(|s|)) }

  predicate FitsInt(i: int, w: nat) { w >= 1 && InRange(i, Pow256(w)) }

  function WriteInt(i: int, w: nat): (s: Bytes)
    requires FitsInt(i, w)
    ensures |s| == w
  {
    ToLe(Unsigned(i, Pow256(w)), w)
  }

  /** Writing then reading a signed integer is the identity, at every width that holds it. */
  lemma ReadWriteInt(i: int, w: nat)
    requires FitsInt(i, w)
    ensures ReadInt(WriteInt(i, w)) == i
  {
    assert Pow256(w) == 256 * Pow256(w - 1);
    LeOfToLe(Unsigned(i, Pow256(w)), w);
  }

  lemma SignedRange(u: nat, h: nat)
    requires u < 2 * h
    ensures InRange(Signed(u, 2 * h), 2 * h) && Unsigned(Signed(u, 2 * h), 2 * h) == u
  {}

  /** Every byte string of positive length is the one encoding of the integer it reads as. */
  lemma WriteReadInt(s: Bytes)
    requires s != []
    ensures FitsInt(ReadInt(s), |s|) && WriteInt(ReadInt(s), |s|) == s
  {
    assert Pow256(|s|) == 256 * Pow256(|s| - 1);
    ToLeOfLe(s);
    SignedRange(Le(s), 128 * Pow256(|s| - 1));
  }

  /** Entries already decoded, before a result for the rest. */
  function Prepend(es: seq<CompactEntry>, r: Result<seq<CompactEntry>>): Result<seq<CompactEntry>> {
    match r
    case Success(rest) => Success(es + rest)
    case Failure(e) => Failure(e)
  }

  lemma PrependNone(es: seq<CompactEntry>, r: Result<seq<CompactEntry>>)
    ensures Prepend([], r) == r && Prepend(es, Success([])) == Success(es)
  {
    assert es + [] == es;
    if r.Success? { assert [] + r.value == r.value; }
  }
}
