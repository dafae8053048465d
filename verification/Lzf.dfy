/**
 LZF decompression. The reference is a list of tokens (literal runs and back-references into
 the output so far) with a byte-at-a-time meaning; `Decompress` is the source's loop, with its
 ratio guard, its early overrun checks and its bulk-copy branch.
 */
module Lzf {
  import opened Common

  const MAX_RATIO: nat := 1024

  datatype Token = Literal(run: Bytes) | Match(offset: nat, len: nat)

  predicate Encodable(t: Token) {
    match t
    case Literal(run) => 1 <= |run| <= 32
    case Match(offset, len) => 1 <= offset <= 8192 && 3 <= len <= 264
  }

  function Encode(t: Token): Bytes
    requires Encodable(t)
  {
    match t
    case Literal(run) => [|run| - 1] + run
    case Match(offset, len) =>
      if len < 9 then [(len - 2) * 32 + (offset - 1) / 256, (offset - 1) % 256]
      else [224 + (offset - 1) / 256, len - 9, (offset - 1) % 256]
  }

  function EncodeAll(ts: seq<Token>): Bytes
    requires forall t | t in ts :: Encodable(t)
  {
    if ts == [] then [] else Encode(ts[0]) + EncodeAll(ts[1..])
  }

  // ----- meaning of a token list -----

  /** Repeat `n` times: append the byte `offset` places before the end. */
  function CopyBack(out: Bytes, offset: nat, n: nat): Bytes
    requires 1 <= offset <= |out|
    decreases n
  {
    if n == 0 then out else CopyBack(out + [out[|out| - offset]], offset, n - 1)
  }

  predicate Applies(out: Bytes, t: Token) {
    t.Match? ==> 1 <= t.offset <= |out|
  }

  function Apply(out: Bytes, t: Token): Bytes
    requires Applies(out, t)
  {
    match t
    case Literal(run) => out + run
    case Match(offset, len) => CopyBack(out, offset, len)
  }

  function Expand(out: Bytes, ts: seq<Token>): Option<Bytes>
    decreases ts
  {
    if ts == [] then Some(out)
    else if Applies(out, ts[0]) then Expand(Apply(out, ts[0]), ts[1..])
    else None
  }

  /** Every byte a back-reference appends is the byte `offset` places before it. */
  lemma {:induction false} CopyBackBytes(out: Bytes, offset: nat, n: nat)
    requires 1 <= offset <= |out|
    ensures var r := CopyBack(out, offset, n);
            |r| == |out| + n && r[..|out|] == out && forall k | |out| <= k < |r| :: r[k] == r[k - offset]
    decreases n
  {
    if n > 0 {
      var next := out + [out[|out| - offset]];
      CopyBackBytes(next, offset, n - 1);
      var r := CopyBack(out, offset, n);
      assert r[|out|] == r[..|next|][|out|] == next[|out|];
      assert r[..|out|] == r[..|next|][..|out|];
      assert r[|out| - offset] == r[..|next|][|out| - offset];
    }
  }

  /** A back-reference that does not overlap its own output is one bulk copy. */
  lemma {:induction false} BulkCopy(out: Bytes, offset: nat, n: nat)
    requires 1 <= offset <= |out| && n <= offset
    ensures CopyBack(out, offset, n) == out + out[|out| - offset..|out| - offset + n]
  {
    CopyBackBytes(out, offset, n);
    var r := CopyBack(out, offset, n);
    forall k | |out| <= k < |r| ensures r[k] == out[k - offset] {
      assert r[k - offset] == r[..|out|][k - offset];
    }
    assert r == r[..|out|] + r[|out|..];
  }

  lemma {:induction false} CopyBackStep(out: Bytes, offset: nat, n: nat)
    requires 1 <= offset <= |out|
    ensures var r := CopyBack(out, offset, n);
            |r| == |out| + n && CopyBack(out, offset, n + 1) == r + [r[|r| - offset]]
    decreases n
  {
    CopyBackBytes(out, offset, n);
    if n > 0 { CopyBackStep(out + [out[|out| - offset]], offset, n - 1); }
  }

  // ----- the parser -----

  /** The token at position `i` and the position after it, if the stream holds all of it. */
  function ParseToken(c: Bytes, i: nat): (r: Option<(Token, nat)>)
    requires i < |c|
    ensures r.Some? ==> i < r.value.1 <= |c|
  {
    var ctrl: nat := c[i];
    if ctrl < 32 then
      if i + 1 + ctrl + 1 > |c| then None
      else Some((Literal(c[i + 1..i + 1 + ctrl + 1]), i + 1 + ctrl + 1))
    else if ctrl / 32 == 7 then
      if i + 2 >= |c| then None
      else Some((Match(ctrl % 32 * 256 + c[i + 2] + 1, c[i + 1] as nat + 9), i + 3))
    else
      if i + 1 >= |c| then None
      else Some((Match(ctrl % 32 * 256 + c[i + 1] + 1, ctrl / 32 + 2), i + 2))
  }

  function Tokens(c: Bytes, i: nat): Option<seq<Token>>
    requires i <= |c|
    decreases |c| - i
  {
    if i == |c| then Some([])
    else match ParseToken(c, i)
      case None => None
      case Some((t, j)) =>
        match Tokens(c, j)
        case None => None
        case Some(ts) => Some([t] + ts)
  }

  /** What a compressed stream means: its tokens, expanded from an empty output. */
  function Meaning(c: Bytes, i: nat, out: Bytes): Option<Bytes>
    requires i <= |c|
  {
    match Tokens(c, i)
    case None => None
    case Some(ts) => Expand(out, ts)
  }

  lemma ParseEncoded(c: Bytes, i: nat, t: Token)
    requires Encodable(t) && At(c, i, Encode(t))
    ensures i < |c| && ParseToken(c, i) == Some((t, i + |Encode(t)|))
  {
    var e := Encode(t);
    assert c[i] == c[i..i + |e|][0] == e[0];
    match t
    case Literal(run) =>
      assert c[i + 1..i + 1 + |run|] == c[i..i + |e|][1..];
    case Match(offset, len) =>
      assert c[i + 1] == c[i..i + |e|][1];
      if len >= 9 { assert c[i + 2] == c[i..i + |e|][2]; }
  }

  lemma ParsedIsEncoded(c: Bytes, i: nat)
    requires i < |c| && ParseToken(c, i).Some?
    ensures var (t, j) := ParseToken(c, i).value; Encodable(t) && c[i..j] == Encode(t)
  {
    var (t, j) := ParseToken(c, i).value;
    match t
    case Literal(run) => assert c[i..j] == [c[i]] + c[i + 1..j];
    case Match(offset, len) =>
      if len < 9 { assert c[i..j] == [c[i], c[i + 1]]; } else { assert c[i..j] == [c[i], c[i + 1], c[i + 2]]; }
  }

  lemma {:induction false} TokensEncoded(c: Bytes, i: nat, ts: seq<Token>)
    requires forall t | t in ts :: Encodable(t)
    requires At(c, i, EncodeAll(ts)) && i + |EncodeAll(ts)| == |c|
    ensures Tokens(c, i) == Some(ts)
    decreases |ts|
  {
    hide ParseToken, Encode, Encodable;
    if ts != [] {
      AtSplit(c, i, Encode(ts[0]), EncodeAll(ts[1..]));
      ParseEncoded(c, i, ts[0]);
      TokensEncoded(c, i + |Encode(ts[0])|, ts[1..]);
      assert [ts[0]] + ts[1..] == ts;
    }
  }

  lemma {:induction false} TokensSound(c: Bytes, i: nat)
    requires i <= |c| && Tokens(c, i).Some?
    ensures var ts := Tokens(c, i).value;
            (forall t | t in ts :: Encodable(t)) && c[i..] == EncodeAll(ts)
    decreases |c| - i
  {
    if i < |c| {
      var (t, j) := ParseToken(c, i).value;
      ParsedIsEncoded(c, i);
      TokensSound(c, j);
      assert c[i..] == c[i..j] + c[j..];
    }
  }

  // ----- growth bound -----

  lemma {:induction false} Growth(c: Bytes, i: nat, out: Bytes)
    requires i <= |c| && Meaning(c, i, out).Some?
    ensures |out| <= |Meaning(c, i, out).value| <= |out| + 88 * (|c| - i)
    decreases |c| - i
  {
    if i < |c| {
      var (t, j) := ParseToken(c, i).value;
      if t.Match? { CopyBackBytes(out, t.offset, t.len); }
      Growth(c, j, Apply(out, t));
    }
  }

  function Expected(c: Bytes, n: nat): Result<Bytes> {
    match Meaning(c, 0, [])
    case Some(o) => if |o| == n then Success(o) else Failure(CorruptData)
    case None => Failure(CorruptData)
  }

  /** The copy of the source: one bulk append when the reference does not overlap itself, else
      byte by byte, where each byte read may have just been pushed. */
  method CopyMatch(output: Bytes, offset: nat, len: nat) returns (r: Bytes)
    requires 1 <= offset <= |output|
    ensures r == CopyBack(output, offset, len)
  {
    r := output;
    var start := |output| - offset;
    if offset >= len {
      BulkCopy(output, offset, len);
      r := r + output[start..start + len];
    } else {
      for j := 0 to len
        invariant r == CopyBack(output, offset, j)
      {
        CopyBackStep(output, offset, j);
        r := r + [r[start + j]];
      }
    }
  }

  /** Length and offset of the back-reference whose control byte is at `start`. */
  method ReadMatch(compressed: Bytes, start: nat) returns (ok: bool, offset: nat, len: nat, i: nat)
    requires start < |compressed| && compressed[start] >= 32
    ensures ParseToken(compressed, start) == if ok then Some((Match(offset, len), i)) else None
  {
    var ctrl: nat := compressed[start];
    offset, i := 0, start + 1;
    len := ctrl / 32;
    if len == 7 {
      if i >= |compressed| { return false, offset, len, i; }
      len := len + compressed[i];
      i := i + 1;
    }
    len := len + 2;
    if i >= |compressed| { return false, offset, len, i; }
    offset := ctrl % 32 * 256 + compressed[i];
    i := i + 1;
    offset := offset + 1;
    ok := true;
  }

  /** The token loop, with the early checks on output length and offset. */
  method Inflate(compressed: Bytes, expectedLen: nat) returns (r: Result<Bytes>)
    ensures r == Expected(compressed, expectedLen)
  {
    var output: Bytes := [];
    var i := 0;
    while i < |compressed|
      invariant i <= |compressed|
      invariant Meaning(compressed, i, output) == Meaning(compressed, 0, [])
    {
      ghost var before := i;
      var ctrl: nat := compressed[i];
      i := i + 1;
      if ctrl < 32 {
        var len := ctrl + 1;
        if i + len > |compressed| { return Failure(CorruptData); }
        AfterToken(compressed, before, output, Literal(compressed[i..i + len]), i + len);
        if |output| + len > expectedLen { return Failure(CorruptData); }
        output := output + compressed[i..i + len];
        i := i + len;
      } else {
        var ok, offset, len, next := ReadMatch(compressed, i - 1);
        if !ok { return Failure(CorruptData); }
        i := next;
        if offset > |output| { return Failure(CorruptData); }
        AfterToken(compressed, before, output, Match(offset, len), i);
        if |output| + len > expectedLen { return Failure(CorruptData); }
        output := CopyMatch(output, offset, len);
      }
    }
    r := if |output| != expectedLen then Failure(CorruptData) else Success(output);
  }

  /** Decompression succeeds exactly when the stream has a meaning of the expected length, and
      returns that meaning: neither guard nor early check ever changes the answer. */
  method Decompress(compressed: Bytes, expectedLen: nat) returns (r: Result<Bytes>)
    ensures r == Expected(compressed, expectedLen)
  {
    if compressed != [] && expectedLen / |compressed| > MAX_RATIO {
      RatioGuardIsHarmless(compressed, expectedLen);
      return Failure(CorruptData);
    }
    r := Inflate(compressed, expectedLen);
  }

  lemma AfterToken(c: Bytes, i: nat, out: Bytes, t: Token, j: nat)
    requires i < |c| && ParseToken(c, i) == Some((t, j)) && Applies(out, t)
    ensures Meaning(c, i, out) == Meaning(c, j, Apply(out, t))
    ensures |Apply(out, t)| == |out| + if t.Literal? then |t.run| else t.len
    ensures Meaning(c, i, out).Some? ==> |Apply(out, t)| <= |Meaning(c, i, out).value|
  {
    if t.Match? { CopyBackBytes(out, t.offset, t.len); }
    if Tokens(c, j).Some? {
      assert ([t] + Tokens(c, j).value)[1..] == Tokens(c, j).value;
      if Meaning(c, j, Apply(out, t)).Some? { Growth(c, j, Apply(out, t)); }
    }
  }

  /** Round trip and its converse: a stream decompresses to `o` exactly when it is the encoding
      of some token list whose expansion is `o`. */
  lemma AcceptsExactlyEncodings(c: Bytes, o: Bytes)
    ensures Expected(c, |o|) == Success(o)
       <==> exists ts: seq<Token> ::
              (forall t | t in ts :: Encodable(t)) && c == EncodeAll(ts) && Expand([], ts) == Some(o)
  {
    assert c[0..] == c == c[0..|c|];
    if Expected(c, |o|) == Success(o) {
      TokensSound(c, 0);
      var ts := Tokens(c, 0).value;
      assert (forall t | t in ts :: Encodable(t)) && c == EncodeAll(ts) && Expand([], ts) == Some(o);
    }
    forall ts: seq<Token> | (forall t | t in ts :: Encodable(t)) && c == EncodeAll(ts) && Expand([], ts) == Some(o)
      ensures Expected(c, |o|) == Success(o)
    {
      TokensEncoded(c, 0, ts);
    }
  }

  /** The ratio guard rejects no stream that has the expected length. */
  lemma RatioGuardIsHarmless(c: Bytes, n: nat)
    requires c != [] && n / |c| > MAX_RATIO
    ensures Expected(c, n).Failure?
  {
    if Meaning(c, 0, []).Some? { Growth(c, 0, []); }
  }
}
