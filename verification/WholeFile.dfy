/** Files from their first byte: opening a printed file and reading it to the end. */
module WholeFile {
  import opened Common
  import opened Types
  import opened Wire
  import opened Machine
  import opened FileFormat
  import opened Reader
  import Chunking
  import Printing

  predicate Accepted(h: Header) { if h.magic.Redis? then 1 <= h.version <= 11 else h.version == 80 }

  function PrintHeader(h: Header): (s: Bytes)
    requires h.version < 1000
    ensures |s| == 9
  {
    (if h.magic.Redis? then [82, 69, 68, 73, 83, 48] else [86, 65, 76, 75, 69, 89])
    + [48 + h.version / 100, 48 + h.version / 10 % 10, 48 + h.version % 10]
  }

  lemma VersionReads(v: nat)
    requires v < 1000
    ensures ParseVersion([48 + v / 100, 48 + v / 10 % 10, 48 + v % 10]) == Some(v)
  {}

  /** A printed header reads back when its version is accepted for its magic, and is refused as
      unsupported when it is not. */
  lemma HeaderRoundTrip(h: Header)
    requires h.version < 1000
    ensures ParseHeader(PrintHeader(h)) == if Accepted(h) then Success(h) else Failure(UnsupportedVersion(h.version))
  {
    var s := PrintHeader(h);
    VersionReads(h.version);
    hide ParseVersion;
    assert s[..6] == if h.magic.Redis? then REDIS_MAGIC else VALKEY_MAGIC;
    assert REDIS_MAGIC[0] != VALKEY_MAGIC[0];
    assert s[6..] == [48 + h.version / 100, 48 + h.version / 10 % 10, 48 + h.version % 10];
  }

  /** How a header may be spelt: with three digits, or with a plus sign in place of a leading zero. */
  predicate Spells(s: Bytes, h: Header) {
    h.version < 1000 && (s == PrintHeader(h) || (h.version < 100 && s == PrintHeader(h)[6 := 43]))
  }

  lemma SpeltVersion(s: Bytes)
    requires |s| == 9
    ensures var v := ParseVersion(s[6..]);
            && (v.Some? ==> v.value < 1000
                            && (s[6..] == [48 + v.value / 100, 48 + v.value / 10 % 10, 48 + v.value % 10]
                                || (v.value < 100 && s[6..] == [43, 48 + v.value / 10, 48 + v.value % 10])))
  {
    var t := s[6..];
    var v := ParseVersion(t);
    if v.Some? {
      if IsDigit(t[0]) {
        Digits3(t[0] as nat - 48, t[1] as nat - 48, t[2] as nat - 48);
      } else {
        Digits3(0, t[1] as nat - 48, t[2] as nat - 48);
      }
    }
  }

  lemma Digits3(a: nat, b: nat, c: nat)
    requires a < 10 && b < 10 && c < 10
    ensures var v := a * 100 + b * 10 + c; v / 100 == a && v / 10 % 10 == b && v % 10 == c && (a == 0 ==> v / 10 == b)
  {}

  lemma SignedReads(v: nat)
    requires v < 100
    ensures ParseVersion([43, 48 + v / 10, 48 + v % 10]) == Some(v)
  {}

  /** Every nine bytes: a header spelt out is read if its version is accepted and unsupported if not, and
      anything else is no header. */
  lemma HeaderExactly(s: Bytes)
    requires |s| == 9
    ensures forall h | Spells(s, h) ::
              ParseHeader(s) == if Accepted(h) then Success(h) else Failure(UnsupportedVersion(h.version))
    ensures (forall h: Header :: !Spells(s, h)) ==> ParseHeader(s) == Failure(InvalidMagic)
  {
    hide ParseVersion;
    forall h | Spells(s, h)
      ensures ParseHeader(s) == if Accepted(h) then Success(h) else Failure(UnsupportedVersion(h.version))
    {
      HeaderRoundTrip(h);
      if s != PrintHeader(h) {
        SignedReads(h.version);
        var p := PrintHeader(h);
        assert s[..6] == p[..6] == if h.magic.Redis? then REDIS_MAGIC else VALKEY_MAGIC;
        assert s[6..] == [43, 48 + h.version / 10, 48 + h.version % 10];
        assert REDIS_MAGIC[0] != VALKEY_MAGIC[0];
      }
    }
    if ParseHeader(s) != Failure(InvalidMagic) {
      SpeltVersion(s);
      var h := Header(if s[..6] == REDIS_MAGIC then Redis else Valkey, ParseVersion(s[6..]).value);
      assert s == s[..6] + s[6..];
      assert Spells(s, h);
    }
  }

  /** The eager scan for AUX fields never fails on a printed file. */
  lemma {:induction false} PreambleReads(env: Env, rs: seq<Record>, d: Bytes, s: State)
    requires FitAll(env, rs) && s.pos <= |d| && s.preamble.None? && At(d, s.pos, PrintAll(env, rs) + [OP_EOF])
    ensures ReadPreamble(env, d, s).Ok?
    decreases |rs|
  {
    hide ReadRecord, Fits, Print, Body, After, At;
    if rs == [] {
      assert PrintAll(env, rs) + [OP_EOF] == [OP_EOF];
      EofInHand(d, s.pos);
    } else {
      var b, more := Print(env, rs[0]), PrintAll(env, rs[1..]);
      assert Fits(env, rs[0]);
      assert PrintAll(env, rs) + [OP_EOF] == b + (more + [OP_EOF]);
      AtSplit(d, s.pos, b, more + [OP_EOF]);
      OpcodeAt(env, rs[0], d, s.pos);
      NotAux(rs[0]);
      if rs[0].Aux? {
        var s1 := s.(pos := s.pos + 1);
        Printing.AtInside(d, s1.pos, Body(env, rs[0]));
        RecordReads(env, rs[0], d, s1);
        AuxKeeps(env, rs[0], s1);
        var s2 := After(env, rs[0], s1).(pos := s.pos + |b|);
        PreambleReads(env, rs[1..], d, s2);
      }
    }
  }

  lemma EofInHand(d: Bytes, p: nat)
    requires At(d, p, [OP_EOF])
    ensures p < |d| && d[p] == OP_EOF
  {
    assert d[p] == d[p..p + 1][0];
  }

  lemma NotAux(r: Record)
    ensures r.Aux? ==> Opcode(r) == OP_AUX
    ensures !r.Aux? && !r.Key? ==> Opcode(r) != OP_AUX
  {}

  lemma AuxKeeps(env: Env, r: Record, s: State)
    requires Fits(env, r) && r.Aux?
    ensures After(env, r, s).preamble == s.preamble
  {
    hide Fits;
  }

  /** A file: header, records, the EOF opcode, a trailer, and whatever follows it. */
  ghost function PrintFile(env: Env, h: Header, rs: seq<Record>, trailer: Bytes, rest: Bytes): Bytes
    requires h.version < 1000 && FitAll(env, rs)
  {
    PrintHeader(h) + ((PrintAll(env, rs) + [OP_EOF]) + (trailer + rest))
  }

  /** Opening a printed file with an accepted header succeeds, and reading it to the end yields
      exactly what its records stand for, starting from database 0 with no metadata; the reader
      stops after the trailer, and has checked the checksum exactly when the trailer holds it. */
  lemma {:induction false} FileReadsBack(env: Env, h: Header, rs: seq<Record>, trailer: Bytes, rest: Bytes)
    requires Accepted(h) && FitAll(env, rs) && |trailer| == 8
    ensures var d := PrintFile(env, h, rs, trailer, rest);
            var cfg := Config(env, h.version, None);
            var p := 9 + |PrintAll(env, rs)| + 1;
            && p + 8 <= |d|
            && Start(env, d).Success? && Start(env, d).value.header == h
            && var s := Start(env, d).value.state;
               && Valid(cfg, d, s) && s.chunked.None? && !s.finished
               && var t := Run(cfg, d, s);
                  && t.items == YieldAll(env, rs, Fresh(9)) + Verdict(cfg, d, p)
                  && t.final.pos == p + 8 && t.final.crcChecked == GoodTrailer(cfg, d, p)
  {
    hide Run, ParseHeader, ReadPreamble, PrintHeader, FitAll, PrintAll, YieldAll, AfterAll, Verdict, GoodTrailer, At;
    var d := PrintFile(env, h, rs, trailer, rest);
    var cfg := Config(env, h.version, None);
    HeaderRoundTrip(h);
    Layout(PrintHeader(h), PrintAll(env, rs) + [OP_EOF], trailer + rest);
    PreambleReads(env, rs, d, Fresh(9));
    PreambleTransparent(cfg, d, Fresh(9));
    FileRoundTrip(cfg, rs, d, Fresh(9));
    var s := Start(env, d).value.state;
    assert Resting(Fresh(9));
  }

  lemma Layout(head: Bytes, body: Bytes, tail: Bytes)
    requires |head| == 9
    ensures var d := head + (body + tail); Take(d, 0, 9) == Ok(head, 9) && At(d, 9, body)
  {
    var d := head + (body + tail);
    assert d[0..9] == head;
    assert d[9..9 + |body|] == body;
  }

  /** The same file under any chunk limit: the chunks put together are the same items. */
  lemma {:induction false} FileReadsBackChunked(env: Env, h: Header, k: nat, rs: seq<Record>, trailer: Bytes,
      rest: Bytes)
    requires k > 0 && Accepted(h) && FitAll(env, rs) && |trailer| == 8
    ensures var d := PrintFile(env, h, rs, trailer, rest);
            var cfg := Config(env, h.version, Some(k));
            var p := 9 + |PrintAll(env, rs)| + 1;
            && p + 8 <= |d| && Start(env, d).Success?
            && var s := Start(env, d).value.state;
               && Valid(cfg, d, s)
               && Chunking.Merge(None, Run(cfg, d, s).items) == YieldAll(env, rs, Fresh(9)) + Verdict(cfg, d, p)
               && Chunking.WellChunked(k, None, Run(cfg, d, s).items)
  {
    hide Run, Start, PrintFile, FitAll, PrintAll, YieldAll, Verdict, Chunking.Merge, Chunking.WellChunked;
    var d := PrintFile(env, h, rs, trailer, rest);
    FileReadsBack(env, h, rs, trailer, rest);
    var whole := Config(env, h.version, None);
    assert Chunking.Whole(whole) == whole && Chunking.Limited(whole, k) == Config(env, h.version, Some(k));
    Chunking.Refines(whole, k, d, Start(env, d).value.state);
    SameVerdict(whole, k, d, 9 + |PrintAll(env, rs)| + 1);
  }

  lemma SameVerdict(cfg: Config, k: nat, d: Bytes, p: nat)
    requires p + 8 <= |d|
    ensures Verdict(Chunking.Limited(cfg, k), d, p) == Verdict(Chunking.Whole(cfg), d, p)
  {
    hide Computed;
  }
}
