/**
 What the checksum catches and what it does not: damage within eight consecutive bytes of a file that
 was read and verified.
 */
module Damage {
  import opened Common
  import opened Types
  import opened Wire
  import opened Machine
  import opened Verdict
  import BitLists
  import Burst
  import Compact
  import Crc64
  import FileFormat
  import Printing
  import Reader
  import WholeFile

  lemma ChecksumsDiffer(pre: Bytes, u: Bytes, v: Bytes, post: Bytes)
    requires |u| == |v| <= 8 && u != v
    ensures var poly, c := Crc64.Poly(), Crc64.Zeros(64);
            BitLists.Value(Crc64.Crc(poly, c, pre + u + post)) != BitLists.Value(Crc64.Crc(poly, c, pre + v + post))
  {
    hide Crc64.Crc, Crc64.Poly, BitLists.Bits, BitLists.Value;
    var poly, c := Crc64.Poly(), Crc64.Zeros(64);
    Burst.PolyInvertible();
    Burst.ByteBurstDetected(poly, c, pre, u, v, post);
    BitLists.BitsOfValue(Crc64.Crc(poly, c, pre + u + post));
    BitLists.BitsOfValue(Crc64.Crc(poly, c, pre + v + post));
  }

  lemma PrefixOf(pre: Bytes, w: Bytes, post: Bytes, p: nat)
    requires |pre| + |w| <= p <= |pre| + |w| + |post|
    ensures var d := pre + w + post; d[..p] == pre + w + post[..p - |pre| - |w|]
  {}

  lemma SuffixOf(pre: Bytes, u: Bytes, v: Bytes, post: Bytes, p: nat)
    requires |u| == |v| && |pre| + |u| <= p && p + 8 <= |pre| + |u| + |post|
    ensures (pre + u + post)[p..p + 8] == (pre + v + post)[p..p + 8]
  {}

  /** Before an unchanged trailer that claims the right checksum, changed bytes make it a wrong one. */
  lemma TrailerTurnsBad(a: Config, b: Config, pre: Bytes, u: Bytes, v: Bytes, post: Bytes, p: nat)
    requires |u| == |v| <= 8 && u != v && |pre| + |u| <= p && p + 8 <= |pre| + |u| + |post|
    requires FileFormat.GoodTrailer(a, pre + u + post, p)
    ensures FileFormat.BadTrailer(b, pre + v + post, p) <==> b.version >= 5
  {
    hide Crc64.Crc, Crc64.Poly, BitLists.Value, Le;
    var k := p - |pre| - |u|;
    PrefixOf(pre, u, post, p);
    PrefixOf(pre, v, post, p);
    SuffixOf(pre, u, v, post, p);
    ChecksumsDiffer(pre, u, v, post[..k]);
  }

  /** The file opens, and reading it reports nothing but skipped types. */
  predicate Unreported(env: Env, d: Bytes, max: Option<nat>)
    requires PositiveLimit(max)
  {
    Reader.Start(env, d).Success? && Clean(FileRun(env, d, max).items)
  }

  /** The file opens, is read without complaint, and its checksum is verified, at a trailer that starts
      at `p` or later. */
  predicate VerifiedFrom(env: Env, d: Bytes, max: Option<nat>, p: nat)
    requires PositiveLimit(max)
  {
    && Unreported(env, d, max)
    && var s := FileRun(env, d, max).final; s.crcChecked && p + 8 <= s.pos
  }

  /** Exactly when damage within eight consecutive bytes of a verified file goes unreported: when the
      damaged file still opens, and either it meets EOF at the same place under a version that has no
      checksum, or it meets EOF at another place, where a trailer happens to pass. */
  lemma DamageDetected(env: Env, max: Option<nat>, pre: Bytes, u: Bytes, v: Bytes, post: Bytes)
    requires PositiveLimit(max) && |u| == |v| <= 8 && u != v
    requires VerifiedFrom(env, pre + u + post, max, |pre| + |u|)
    ensures var d := pre + v + post;
            var end := FileRun(env, pre + u + post, max).final.pos;
            Unreported(env, d, max) <==>
               && Reader.Start(env, d).Success?
               && FileEof(env, d, max).Some?
               && var cfg, p := ConfigOf(env, d, max), FileEof(env, d, max).value;
                  if p + 8 == end then cfg.version < 5 else TrailerPasses(cfg, d, p)
  {
    hide FileRun, FileEof, ConfigOf, Reader.Start, Clean, FileFormat.BadTrailer, FileFormat.GoodTrailer;
    var whole, d := pre + u + post, pre + v + post;
    FileVerdict(env, whole, max);
    if Reader.Start(env, d).Success? {
      FileVerdict(env, d, max);
      var p := FileRun(env, whole, max).final.pos - 8;
      TrailerTurnsBad(ConfigOf(env, whole, max), ConfigOf(env, d, max), pre, u, v, post, p);
    }
  }

  lemma HeaderSame(env: Env, pre: Bytes, u: Bytes, v: Bytes, post: Bytes, max: Option<nat>)
    requires |u| == |v| && |pre| >= 9
    requires Reader.Start(env, pre + u + post).Success? && Reader.Start(env, pre + v + post).Success?
    ensures ConfigOf(env, pre + u + post, max) == ConfigOf(env, pre + v + post, max)
  {
    hide ReadPreamble, Reader.ParseHeader;
    assert (pre + u + post)[0..9] == pre[..9] == (pre + v + post)[0..9];
  }

  lemma GoodIsNew(env: Env, d: Bytes, max: Option<nat>)
    requires PositiveLimit(max) && VerifiedFrom(env, d, max, 0)
    ensures ConfigOf(env, d, max).version >= 5
  {
    hide FileRun, FileEof, ConfigOf, Reader.Start, Clean, Computed, Le;
    FileVerdict(env, d, max);
  }

  /** So behind the header, damage that leaves the EOF opcode where it was is always reported: as
      corruption, at the end of the trailer. */
  lemma DamageInPlaceReported(env: Env, max: Option<nat>, pre: Bytes, u: Bytes, v: Bytes, post: Bytes)
    requires PositiveLimit(max) && |u| == |v| <= 8 && u != v && |pre| >= 9
    requires VerifiedFrom(env, pre + u + post, max, |pre| + |u|)
    requires var d := pre + v + post;
             && Reader.Start(env, d).Success? && FileEof(env, d, max).Some?
             && FileEof(env, d, max).value + 8 == FileRun(env, pre + u + post, max).final.pos
    ensures var d := pre + v + post;
            var t := FileRun(env, d, max);
            && t.items != [] && t.items[|t.items| - 1] == Err(CorruptData)
            && t.final.pos == FileRun(env, pre + u + post, max).final.pos && !t.final.crcChecked
  {
    hide FileRun, FileEof, ConfigOf, Reader.Start, Clean, EndsWell, FileFormat.BadTrailer, FileFormat.GoodTrailer;
    var d := pre + v + post;
    DamageDetected(env, max, pre, u, v, post);
    HeaderSame(env, pre, u, v, post, max);
    GoodIsNew(env, pre + u + post, max);
    FileVerdict(env, pre + u + post, max);
    FileVerdict(env, d, max);
    CleanNone();
  }

  // ----- from record to record -----

  /** What opening and reading a printed file gives, in the terms of this module. */
  lemma {:induction false} FileReads(env: Env, h: Reader.Header, rs: seq<FileFormat.Record>, trailer: Bytes,
      rest: Bytes)
    requires WholeFile.Accepted(h) && FileFormat.FitAll(env, rs) && |trailer| == 8
    ensures var d, cfg := WholeFile.PrintFile(env, h, rs, trailer, rest), Config(env, h.version, None);
            var p := 9 + |FileFormat.PrintAll(env, rs)| + 1;
            && p + 8 <= |d| && Reader.Start(env, d).Success? && ConfigOf(env, d, None) == cfg
            && FileRun(env, d, None).items
               == FileFormat.YieldAll(env, rs, Reader.Fresh(9)) + FileFormat.Verdict(cfg, d, p)
            && FileRun(env, d, None).final.crcChecked == FileFormat.GoodTrailer(cfg, d, p)
            && FileRun(env, d, None).final.pos == p + 8
  {
    hide Run, Reader.Start, WholeFile.PrintFile, FileFormat.FitAll, FileFormat.PrintAll, FileFormat.YieldAll;
    hide FileFormat.GoodTrailer, FileFormat.Verdict;
    WholeFile.FileReadsBack(env, h, rs, trailer, rest);
  }

  /** The damage turns one verified file of records into another file of records as long: the reader
      delivers what the changed records stand for, and then reports corruption. */
  lemma {:induction false} ChangedRecordsReported(
    env: Env, h: Reader.Header, rs: seq<FileFormat.Record>, qs: seq<FileFormat.Record>, trailer: Bytes, rest: Bytes,
    pre: Bytes, u: Bytes, v: Bytes, post: Bytes)
    requires WholeFile.Accepted(h) && FileFormat.FitAll(env, rs) && FileFormat.FitAll(env, qs) && |trailer| == 8
    requires |FileFormat.PrintAll(env, rs)| == |FileFormat.PrintAll(env, qs)|
    requires WholeFile.PrintFile(env, h, rs, trailer, rest) == pre + u + post
    requires WholeFile.PrintFile(env, h, qs, trailer, rest) == pre + v + post
    requires |u| == |v| <= 8 && u != v
    requires var p := 9 + |FileFormat.PrintAll(env, rs)| + 1;
             && |pre| + |u| <= p && p + 8 <= |pre + u + post|
             && FileFormat.GoodTrailer(Config(env, h.version, None), pre + u + post, p)
    ensures Reader.Start(env, pre + v + post).Success?
    ensures FileRun(env, pre + v + post, None).items
            == FileFormat.YieldAll(env, qs, Reader.Fresh(9)) + [Err(CorruptData)]
  {
    hide FileRun, ConfigOf, Reader.Start, WholeFile.PrintFile, FileFormat.FitAll, FileFormat.PrintAll;
    hide FileFormat.YieldAll;
    hide Computed, Le;
    var cfg := Config(env, h.version, None);
    FileReads(env, h, qs, trailer, rest);
    TrailerTurnsBad(cfg, cfg, pre, u, v, post, 9 + |FileFormat.PrintAll(env, rs)| + 1);
  }

  // ----- damage that is not reported -----

  function VersionDigits(v: nat): Bytes
    requires v < 1000
  {
    [48 + v / 100, 48 + v / 10 % 10, 48 + v % 10]
  }

  /** The checksum covers the version, but below version 5 nothing is compared: rewriting the three
      version digits of any file to an older version leaves it reading the same, unverified. */
  lemma {:induction false} VersionDamageUnreported(
    env: Env, version: nat, oldVersion: nat, rs: seq<FileFormat.Record>, trailer: Bytes, rest: Bytes)
    requires 5 <= version <= 11 && 1 <= oldVersion < 5 && FileFormat.FitAll(env, rs) && |trailer| == 8
    ensures var whole := WholeFile.PrintFile(env, Reader.Header(Reader.Redis, version), rs, trailer, rest);
            var d := WholeFile.PrintFile(env, Reader.Header(Reader.Redis, oldVersion), rs, trailer, rest);
            var tail := (FileFormat.PrintAll(env, rs) + [OP_EOF]) + (trailer + rest);
            && whole == Reader.REDIS_MAGIC + VersionDigits(version) + tail
            && d == Reader.REDIS_MAGIC + VersionDigits(oldVersion) + tail
            && Reader.Start(env, d).Success?
            && FileRun(env, d, None).items == FileFormat.YieldAll(env, rs, Reader.Fresh(9))
            && !FileRun(env, d, None).final.crcChecked
  {
    hide FileRun, ConfigOf, Reader.Start, FileFormat.FitAll, FileFormat.PrintAll, FileFormat.YieldAll, Computed, Le;
    var h := Reader.Header(Reader.Redis, oldVersion);
    FileReads(env, h, rs, trailer, rest);
    var items := FileFormat.YieldAll(env, rs, Reader.Fresh(9));
    assert items + [] == items;
  }

  /** A function library whose payload is twenty zero bytes. */
  function Library(): FileFormat.Record {
    FileFormat.Function2(Printing.Plain(Zeros(20), Printing.Bits6))
  }

  function Zeros(n: nat): (s: Bytes)
    ensures |s| == n && forall i | 0 <= i < n :: s[i] == 0
  {
    seq(n, i => 0)
  }

  lemma LibraryPrints(env: Env)
    ensures FileFormat.Fits(env, Library()) && FileFormat.Print(env, Library()) == [OP_FUNCTION2, 20] + Zeros(20)
  {}

  lemma ZerosAreZero()
    ensures Le(Zeros(8)) == 0
  {}

  /** A file that starts with that library and goes on with any records at all; two damaged bytes turn
      it into an EOF opcode before a zero trailer. The reader ends there, with no item and no error:
      everything behind is lost unreported. */
  lemma {:induction false} EarlyEofUnreported(env: Env, h: Reader.Header, rs: seq<FileFormat.Record>, trailer: Bytes,
      rest: Bytes)
    requires WholeFile.Accepted(h) && FileFormat.FitAll(env, rs) && |trailer| == 8
    ensures FileFormat.FitAll(env, [Library()] + rs)
    ensures var whole := WholeFile.PrintFile(env, h, [Library()] + rs, trailer, rest);
            var post := Zeros(20) + ((FileFormat.PrintAll(env, rs) + [OP_EOF]) + (trailer + rest));
            var d := WholeFile.PrintHeader(h) + [OP_EOF, 0] + post;
            && whole == WholeFile.PrintHeader(h) + [OP_FUNCTION2, 20] + post
            && Reader.Start(env, d).Success?
            && FileRun(env, d, None).items == [] && !FileRun(env, d, None).final.crcChecked
  {
    hide FileRun, ConfigOf, Reader.Start, FileFormat.Fits, Computed, Le, Library, Zeros, WholeFile.PrintHeader;
    hide FileFormat.PrintAll, FileFormat.YieldAll;
    LibraryFirst(env, rs);
    NoRecords(env);
    var tail := (FileFormat.PrintAll(env, rs) + [OP_EOF]) + (trailer + rest);
    TwoViews(WholeFile.PrintHeader(h), FileFormat.PrintAll(env, rs), tail, trailer + rest);
    FileReads(env, h, [], Zeros(8), Zeros(13) + tail);
    ZerosAreZero();
    var d := WholeFile.PrintHeader(h) + [OP_EOF, 0] + (Zeros(20) + tail);
    assert d[10..18] == Zeros(8);
  }

  lemma {:induction false} LibraryFirst(env: Env, rs: seq<FileFormat.Record>)
    requires FileFormat.FitAll(env, rs)
    ensures FileFormat.FitAll(env, [Library()] + rs)
    ensures FileFormat.PrintAll(env, [Library()] + rs) == [OP_FUNCTION2, 20] + Zeros(20) + FileFormat.PrintAll(env, rs)
  {
    hide FileFormat.Fits, FileFormat.Print, Library, Zeros;
    LibraryPrints(env);
    assert ([Library()] + rs)[1..] == rs;
  }

  lemma {:induction false} NoRecords(env: Env)
    ensures FileFormat.PrintAll(env, []) == [] && FileFormat.YieldAll(env, [], Reader.Fresh(9)) == []
  {}

  lemma TwoViews(head: Bytes, records: Bytes, tail: Bytes, last: Bytes)
    requires tail == (records + [OP_EOF]) + last
    ensures head + ((([OP_FUNCTION2, 20] + Zeros(20) + records) + [OP_EOF]) + last)
         == head + [OP_FUNCTION2, 20] + (Zeros(20) + tail)
    ensures head + (([] + [OP_EOF]) + (Zeros(8) + (Zeros(13) + tail))) == head + [OP_EOF, 0] + (Zeros(20) + tail)
  {
    assert [0] + Zeros(20) == Zeros(8) + Zeros(13);
  }

  // ----- verified files exist -----

  lemma ComputedFits(d: Bytes, p: nat)
    requires p <= |d|
    ensures Computed(d, p) < U64
  {
    hide Crc64.Crc, Crc64.Poly, BitLists.Value, BitLists.Pow2;
    BitLists.Pow2Of64();
    BitLists.ValueBelow(Crc64.Crc(Crc64.Poly(), Crc64.Zeros(64), d[..p]));
  }

  /** The checksum of a file of these records and this version. */
  ghost function Checksum(env: Env, version: nat, rs: seq<FileFormat.Record>): nat
    requires version < 1000 && FileFormat.FitAll(env, rs)
  {
    var head := WholeFile.PrintHeader(Reader.Header(Reader.Redis, version));
    var body := head + (FileFormat.PrintAll(env, rs) + [OP_EOF]);
    Computed(body, |body|)
  }

  lemma {:induction false} ChecksumInFile(env: Env, version: nat, rs: seq<FileFormat.Record>, trailer: Bytes,
      rest: Bytes)
    requires version < 1000 && FileFormat.FitAll(env, rs) && |trailer| == 8
    ensures var d := WholeFile.PrintFile(env, Reader.Header(Reader.Redis, version), rs, trailer, rest);
            var p := 9 + |FileFormat.PrintAll(env, rs)| + 1;
            && p + 8 <= |d| && d[p..p + 8] == trailer && Computed(d, p) == Checksum(env, version, rs)
  {
    hide BitLists.Value, Crc64.Crc, Crc64.Poly, WholeFile.PrintHeader, FileFormat.FitAll, FileFormat.PrintAll;
    var head := WholeFile.PrintHeader(Reader.Header(Reader.Redis, version));
    var body := head + (FileFormat.PrintAll(env, rs) + [OP_EOF]);
    var d := WholeFile.PrintFile(env, Reader.Header(Reader.Redis, version), rs, trailer, rest);
    assert d == body + (trailer + rest);
    assert d[..|body|] == body == body[..|body|];
  }

  lemma TwoChecksums(env: Env, rs: seq<FileFormat.Record>)
    requires FileFormat.FitAll(env, rs)
    ensures Checksum(env, 10, rs) != Checksum(env, 11, rs)
  {
    hide BitLists.Value, Crc64.Crc, Crc64.Poly, FileFormat.FitAll, FileFormat.PrintAll;
    var pre, post := Reader.REDIS_MAGIC + [48, 49], FileFormat.PrintAll(env, rs) + [OP_EOF];
    var a, b := WholeFile.PrintHeader(Reader.Header(Reader.Redis, 10)),
        WholeFile.PrintHeader(Reader.Header(Reader.Redis, 11));
    assert a + post == pre + [48] + post && b + post == pre + [49] + post;
    assert (a + post)[..|a + post|] == a + post && (b + post)[..|b + post|] == b + post;
    ChecksumsDiffer(pre, [48], [49], post);
  }

  /** Any records make a verified file, at version 10 or 11: the checksums of the two versions differ,
      so one of them is not zero. */
  lemma VerifiedFileExists(env: Env, rs: seq<FileFormat.Record>, rest: Bytes) returns (version: nat, trailer: Bytes)
    requires FileFormat.FitAll(env, rs)
    ensures (version == 10 || version == 11) && |trailer| == 8
    ensures var d := WholeFile.PrintFile(env, Reader.Header(Reader.Redis, version), rs, trailer, rest);
            && Reader.Start(env, d).Success?
            && VerifiedFrom(env, d, None, 9 + |FileFormat.PrintAll(env, rs)| + 1)
            && FileRun(env, d, None).items == FileFormat.YieldAll(env, rs, Reader.Fresh(9))
  {
    hide Clean, VerifiedFrom, Computed, Le, Checksum, FileRun, ConfigOf, Reader.Start, WholeFile.PrintFile;
    hide FileFormat.FitAll;
    hide FileFormat.PrintAll, FileFormat.YieldAll, Pow256;
    TwoChecksums(env, rs);
    version := if Checksum(env, 11, rs) != 0 then 11 else 10;
    var sum := Checksum(env, version, rs);
    ChecksumBelow(env, version, rs);
    PowValues();
    trailer := ToLe(sum, 8);
    LeOfToLe(sum, 8);
    ChecksumInFile(env, version, rs, trailer, rest);
    FileReads(env, Reader.Header(Reader.Redis, version), rs, trailer, rest);
    var items := FileFormat.YieldAll(env, rs, Reader.Fresh(9));
    assert items + [] == items;
    FlagIsVerified(env, WholeFile.PrintFile(env, Reader.Header(Reader.Redis, version), rs, trailer, rest), None);
  }

  /** Only clean runs carry the flag. */
  lemma FlagIsVerified(env: Env, d: Bytes, max: Option<nat>)
    requires PositiveLimit(max) && Reader.Start(env, d).Success? && FileRun(env, d, max).final.crcChecked
    ensures forall p: nat | p + 8 <= FileRun(env, d, max).final.pos :: VerifiedFrom(env, d, max, p)
  {
    hide FileRun, Reader.Start, Clean, EndsWell, Settled;
    FileVerdict(env, d, max);
  }

  lemma ChecksumBelow(env: Env, version: nat, rs: seq<FileFormat.Record>)
    requires version < 1000 && FileFormat.FitAll(env, rs)
    ensures Checksum(env, version, rs) < U64
  {
    hide Computed, FileFormat.FitAll, FileFormat.PrintAll, WholeFile.PrintHeader;
    var head := WholeFile.PrintHeader(Reader.Header(Reader.Redis, version));
    var body := head + (FileFormat.PrintAll(env, rs) + [OP_EOF]);
    ComputedFits(body, |body|);
  }

  /** So some verified file of any records, damaged in two bytes, loses them all unreported. */
  lemma VerifiedYetLost(env: Env, rs: seq<FileFormat.Record>) returns (pre: Bytes, u: Bytes, v: Bytes, post: Bytes)
    requires FileFormat.FitAll(env, rs)
    ensures |u| == |v| == 2 && u != v && |pre| == 9
    ensures VerifiedFrom(env, pre + u + post, None, |pre| + |u|)
    ensures FileRun(env, pre + u + post, None).items == FileFormat.YieldAll(env, [Library()] + rs, Reader.Fresh(9))
    ensures Unreported(env, pre + v + post, None) && FileRun(env, pre + v + post, None).items == []
  {
    hide FileRun, FileEof, Reader.Start, FileFormat.FitAll, FileFormat.PrintAll, FileFormat.YieldAll, Library;
    hide Zeros, Clean;
    hide WholeFile.PrintHeader, WholeFile.PrintFile;
    LibraryFirst(env, rs);
    var all := [Library()] + rs;
    var version, trailer := VerifiedFileExists(env, all, []);
    var h := Reader.Header(Reader.Redis, version);
    EarlyEofUnreported(env, h, rs, trailer, []);
    pre, u, v := WholeFile.PrintHeader(h), [OP_FUNCTION2, 20], [OP_EOF, 0];
    post := Zeros(20) + ((FileFormat.PrintAll(env, rs) + [OP_EOF]) + (trailer + []));
    CleanNone();
  }
}
