/**
 The reader accepts exactly the printed files: a file that opens and is read to a clean end consists
 of printed records, an EOF opcode and a trailer that passes, and the items are what they stand for.
 */
module FileRecovery {
  import opened Common
  import opened Types
  import opened Wire
  import opened Machine
  import opened Printing
  import opened ValueFormat
  import opened Values
  import opened FileFormat
  import opened Recovery
  import opened Verdict
  import Chunking
  import Compact
  import Intset
  import Listpack
  import Locality
  import Reader
  import StreamPack
  import Summary
  import WholeFile
  import Ziplist

  // ----- the one recoverable error -----

  lemma {:induction false} ListpackErrors(d: Bytes, p: nat)
    requires p <= |d| && Listpack.DecodeFrom(d, p).Failure?
    ensures Listpack.DecodeFrom(d, p).error == CorruptData
    decreases |d| - p
  {
    hide Listpack.DecodeEntry, Listpack.BacklenSpec;
    if p < |d| && d[p] != Listpack.LP_EOF && Listpack.DecodeEntry(d, p).Success? {
      var n := Listpack.DecodeEntry(d, p).value.1;
      var next := p + n + Listpack.BacklenSize(n);
      if next <= |d| && Listpack.DecodeFrom(d, next).Failure? { ListpackErrors(d, next); }
    }
  }

  lemma ListpackCorrupt(d: Bytes)
    requires Listpack.DecodeSpec(d).Failure?
    ensures Listpack.DecodeSpec(d).error == CorruptData
  {
    hide Listpack.DecodeFrom;
    if |d| >= Listpack.LP_HDR_SIZE && Listpack.DecodeFrom(d, Listpack.LP_HDR_SIZE).Failure? {
      ListpackErrors(d, Listpack.LP_HDR_SIZE);
    }
  }

  lemma ZiplistCorrupt(d: Bytes)
    requires Ziplist.DecodeSpec(d).Failure?
    ensures Ziplist.DecodeSpec(d).error == CorruptData
  {
    hide Ziplist.DecodeFrom;
  }

  lemma {:induction false} StreamItemErrors(
    es: seq<Compact.CompactEntry>, p: nat, n: nat, ms: nat, sq: nat, names: seq<Bytes>, room: nat)
    requires p <= |es| && StreamPack.ParseItems(es, p, n, ms, sq, names, room).Failure?
    ensures StreamPack.ParseItems(es, p, n, ms, sq, names, room).error == CorruptData
    decreases n
  {
    hide StreamPack.ParseItem;
    if n > 0 && StreamPack.ParseItem(es, p, ms, sq, names).Success? {
      var x := StreamPack.ParseItem(es, p, ms, sq, names).value;
      if x.deleted {
        if StreamPack.ParseItems(es, x.next, n - 1, ms, sq, names, room).Failure? {
          StreamItemErrors(es, x.next, n - 1, ms, sq, names, room);
        }
      } else if room > 0 {
        if StreamPack.ParseItems(es, x.next, n - 1, ms, sq, names, room - 1).Failure? {
          StreamItemErrors(es, x.next, n - 1, ms, sq, names, room - 1);
        }
      }
    }
  }

  lemma StreamPackCorrupt(ms: nat, sq: nat, blob: Bytes, budget: nat)
    requires StreamPack.DecodeBlob(ms, sq, blob, budget).Failure?
    ensures StreamPack.DecodeBlob(ms, sq, blob, budget).error == CorruptData
  {
    hide StreamPack.ParseHeader, StreamPack.ParseItems, Listpack.DecodeSpec;
    if Listpack.DecodeSpec(blob).Failure? {
      ListpackCorrupt(blob);
    } else {
      var es := Listpack.DecodeSpec(blob).value;
      if StreamPack.ParseHeader(es).Success? {
        var h := StreamPack.ParseHeader(es).value;
        if StreamPack.ParseItems(es, h.next, h.total, ms, sq, h.names, budget).Failure? {
          StreamItemErrors(es, h.next, h.total, ms, sq, h.names, budget);
        }
      }
    }
  }

  lemma {:induction false} NodesTerminal(v2: bool, n: nat, acc: seq<Bytes>, d: Bytes, p: nat)
    requires p <= |d| && ReadNodes(v2, n, acc, d, p).Fail?
    ensures Terminal(ReadNodes(v2, n, acc, d, p).error)
    decreases n
  {
    hide ReadNode;
    var x := ReadNode(v2, d, p);
    if x.Ok? {
      NodesTerminal(v2, n - 1, acc + x.value, d, x.pos);
    } else {
      NodeTerminal(v2, d, p);
    }
  }

  lemma NodeTerminal(v2: bool, d: Bytes, p: nat)
    requires p <= |d| && ReadNode(v2, d, p).Fail?
    ensures Terminal(ReadNode(v2, d, p).error)
  {
    hide ReadString, ReadLengthValue, Listpack.DecodeSpec, Ziplist.DecodeSpec;
    forall b: Bytes | Listpack.DecodeSpec(b).Failure?
      ensures Listpack.DecodeSpec(b).error == CorruptData
    {
      ListpackCorrupt(b);
    }
    forall b: Bytes | Ziplist.DecodeSpec(b).Failure?
      ensures Ziplist.DecodeSpec(b).error == CorruptData
    {
      ZiplistCorrupt(b);
    }
  }

  lemma AddPackError(acc: Packs, id: Bytes, lp: Bytes)
    requires acc.deferred.Some? ==> acc.deferred.value == CorruptData
    ensures var r := AddPack(acc, id, lp).deferred; r.Some? ==> r.value == CorruptData
  {
    hide StreamPack.DecodeBlob;
    if acc.deferred.None? && |id| == 16 {
      var room := if |acc.entries| <= StreamPack.MAX_STREAM_ENTRIES
          then StreamPack.MAX_STREAM_ENTRIES - |acc.entries| else 0;
      if StreamPack.DecodeBlob(Be(id[..8]), Be(id[8..16]), lp, room).Failure? {
        StreamPackCorrupt(Be(id[..8]), Be(id[8..16]), lp, room);
      }
    }
  }

  lemma {:induction false} PacksTerminal(n: nat, acc: Packs, d: Bytes, p: nat)
    requires p <= |d| && (acc.deferred.Some? ==> acc.deferred.value == CorruptData)
    ensures var r := ReadPacks(n, acc, d, p);
            if r.Fail? then Terminal(r.error) else r.value.deferred.Some? ==> r.value.deferred.value == CorruptData
    decreases n
  {
    hide ReadString, AddPack;
    if n > 0 {
      var a := ReadString(d, p);
      if a.Ok? {
        var b := ReadString(d, a.pos);
        if b.Ok? {
          AddPackError(acc, a.value, b.value);
          PacksTerminal(n - 1, AddPack(acc, a.value, b.value), d, b.pos);
        }
      }
    }
  }

  lemma {:induction false} PelTerminal(n: nat, d: Bytes, p: nat)
    requires p <= |d| && SkipPel(n, d, p).Fail?
    ensures Terminal(SkipPel(n, d, p).error)
    decreases n
  {
    hide SkipPel;
    if n == 0 {
      NonePending(d, p);
    } else {
      OnePending(n - 1, d, p);
      OnePelTerminal(d, p);
      var first := SkipPel(1, d, p);
      if first.Ok? { PelTerminal(n - 1, d, first.pos); }
    }
  }

  lemma {:induction false} OnePelTerminal(d: Bytes, p: nat)
    requires p <= |d|
    ensures var r := SkipPel(1, d, p); r.Fail? ==> Terminal(r.error)
  {
    hide ReadI64, ReadLengthValue;
  }

  lemma {:induction false} IdsTerminal(n: nat, d: Bytes, p: nat)
    requires p <= |d| && SkipIds(n, d, p).Fail?
    ensures Terminal(SkipIds(n, d, p).error)
    decreases n
  {
    hide Take;
    if n > 0 && Take(d, p, 16).Ok? { IdsTerminal(n - 1, d, Take(d, p, 16).pos); }
  }

  lemma {:induction false} OneConsumerTerminal(t: Byte, d: Bytes, p: nat)
    requires p <= |d|
    ensures var r := SkipConsumers(t, 1, d, p); r.Fail? ==> Terminal(r.error)
  {
    hide ReadString, ReadI64, ReadCount, SkipIds;
    forall n: nat, q: nat | q <= |d| && SkipIds(n, d, q).Fail?
      ensures Terminal(SkipIds(n, d, q).error)
    {
      IdsTerminal(n, d, q);
    }
  }

  lemma {:induction false} ConsumersTerminal(t: Byte, n: nat, d: Bytes, p: nat)
    requires p <= |d| && SkipConsumers(t, n, d, p).Fail?
    ensures Terminal(SkipConsumers(t, n, d, p).error)
    decreases n
  {
    hide SkipConsumers;
    if n == 0 {
      NoConsumers(t, d, p);
    } else {
      Locality.OneConsumer(t, n - 1, d, p);
      OneConsumerTerminal(t, d, p);
      var first := SkipConsumers(t, 1, d, p);
      if first.Ok? { ConsumersTerminal(t, n - 1, d, first.pos); }
    }
  }

  lemma GroupTerminal(t: Byte, d: Bytes, p: nat)
    requires p <= |d| && SkipGroup(t, d, p).Fail?
    ensures Terminal(SkipGroup(t, d, p).error)
  {
    hide ReadString, ReadCount, SkipLengths, SkipPel, SkipConsumers;
    forall n: nat, q: nat | q <= |d| && SkipPel(n, d, q).Fail?
      ensures Terminal(SkipPel(n, d, q).error)
    {
      PelTerminal(n, d, q);
    }
    forall n: nat, q: nat | q <= |d| && SkipConsumers(t, n, d, q).Fail?
      ensures Terminal(SkipConsumers(t, n, d, q).error)
    {
      ConsumersTerminal(t, n, d, q);
    }
  }

  lemma {:induction false} GroupsTerminal(t: Byte, n: nat, d: Bytes, p: nat)
    requires p <= |d| && SkipGroups(t, n, d, p).Fail?
    ensures Terminal(SkipGroups(t, n, d, p).error)
    decreases n
  {
    hide SkipGroup;
    var g := SkipGroup(t, d, p);
    if g.Ok? {
      GroupsTerminal(t, n - 1, d, g.pos);
    } else {
      GroupTerminal(t, d, p);
    }
  }

  lemma StreamTerminal(t: Byte, d: Bytes, p: nat)
    requires p <= |d| && ReadStream(t, d, p).Fail?
    ensures Terminal(ReadStream(t, d, p).error)
  {
    hide ReadCount, ReadPacks, ReadLengthValue, SkipLengths, SkipGroups, StreamPack.StreamId;
    forall n: nat, q: nat | q <= |d|
      ensures var r := ReadPacks(n, Packs([], None), d, q);
              if r.Fail? then Terminal(r.error) else r.value.deferred.Some? ==> r.value.deferred.value == CorruptData
    {
      PacksTerminal(n, Packs([], None), d, q);
    }
    forall n: nat, q: nat | q <= |d| && SkipGroups(t, n, d, q).Fail?
      ensures Terminal(SkipGroups(t, n, d, q).error)
    {
      GroupsTerminal(t, n, d, q);
    }
  }

  lemma BlobTerminal(env: Env, t: Byte, blob: Bytes)
    requires IsBlobType(t) && t != T_HASH_ZIPMAP && DecodeBlob(env, t, blob).Failure?
    ensures Terminal(DecodeBlob(env, t, blob).error)
  {
    hide Listpack.DecodeSpec, Ziplist.DecodeSpec, HashPairs, ZsetPairs;
    if Listpack.DecodeSpec(blob).Failure? { ListpackCorrupt(blob); }
    if Ziplist.DecodeSpec(blob).Failure? { ZiplistCorrupt(blob); }
  }

  /** Only a zipmap is recognised but not decoded: every other failure ends the reading. */
  lemma OnlyZipmapUnknown(env: Env, t: Byte, d: Bytes, p: nat)
    requires p <= |d| && ReadValue(env, t, d, p).Fail?
    ensures if t == T_HASH_ZIPMAP && ReadString(d, p).Ok?
            then ReadValue(env, t, d, p).error == UnknownType(T_HASH_ZIPMAP)
            else Terminal(ReadValue(env, t, d, p).error)
  {
    hide ReadString, ReadCount, ReadElements, ReadNodes, ReadStream, ReadModule, DecodeBlob, ReadLengthValue;
    hide ModuleName;
    if IsBlobType(t) {
      var blob := ReadString(d, p);
      if blob.Ok? {
        if t == T_HASH_ZIPMAP { ZipmapFails(env, blob.value); } else { BlobTerminal(env, t, blob.value); }
      }
    } else if IsPlainType(t) {
    } else if t == T_LIST_QUICKLIST || t == T_LIST_QUICKLIST_2 {
      var n := ReadCount(d, p);
      if n.Ok? { NodesTerminal(t == T_LIST_QUICKLIST_2, n.value, [], d, n.pos); }
    } else if IsStreamType(t) {
      StreamTerminal(t, d, p);
    }
  }

  // ----- records -----

  lemma {:induction false} RangesOf(xs: seq<Num>) returns (rs: seq<(Num, Num)>)
    requires |xs| % 2 == 0
    ensures Bounds(rs) == xs
    decreases |xs|
  {
    if xs == [] {
      rs := [];
    } else {
      var rest := RangesOf(xs[2..]);
      rs := [(xs[0], xs[1])] + rest;
      assert rs[1..] == rest;
      assert xs == [xs[0], xs[1]] + xs[2..];
    }
  }

  lemma StringRecordOf(env: Env, d: Bytes, op: Byte, s: State) returns (r: Record)
    requires op == OP_AUX || op == OP_FUNCTION2 || op == OP_SLOT_IMPORT
    requires s.pos <= |d| && ReadRecord(env, d, op, s).Ok?
    ensures Fits(env, r) && !r.Key? && !r.ZipmapKey? && Opcode(r) == op && At(d, s.pos, Body(env, r))
  {
    hide ReadString, ReadLengthValue, ReadCount, SkipLengths, StrFits, PrintStr, Meaning, LenFits, PrintLen;
    hide PrintNums, At;
    var k := StrOfBytes(d, s.pos);
    var q := s.pos + |PrintStr(k)|;
    if op == OP_AUX {
      var v := StrOfBytes(d, q);
      r := Aux(k, v);
      AtJoin(d, s.pos, PrintStr(k), PrintStr(v));
    } else if op == OP_FUNCTION2 {
      r := Function2(k);
    } else {
      var count := CountOf(d, q);
      var xs := NumsOf(2 * count.n, d, q + |count.Print()|);
      var ranges := RangesOf(xs);
      r := SlotImport(k, count.f, ranges);
      AtJoin(d, q, count.Print(), PrintNums(xs));
      AtJoin(d, s.pos, PrintStr(k), count.Print() + PrintNums(xs));
    }
  }

  lemma LengthRecordOf(env: Env, d: Bytes, op: Byte, s: State) returns (r: Record)
    requires op == OP_SELECTDB || op == OP_RESIZEDB || op == OP_IDLE || op == OP_SLOT_INFO
    requires s.pos <= |d| && ReadRecord(env, d, op, s).Ok?
    ensures Fits(env, r) && !r.Key? && !r.ZipmapKey? && Opcode(r) == op && At(d, s.pos, Body(env, r))
  {
    hide ReadLengthValue, SkipLengths, Num.Valid, Num.Print, PrintNums, At;
    if op == OP_SELECTDB || op == OP_IDLE {
      var n := NumOf(d, s.pos);
      r := if op == OP_IDLE then Idle(n) else SelectDb(n);
    } else if op == OP_RESIZEDB {
      var xs := NumsOf(2, d, s.pos);
      r := ResizeDb(xs[0], xs[1]);
      assert xs == [xs[0], xs[1]];
    } else {
      var xs := NumsOf(3, d, s.pos);
      r := SlotInfo(xs[0], xs[1], xs[2]);
      assert xs == [xs[0], xs[1], xs[2]];
    }
  }

  lemma FixedRecordOf(env: Env, d: Bytes, op: Byte, s: State) returns (r: Record)
    requires op == OP_EXPIRETIME_MS || op == OP_EXPIRETIME || op == OP_FREQ
    requires s.pos <= |d| && ReadRecord(env, d, op, s).Ok?
    ensures Fits(env, r) && !r.Key? && !r.ZipmapKey? && Opcode(r) == op && At(d, s.pos, Body(env, r))
  {
    hide Compact.ReadInt, Compact.WriteInt, Compact.FitsInt, ReadI64;
    if op == OP_EXPIRETIME_MS {
      var x := I64Of(d, s.pos);
      r := ExpireMs(x);
    } else if op == OP_EXPIRETIME {
      Compact.WriteReadInt(d[s.pos..s.pos + 4]);
      r := ExpireSecs(Compact.ReadInt(d[s.pos..s.pos + 4]));
    } else {
      r := Freq(d[s.pos]);
      assert d[s.pos..s.pos + 1] == [d[s.pos]];
    }
  }

  lemma ModuleAuxOf(env: Env, d: Bytes, s: State) returns (r: Record)
    requires s.pos <= |d| && ReadRecord(env, d, OP_MODULE_AUX, s).Ok?
    ensures Fits(env, r) && !r.Key? && !r.ZipmapKey? && Opcode(r) == OP_MODULE_AUX && At(d, s.pos, Body(env, r))
  {
    hide SkipLengths, ReadModule, Num.Valid, Num.Print, PrintNums, Piece.Valid, PrintPieces, EndMark, At;
    var xs := NumsOf(3, d, s.pos);
    var pieces, end := PiecesOf(env, false, [], 0, d, s.pos + |PrintNums(xs)|);
    r := ModuleAux(xs[0], xs[1], xs[2], pieces, end);
    assert xs == [xs[0], xs[1], xs[2]];
    AtJoin(d, s.pos, PrintNums(xs), PrintPieces(pieces) + EndMark(end).Print());
  }

  lemma KnownOpcode(env: Env, d: Bytes, op: Byte, s: State)
    requires s.pos <= |d| && ReadRecord(env, d, op, s).Ok?
    ensures OP_SLOT_IMPORT <= op < OP_EOF && op != OP_FUNCTION_PRE_GA
  {
    hide ReadString, ReadLengthValue, ReadCount, SkipLengths, ReadI64, Take, ReadU8, ReadModule;
  }

  /** Whatever record the reader accepts is the printed form of one that fits. */
  lemma RecordFrom(env: Env, d: Bytes, op: Byte, s: State) returns (r: Record)
    requires s.pos <= |d| && ReadRecord(env, d, op, s).Ok?
    ensures Fits(env, r) && !r.Key? && !r.ZipmapKey? && Opcode(r) == op && At(d, s.pos, Body(env, r))
    ensures Reads(env, r, d, s, s.pos + |Body(env, r)|)
  {
    hide ReadRecord, Fits, Opcode, Body, At, Reads;
    KnownOpcode(env, d, op, s);
    if op == OP_AUX || op == OP_FUNCTION2 || op == OP_SLOT_IMPORT {
      r := StringRecordOf(env, d, op, s);
    } else if op == OP_SELECTDB || op == OP_RESIZEDB || op == OP_IDLE || op == OP_SLOT_INFO {
      r := LengthRecordOf(env, d, op, s);
    } else if op == OP_MODULE_AUX {
      r := ModuleAuxOf(env, d, s);
    } else {
      r := FixedRecordOf(env, d, op, s);
    }
    RecordReads(env, r, d, s);
  }

  /** And so is whatever key, unless it ends the reading. */
  lemma KeyFrom(cfg: Config, d: Bytes, t: Byte, s: State) returns (r: Record)
    requires cfg.maxElements.None? && Valid(cfg, d, s) && Resting(s) && IsObjectType(t)
             && GoesOn(ReadEntry(cfg, d, t, s))
    ensures Fits(cfg.env, r) && (r.Key? || r.ZipmapKey?) && Opcode(r) == t && At(d, s.pos, Body(cfg.env, r))
  {
    hide ReadString, ReadValue, StrFits, PrintStr, Meaning, At, Val.Fits, Val.Type, Val.Print, Val.Value;
    var key := StrOfBytes(d, s.pos);
    var q := s.pos + |PrintStr(key)|;
    if ReadValue(cfg.env, t, d, q).Ok? {
      var v := ValueFrom(cfg.env, t, d, q);
      r := Key(key, v);
      AtJoin(d, s.pos, PrintStr(key), v.Print(cfg.env));
    } else {
      OnlyZipmapUnknown(cfg.env, t, d, q);
      var blob := StrOfBytes(d, q);
      r := ZipmapKey(key, blob);
      AtJoin(d, s.pos, PrintStr(key), PrintStr(blob));
    }
  }

  // ----- runs -----

  /** Records and an EOF opcode stand at `p`, with room for a trailer after them. */
  ghost predicate PrintedAt(env: Env, rs: seq<Record>, d: Bytes, p: nat) {
    FitAll(env, rs) && At(d, p, PrintAll(env, rs) + [OP_EOF]) && p + |PrintAll(env, rs)| + 9 <= |d|
  }

  lemma PrintedFirst(env: Env, r: Record, rs: seq<Record>, d: Bytes, p: nat)
    requires p < |d| && Fits(env, r) && d[p] == Opcode(r) && At(d, p + 1, Body(env, r))
    requires PrintedAt(env, rs, d, p + 1 + |Body(env, r)|)
    ensures PrintedAt(env, [r] + rs, d, p)
  {
    hide Fits, Body, Opcode;
    var all := [r] + rs;
    assert all[1..] == rs;
    AtSelf(d, p, p + 1);
    assert d[p..p + 1] == [d[p]];
    AtJoin(d, p, [Opcode(r)], Body(env, r));
    AtJoin(d, p, Print(env, r), PrintAll(env, rs) + [OP_EOF]);
    assert PrintAll(env, all) + [OP_EOF] == Print(env, r) + (PrintAll(env, rs) + [OP_EOF]);
  }

  lemma PrintedNone(env: Env, d: Bytes, p: nat)
    requires p + 9 <= |d| && d[p] == OP_EOF
    ensures PrintedAt(env, [], d, p)
  {
    assert d[p..p + 1] == [d[p]];
    assert PrintAll(env, []) + [OP_EOF] == [OP_EOF];
  }

  lemma KeyEffect(cfg: Config, d: Bytes, t: Byte, s: State, r: Record)
    requires cfg.maxElements.None? && Valid(cfg, d, s) && Resting(s)
    requires Fits(cfg.env, r) && (r.Key? || r.ZipmapKey?) && Opcode(r) == t && At(d, s.pos, Body(cfg.env, r))
    ensures var a := ReadEntry(cfg, d, t, s);
            && a.state.pos == s.pos + |Body(cfg.env, r)| && Resting(a.state)
            && (a.result.Failure? ==> a.result.error.UnknownType?) && (a.result.Success? ==> a.result.value.Some?)
  {
    hide ReadEntry, Fits, Body, At, After, Yields;
    KeyReads(cfg, r, d, s);
    AfterKeeps(cfg.env, r, s);
  }

  /** A run that ends clean has read printed records. */
  lemma {:induction false} RecordsRead(cfg: Config, d: Bytes, s: State) returns (rs: seq<Record>)
    requires cfg.maxElements.None? && Valid(cfg, d, s) && Resting(s) && Clean(Run(cfg, d, s).items)
    ensures PrintedAt(cfg.env, rs, d, s.pos)
    decreases Unread(d, s)
  {
    hide Run, ReadRecord, ReadEntry, AtEof, Fits, Opcode, Body, At, PrintedAt, After, Clean, Yields;
    var r := TakeOpcode(d, s);
    if r.Fail? {
      Chunking.OpcodeFails(cfg, d, s);
      NotClean(r.error);
    } else {
      var op, s1 := r.value, s.(pos := s.pos + 1);
      assert s.(pos := r.pos, preamble := None) == s1;
      var step := StepOpcode(cfg, d, op, s1);
      if op == OP_EOF {
        Chunking.ReadsToKey(cfg, d, s);
        Chunking.RunAnswer(cfg, d, s);
        EofRoom(cfg, d, s1);
        rs := [];
        PrintedNone(cfg.env, d, s.pos);
      } else if IsObjectType(op) {
        rs := KeyThenRecords(cfg, d, s, op, s1);
      } else if step.Again? {
        var x := RecordFrom(cfg.env, d, op, s1);
        AfterKeeps(cfg.env, x, s1);
        Chunking.RunAgain(cfg, d, s);
        ReadsNext(cfg.env, x, d, s1, op);
        var rest := RecordsRead(cfg, d, step.next);
        rs := [x] + rest;
        PrintedFirst(cfg.env, x, rest, d, s.pos);
      } else {
        Chunking.ReadsToKey(cfg, d, s);
        Chunking.RunAnswer(cfg, d, s);
        NotClean(step.answer.result.error);
      }
    }
  }

  lemma KeyThenRecords(cfg: Config, d: Bytes, s: State, op: Byte, s1: State) returns (rs: seq<Record>)
    requires cfg.maxElements.None? && Valid(cfg, d, s) && Resting(s) && Clean(Run(cfg, d, s).items)
    requires s.pos < |d| && op == d[s.pos] && s1 == s.(pos := s.pos + 1) && IsObjectType(op)
    ensures PrintedAt(cfg.env, rs, d, s.pos)
    decreases Unread(d, s), 0
  {
    hide Run, ReadRecord, ReadEntry, AtEof, Fits, Opcode, Body, At, PrintedAt, After, Clean, Yields;
    Chunking.ReadsToKey(cfg, d, s);
    Chunking.RunAnswer(cfg, d, s);
    var a := ReadEntry(cfg, d, op, s1);
    if GoesOn(a) {
      var x := KeyFrom(cfg, d, op, s1);
      KeyEffect(cfg, d, op, s1, x);
      var more := Run(cfg, d, a.state).items;
      CleanFirst(if a.result.Success? then Got(a.result.value.value) else Err(a.result.error), more);
      var rest := RecordsRead(cfg, d, a.state);
      rs := [x] + rest;
      PrintedFirst(cfg.env, x, rest, d, s.pos);
    } else {
      EntryAnswers(cfg, d, op, s1);
      NotClean(a.result.error);
    }
  }

  lemma EntryAnswers(cfg: Config, d: Bytes, t: Byte, s: State)
    requires Valid(cfg, d, s) && Resting(s) && !GoesOn(ReadEntry(cfg, d, t, s))
    ensures ReadEntry(cfg, d, t, s).result.Failure?
  {
    hide ReadEntry;
  }

  lemma NotClean(e: RdbError)
    requires !e.UnknownType?
    ensures !Clean([Err(e)])
  {
    assert [Err(e)][0] == Err(e);
  }

  lemma EofRoom(cfg: Config, d: Bytes, s: State)
    requires s.pos <= |d|
    ensures var a := AtEof(cfg.version, d, s);
            a.result.Success? || Clean([Err(a.result.error)]) ==> s.pos + 8 <= |d|
  {
    hide Computed;
    var a := AtEof(cfg.version, d, s);
    if a.result.Failure? { NotClean(a.result.error); }
  }

  lemma ReadsNext(env: Env, r: Record, d: Bytes, s: State, op: Byte)
    requires s.pos <= |d| && Fits(env, r) && Opcode(r) == op && Reads(env, r, d, s, s.pos + |Body(env, r)|)
    ensures var x := ReadRecord(env, d, op, s); x.Ok? && x.value == After(env, r, s).(pos := s.pos + |Body(env, r)|)
  {
    hide ReadRecord, Fits, Body, After, Opcode;
  }

  // ----- files -----

  /** The file is a header that the reader takes, printed records, an EOF opcode and a trailer that
      passes; whatever follows is not read. */
  ghost predicate IsPrinted(env: Env, d: Bytes, rs: seq<Record>) {
    && 9 <= |d| && Reader.ParseHeader(d[..9]).Success?
    && PrintedAt(env, rs, d, 9)
    && TrailerPasses(Config(env, Reader.ParseHeader(d[..9]).value.version, None), d, 9 + |PrintAll(env, rs)| + 1)
  }

  /** The file opens and is read to its end with no error but skipped types. */
  predicate ReadsClean(env: Env, d: Bytes) { Reader.Start(env, d).Success? && Clean(FileRun(env, d, None).items) }

  lemma {:induction false} PrintedAccepted(env: Env, d: Bytes, rs: seq<Record>)
    requires IsPrinted(env, d, rs)
    ensures ReadsClean(env, d)
    ensures FileRun(env, d, None).items == YieldAll(env, rs, Reader.Fresh(9))
  {
    hide Run, Reader.ParseHeader, FitAll, PrintAll, YieldAll, AfterAll, BadTrailer, GoodTrailer, At, Clean;
    hide ReadPreamble;
    var cfg := Config(env, Reader.ParseHeader(d[..9]).value.version, None);
    assert d[0..9] == d[..9];
    WholeFile.PreambleReads(env, rs, d, Reader.Fresh(9));
    PreambleTransparent(cfg, d, Reader.Fresh(9));
    FileRoundTrip(cfg, rs, d, Reader.Fresh(9));
    var items := YieldAll(env, rs, Reader.Fresh(9));
    assert items + [] == items;
    YieldsClean(env, rs, Reader.Fresh(9));
  }

  lemma {:induction false} YieldsClean(env: Env, rs: seq<Record>, s: State)
    requires FitAll(env, rs)
    ensures Clean(YieldAll(env, rs, s))
    decreases |rs|
  {
    hide Fits, After, Clean, Yields;
    if rs == [] {
      CleanNone();
    } else {
      var later := YieldAll(env, rs[1..], After(env, rs[0], s));
      YieldsClean(env, rs[1..], After(env, rs[0], s));
      YieldsOne(env, rs[0], s);
      var y := Yields(env, rs[0], s);
      if y == [] {
        assert y + later == later;
      } else {
        assert y == [y[0]];
        CleanFirst(y[0], later);
      }
    }
  }

  lemma AcceptedPrinted(env: Env, d: Bytes) returns (rs: seq<Record>)
    requires ReadsClean(env, d)
    ensures IsPrinted(env, d, rs)
  {
    hide Run, Reader.ParseHeader, FitAll, PrintAll, YieldAll, AfterAll, At, Clean, ReadPreamble, BadTrailer;
    hide GoodTrailer;
    var cfg := ConfigOf(env, d, None);
    assert d[0..9] == d[..9];
    PreambleTransparent(cfg, d, Reader.Fresh(9));
    rs := RecordsRead(cfg, d, Reader.Fresh(9));
    FileRoundTrip(cfg, rs, d, Reader.Fresh(9));
    BadNotClean(YieldAll(env, rs, Reader.Fresh(9)));
  }

  lemma BadNotClean(items: seq<Item>)
    ensures !Clean(items + [Err(CorruptData)])
  {
    assert (items + [Err(CorruptData)])[|items|] == Err(CorruptData);
  }

  /** The reader accepts exactly the printed files, and delivers exactly what their records stand for:
      two ways to read a file as records never differ in meaning. */
  lemma {:induction false} AcceptsExactlyPrinted(env: Env, d: Bytes)
    ensures ReadsClean(env, d) <==> exists rs :: IsPrinted(env, d, rs)
    ensures forall rs :: IsPrinted(env, d, rs) ==> FileRun(env, d, None).items == YieldAll(env, rs, Reader.Fresh(9))
  {
    hide FileRun, YieldAll, FitAll, PrintAll, At, BadTrailer, Clean, Reader.Start, Reader.ParseHeader;
    if ReadsClean(env, d) {
      var rs := AcceptedPrinted(env, d);
      assert IsPrinted(env, d, rs);
    }
    forall rs | IsPrinted(env, d, rs)
      ensures ReadsClean(env, d) && FileRun(env, d, None).items == YieldAll(env, rs, Reader.Fresh(9))
    {
      PrintedAccepted(env, d, rs);
    }
  }

  lemma {:induction false} CleanIsNoError(items: seq<Item>)
    ensures Clean(items) <==> Summary.FirstError(items).None?
  {
    hide Clean;
    if items == [] {
      CleanNone();
    } else {
      CleanIsNoError(items[1..]);
      CleanFirst(items[0], items[1..]);
      assert items == [items[0]] + items[1..];
    }
  }

  /** Every chunk limit accepts the same files, stops at the same byte and says the same about the
      checksum. */
  lemma EveryLimitAccepts(env: Env, d: Bytes, k: nat)
    requires k > 0 && Reader.Start(env, d).Success?
    ensures var limited, whole := FileRun(env, d, Some(k)), FileRun(env, d, None);
            && (Clean(limited.items) <==> Clean(whole.items))
            && limited.final.pos == whole.final.pos && limited.final.crcChecked == whole.final.crcChecked
  {
    hide Run, Reader.Start, Clean, Summary.FirstError, Chunking.Merge, Chunking.WellChunked;
    OpenedReplayable(env, d);
    var s, cfg := Reader.Start(env, d).value.state, ConfigOf(env, d, None);
    assert Chunking.Whole(cfg) == cfg && Chunking.Limited(cfg, k) == ConfigOf(env, d, Some(k));
    Chunking.Refines(cfg, k, d, s);
    Summary.SameFirstError(k, None, FileRun(env, d, Some(k)).items);
    CleanIsNoError(FileRun(env, d, Some(k)).items);
    CleanIsNoError(FileRun(env, d, None).items);
  }
}
