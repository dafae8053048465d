/**
 Whole files: what the reader yields from any sequence of printed records, and the checksum verdict.
 */
module FileFormat {
  import opened Common
  import opened Types
  import opened Wire
  import opened Machine
  import opened Printing
  import opened ValueFormat
  import opened Values
  import Compact
  import Chunking
  import Locality

  /** One record of the body, with the encodings the writer chose for its parts. */
  datatype Record =
    | Aux(k: StrEnc, v: StrEnc)
    | SelectDb(n: Num)
    | ResizeDb(n: Num, m: Num)
    | ExpireMs(ms: int)
    | ExpireSecs(secs: int)
    | Idle(n: Num)
    | Freq(f: Byte)
    | Function2(payload: StrEnc)
    | ModuleAux(id: Num, whenOp: Num, when: Num, pieces: seq<Piece>, end: LenForm)
    | SlotInfo(n: Num, m: Num, u: Num)
    | SlotImport(name: StrEnc, form: LenForm, ranges: seq<(Num, Num)>)
    | Key(key: StrEnc, value: Val)
    | ZipmapKey(key: StrEnc, blob: StrEnc)

  function Bounds(ranges: seq<(Num, Num)>): (xs: seq<Num>)
    ensures |xs| == 2 * |ranges|
  {
    if ranges == [] then [] else [ranges[0].0, ranges[0].1] + Bounds(ranges[1..])
  }

  predicate ValidAll(xs: seq<Num>) { forall x | x in xs :: x.Valid() }

  ghost predicate Fits(env: Env, r: Record) {
    match r
    case Aux(k, v) => StrFits(k) && StrFits(v) && env.validUtf8(Meaning(k))
    case SelectDb(n) => n.Valid() && n.n < U32
    case ResizeDb(n, m) => n.Valid() && m.Valid()
    case ExpireMs(ms) => Compact.FitsInt(ms, 8)
    case ExpireSecs(secs) => Compact.FitsInt(secs, 4)
    case Idle(n) => n.Valid()
    case Freq(_) => true
    case Function2(s) => StrFits(s)
    case ModuleAux(id, w, n, pieces, _) => id.Valid() && w.Valid() && n.Valid() && forall x | x in pieces :: x.Valid()
    case SlotInfo(n, m, u) => n.Valid() && m.Valid() && u.Valid()
    case SlotImport(name, form, ranges) =>
      StrFits(name) && |ranges| <= MAX_ALLOC_BYTES && LenFits(|ranges|, form) && ValidAll(Bounds(ranges))
    case Key(k, v) => StrFits(k) && v.Fits(env)
    case ZipmapKey(k, blob) => StrFits(k) && StrFits(blob)
  }

  function Opcode(r: Record): Byte {
    match r
    case Aux(_, _) => OP_AUX
    case SelectDb(_) => OP_SELECTDB
    case ResizeDb(_, _) => OP_RESIZEDB
    case ExpireMs(_) => OP_EXPIRETIME_MS
    case ExpireSecs(_) => OP_EXPIRETIME
    case Idle(_) => OP_IDLE
    case Freq(_) => OP_FREQ
    case Function2(_) => OP_FUNCTION2
    case ModuleAux(_, _, _, _, _) => OP_MODULE_AUX
    case SlotInfo(_, _, _) => OP_SLOT_INFO
    case SlotImport(_, _, _) => OP_SLOT_IMPORT
    case Key(_, v) => v.Type()
    case ZipmapKey(_, _) => T_HASH_ZIPMAP
  }

  ghost function Body(env: Env, r: Record): Bytes
    requires Fits(env, r)
  {
    match r
    case Aux(k, v) => PrintStr(k) + PrintStr(v)
    case SelectDb(n) => n.Print()
    case ResizeDb(n, m) => PrintNums([n, m])
    case ExpireMs(ms) => Compact.WriteInt(ms, 8)
    case ExpireSecs(secs) => Compact.WriteInt(secs, 4)
    case Idle(n) => n.Print()
    case Freq(f) => [f]
    case Function2(s) => PrintStr(s)
    case ModuleAux(id, w, n, pieces, end) => PrintNums([id, w, n]) + (PrintPieces(pieces) + EndMark(end).Print())
    case SlotInfo(n, m, u) => PrintNums([n, m, u])
    case SlotImport(name, form, ranges) =>
      PrintStr(name) + (Num(|ranges|, form).Print() + PrintNums(Bounds(ranges)))
    case Key(k, v) => PrintStr(k) + v.Print(env)
    case ZipmapKey(k, blob) => PrintStr(k) + PrintStr(blob)
  }

  ghost function Print(env: Env, r: Record): (b: Bytes)
    requires Fits(env, r)
    ensures |b| >= 1
  {
    [Opcode(r)] + Body(env, r)
  }

  /** What a record means for the records after it; the cursor is not part of this. */
  ghost function After(env: Env, r: Record, s: State): State
    requires Fits(env, r)
  {
    match r
    case Aux(k, v) =>
      var text := if env.validUtf8(Meaning(v)) then Meaning(v) else env.lossyText(Meaning(v));
      s.(aux := s.aux[Meaning(k) := text])
    case SelectDb(n) => s.(db := n.n)
    case ExpireMs(ms) => s.(expiryMs := Some(ms))
    case ExpireSecs(secs) => s.(expiryMs := Some(secs * 1000))
    case Idle(n) => s.(lruIdle := Some(n.n))
    case Freq(f) => s.(lfuFreq := Some(f))
    case Key(_, _) => Consumed(s)
    case ZipmapKey(_, _) => Consumed(s)
    case _ => s
  }

  /** What a record yields: a key with the database selected last and the metadata given since the
      key before it, or the one recoverable error. */
  ghost function Yields(env: Env, r: Record, s: State): seq<Item>
    requires Fits(env, r)
  {
    match r
    case Key(k, v) =>
      [Got(RdbEntry(s.db, Meaning(k), v.Value(env), v.Type(), s.expiryMs, s.lruIdle, s.lfuFreq, None, None))]
    case ZipmapKey(_, _) => [Err(UnknownType(T_HASH_ZIPMAP))]
    case _ => []
  }

  ghost predicate FitAll(env: Env, rs: seq<Record>) { forall r | r in rs :: Fits(env, r) }

  ghost function PrintAll(env: Env, rs: seq<Record>): Bytes
    requires FitAll(env, rs)
  {
    if rs == [] then [] else Print(env, rs[0]) + PrintAll(env, rs[1..])
  }

  ghost function YieldAll(env: Env, rs: seq<Record>, s: State): seq<Item>
    requires FitAll(env, rs)
    decreases rs
  {
    if rs == [] then [] else Yields(env, rs[0], s) + YieldAll(env, rs[1..], After(env, rs[0], s))
  }

  ghost function AfterAll(env: Env, rs: seq<Record>, s: State): State
    requires FitAll(env, rs)
    decreases rs
  {
    if rs == [] then s else AfterAll(env, rs[1..], After(env, rs[0], s))
  }

  // ----- reading one record -----

  predicate Resting(s: State) { s.preamble.None? && s.chunked.None? && !s.finished }

  /** The record's opcode is in hand, and `q` is where its body ends. */
  ghost predicate Reads(env: Env, r: Record, d: Bytes, s: State, q: nat)
    requires Fits(env, r) && s.pos <= |d|
  {
    ReadRecord(env, d, Opcode(r), s) == Ok(After(env, r, s).(pos := q), q)
  }

  lemma StringRecordReads(env: Env, r: Record, d: Bytes, s: State)
    requires Fits(env, r) && (r.Aux? || r.Function2? || r.SlotImport?) && s.pos <= |d| && At(d, s.pos, Body(env, r))
    ensures Reads(env, r, d, s, s.pos + |Body(env, r)|)
  {
    hide ReadString, ReadLengthValue, ReadCount, SkipLengths, StrFits, PrintStr, Meaning, LenFits, PrintLen;
    hide PrintNums, At;
    match r
    case Aux(k, v) =>
      AtSplit(d, s.pos, PrintStr(k), PrintStr(v));
      StrReads(k, d, s.pos);
      StrReads(v, d, s.pos + |PrintStr(k)|);
    case Function2(payload) =>
      StrReads(payload, d, s.pos);
    case SlotImport(name, form, ranges) =>
      var count := Num(|ranges|, form);
      SplitThree(d, s.pos, PrintStr(name), count.Print(), PrintNums(Bounds(ranges)));
      StrReads(name, d, s.pos);
      NumReads(count, d, s.pos + |PrintStr(name)|);
      NumsAt(Bounds(ranges), d, s.pos + |PrintStr(name)| + |count.Print()|);
  }

  lemma LengthRecordReads(env: Env, r: Record, d: Bytes, s: State)
    requires Fits(env, r) && (r.SelectDb? || r.ResizeDb? || r.Idle? || r.SlotInfo?) && s.pos <= |d|
             && At(d, s.pos, Body(env, r))
    ensures Reads(env, r, d, s, s.pos + |Body(env, r)|)
  {
    hide ReadLengthValue, ReadCount, SkipLengths, Num.Valid, Num.Print, PrintNums, At;
    match r
    case SelectDb(n) => NumReads(n, d, s.pos);
    case ResizeDb(n, m) => NumsAt([n, m], d, s.pos);
    case Idle(n) => NumReads(n, d, s.pos);
    case SlotInfo(n, m, u) => NumsAt([n, m, u], d, s.pos);
  }

  lemma FixedRecordReads(env: Env, r: Record, d: Bytes, s: State)
    requires Fits(env, r) && (r.ExpireMs? || r.ExpireSecs? || r.Freq?) && s.pos <= |d| && At(d, s.pos, Body(env, r))
    ensures Reads(env, r, d, s, s.pos + |Body(env, r)|)
  {
    hide Compact.ReadInt, Compact.WriteInt, Compact.FitsInt;
    match r
    case ExpireMs(ms) => Compact.ReadWriteInt(ms, 8);
    case ExpireSecs(secs) => Compact.ReadWriteInt(secs, 4);
    case Freq(f) => assert d[s.pos] == d[s.pos..s.pos + 1][0];
  }

  lemma ModuleAuxReads(env: Env, r: Record, d: Bytes, s: State)
    requires Fits(env, r) && r.ModuleAux? && s.pos <= |d| && At(d, s.pos, Body(env, r))
    ensures Reads(env, r, d, s, s.pos + |Body(env, r)|)
  {
    hide SkipLengths, ReadModule, Num.Valid, Num.Print, PrintNums, Piece.Valid, PrintPieces, EndMark, At;
    var head := PrintNums([r.id, r.whenOp, r.when]);
    AtSplit(d, s.pos, head, PrintPieces(r.pieces) + EndMark(r.end).Print());
    NumsAt([r.id, r.whenOp, r.when], d, s.pos);
    ModuleRoundTrip(env, false, r.pieces, r.end, [], 0, d, s.pos + |head|);
  }

  lemma OpcodeAt(env: Env, r: Record, d: Bytes, p: nat)
    requires Fits(env, r) && At(d, p, Print(env, r))
    ensures p < |d| && d[p] == Opcode(r) && At(d, p + 1, Body(env, r)) && |Print(env, r)| == 1 + |Body(env, r)|
    ensures d[p] != OP_EOF && (IsObjectType(d[p]) <==> r.Key? || r.ZipmapKey?)
  {
    hide Body, StrFits, Val.Fits, Val.Type;
    if r.Key? { KnownType(env, r.value); }
    AtSplit(d, p, [Opcode(r)], Body(env, r));
    assert d[p] == d[p..p + 1][0];
  }

  /** Records other than keys: `ReadRecord` has the effect the record stands for. */
  lemma RecordReads(env: Env, r: Record, d: Bytes, s: State)
    requires Fits(env, r) && !r.Key? && !r.ZipmapKey? && s.pos <= |d| && At(d, s.pos, Body(env, r))
    ensures Reads(env, r, d, s, s.pos + |Body(env, r)|)
  {
    hide Reads, Fits, Body, At;
    if r.Aux? || r.Function2? || r.SlotImport? {
      StringRecordReads(env, r, d, s);
    } else if r.SelectDb? || r.ResizeDb? || r.Idle? || r.SlotInfo? {
      LengthRecordReads(env, r, d, s);
    } else if r.ModuleAux? {
      ModuleAuxReads(env, r, d, s);
    } else {
      FixedRecordReads(env, r, d, s);
    }
  }

  /** A key of any type but zipmap reads as an entry; a zipmap key as the recoverable error. */
  lemma KeyReads(cfg: Config, r: Record, d: Bytes, s: State)
    requires cfg.maxElements.None? && Fits(cfg.env, r) && (r.Key? || r.ZipmapKey?)
    requires Valid(cfg, d, s) && Resting(s) && At(d, s.pos, Body(cfg.env, r))
    ensures ReadEntry(cfg, d, Opcode(r), s)
         == Answer(if r.Key? then Success(Some(Yields(cfg.env, r, s)[0].entry))
                   else Failure(UnknownType(T_HASH_ZIPMAP)),
                   After(cfg.env, r, s).(pos := s.pos + |Body(cfg.env, r)|))
  {
    hide ReadString, ReadValue, StrFits, PrintStr, Meaning, ValueAlone, ValueOf, At;
    hide Val.Fits, Val.Type, Val.Print, Val.Value;
    var head := PrintStr(r.key);
    if r.Key? {
      AtSplit(d, s.pos, head, r.value.Print(cfg.env));
      StrReads(r.key, d, s.pos);
      ValueReads(cfg.env, r.value);
      ValueAt(cfg.env, r.value.Type(), d, s.pos + |head|, r.value.Print(cfg.env));
    } else {
      AtSplit(d, s.pos, head, PrintStr(r.blob));
      StrReads(r.key, d, s.pos);
      StrReads(r.blob, d, s.pos + |head|);
      ZipmapReads(cfg.env, d, s.pos + |head|);
    }
  }

  lemma ZipmapReads(env: Env, d: Bytes, p: nat)
    requires p <= |d| && ReadString(d, p).Ok?
    ensures ReadValue(env, T_HASH_ZIPMAP, d, p) == Fail(UnknownType(T_HASH_ZIPMAP), ReadString(d, p).pos)
  {
    hide ReadString;
  }

  lemma RecordRuns(cfg: Config, r: Record, d: Bytes, s: State)
    requires cfg.maxElements.None? && Fits(cfg.env, r)
    requires Valid(cfg, d, s) && Resting(s) && At(d, s.pos, Print(cfg.env, r))
    ensures var s2 := After(cfg.env, r, s).(pos := s.pos + |Print(cfg.env, r)|);
            && Valid(cfg, d, s2) && Resting(s2)
            && var rest := Run(cfg, d, s2);
               Run(cfg, d, s) == Trace(Yields(cfg.env, r, s) + rest.items, rest.final)
  {
    hide ReadRecord, ReadEntry, Run, Body, Fits, At, After, Yields, Print;
    var s2 := After(cfg.env, r, s).(pos := s.pos + |Print(cfg.env, r)|);
    var s1 := s.(pos := s.pos + 1);
    OpcodeAt(cfg.env, r, d, s.pos);
    AtInside(d, s1.pos, Body(cfg.env, r));
    AfterKeeps(cfg.env, r, s);
    CursorUnused(cfg.env, r, s, s1.pos);
    YieldsOne(cfg.env, r, s);
    if r.Key? || r.ZipmapKey? {
      KeyReads(cfg, r, d, s1);
      Chunking.ReadsToKey(cfg, d, s);
      Chunking.RunAnswer(cfg, d, s);
    } else {
      RecordReads(cfg.env, r, d, s1);
      Chunking.RunAgain(cfg, d, s);
      assert [] + Run(cfg, d, s2).items == Run(cfg, d, s2).items;
    }
  }

  lemma YieldsOne(env: Env, r: Record, s: State)
    requires Fits(env, r)
    ensures var y := Yields(env, r, s);
            if r.Key? then |y| == 1 && y[0].Got?
            else y == if r.ZipmapKey? then [Err(UnknownType(T_HASH_ZIPMAP))] else []
  {
    hide Fits, Val.Value, Meaning;
  }

  lemma AfterKeeps(env: Env, r: Record, s: State)
    requires Fits(env, r)
    ensures var t := After(env, r, s);
            t.crcChecked == s.crcChecked && t.pos == s.pos && t.preamble == s.preamble && t.chunked == s.chunked
            && t.finished == s.finished
  {
    hide Fits, Meaning;
  }

  lemma CursorUnused(env: Env, r: Record, s: State, q: nat)
    requires Fits(env, r)
    ensures After(env, r, s.(pos := q)) == After(env, r, s).(pos := q)
            && Yields(env, r, s.(pos := q)) == Yields(env, r, s)
  {
    hide Fits, Meaning, Val.Value;
  }

  // ----- whole files -----

  /** The trailer claims a checksum that is not the one computed. */
  predicate BadTrailer(cfg: Config, d: Bytes, p: nat)
    requires p + 8 <= |d|
  {
    cfg.version >= 5 && Le(d[p..p + 8]) != 0 && Computed(d, p) != Le(d[p..p + 8])
  }

  /** The trailer claims a checksum, and it is the one computed. */
  predicate GoodTrailer(cfg: Config, d: Bytes, p: nat)
    requires p + 8 <= |d|
  {
    cfg.version >= 5 && Le(d[p..p + 8]) != 0 && Computed(d, p) == Le(d[p..p + 8])
  }

  /** What the end of the file adds to what was yielded. */
  function Verdict(cfg: Config, d: Bytes, p: nat): seq<Item>
    requires p + 8 <= |d|
  {
    if BadTrailer(cfg, d, p) then [Err(CorruptData)] else []
  }

  /** At the EOF opcode: one error when the trailer is bad, and the verdict recorded when good. */
  lemma {:induction false} EofRuns(cfg: Config, d: Bytes, s: State)
    requires Valid(cfg, d, s) && Resting(s) && s.pos + 9 <= |d| && d[s.pos] == OP_EOF
    ensures var p := s.pos + 1;
            Run(cfg, d, s) == Trace(Verdict(cfg, d, p),
                                    s.(pos := p + 8, finished := true,
                                       crcChecked := s.crcChecked || GoodTrailer(cfg, d, p)))
  {
    hide Run, Computed;
    Chunking.ReadsToKey(cfg, d, s);
    Chunking.RunAnswer(cfg, d, s);
  }

  /** The round trip for files: from any sequence of printed records, then EOF and a trailer, the
      reader yields exactly what the records stand for, in order; `crcChecked` ends up set exactly
      when the trailer claims the checksum of every byte through the EOF opcode. */
  lemma {:induction false} FileRoundTrip(cfg: Config, rs: seq<Record>, d: Bytes, s: State)
    requires cfg.maxElements.None? && FitAll(cfg.env, rs)
    requires Valid(cfg, d, s) && Resting(s) && !s.crcChecked
    requires At(d, s.pos, PrintAll(cfg.env, rs) + [OP_EOF]) && s.pos + |PrintAll(cfg.env, rs)| + 9 <= |d|
    ensures var p := s.pos + |PrintAll(cfg.env, rs)| + 1;
            Run(cfg, d, s) == Trace(
              YieldAll(cfg.env, rs, s) + Verdict(cfg, d, p),
              AfterAll(cfg.env, rs, s).(pos := p + 8, finished := true, crcChecked := GoodTrailer(cfg, d, p)))
    decreases |rs|
  {
    hide Run, Fits, Print, Yields, After, Verdict, GoodTrailer;
    if rs == [] {
      assert PrintAll(cfg.env, rs) + [OP_EOF] == [OP_EOF];
      assert d[s.pos] == d[s.pos..s.pos + 1][0];
      EofRuns(cfg, d, s);
      var tail := Verdict(cfg, d, s.pos + 1);
      assert YieldAll(cfg.env, rs, s) + tail == tail;
    } else {
      var b, more := Print(cfg.env, rs[0]), PrintAll(cfg.env, rs[1..]);
      assert Fits(cfg.env, rs[0]);
      assert PrintAll(cfg.env, rs) + [OP_EOF] == b + (more + [OP_EOF]);
      AtSplit(d, s.pos, b, more + [OP_EOF]);
      RecordRuns(cfg, rs[0], d, s);
      var s1 := After(cfg.env, rs[0], s);
      var s2 := s1.(pos := s.pos + |b|);
      AfterKeeps(cfg.env, rs[0], s);
      FileRoundTrip(cfg, rs[1..], d, s2);
      CursorIrrelevant(cfg.env, rs[1..], s1, s2.pos);
      var tail := Verdict(cfg, d, s2.pos + |more| + 1);
      assert Yields(cfg.env, rs[0], s) + (YieldAll(cfg.env, rs[1..], s1) + tail) == YieldAll(cfg.env, rs, s) + tail;
    }
  }

  /** Neither what records yield nor what they leave depends on where they stand in the file. */
  lemma {:induction false} CursorIrrelevant(env: Env, rs: seq<Record>, s: State, q: nat)
    requires FitAll(env, rs)
    ensures YieldAll(env, rs, s.(pos := q)) == YieldAll(env, rs, s)
    ensures AfterAll(env, rs, s.(pos := q)) == AfterAll(env, rs, s).(pos := q)
    decreases |rs|
  {
    hide Fits, After, Yields;
    if rs != [] {
      CursorUnused(env, rs[0], s, q);
      CursorIrrelevant(env, rs[1..], After(env, rs[0], s), q);
    }
  }

  /** The same file through the chunking reader: its chunks put together are the same items. */
  lemma {:induction false} FileRoundTripChunked(cfg: Config, m: nat, rs: seq<Record>, d: Bytes, s: State)
    requires m > 0 && cfg.maxElements.None? && FitAll(cfg.env, rs)
    requires Valid(cfg, d, s) && Resting(s) && !s.crcChecked
    requires At(d, s.pos, PrintAll(cfg.env, rs) + [OP_EOF]) && s.pos + |PrintAll(cfg.env, rs)| + 9 <= |d|
    ensures var p := s.pos + |PrintAll(cfg.env, rs)| + 1;
            var l := Run(Chunking.Limited(cfg, m), d, s);
            && Chunking.Merge(None, l.items)
               == YieldAll(cfg.env, rs, s) + Verdict(cfg, d, p)
            && l.final.pos == p + 8 && l.final.crcChecked == GoodTrailer(cfg, d, p)
  {
    hide Run, Verdict, GoodTrailer, YieldAll, AfterAll, PrintAll, Chunking.Merge;
    FileRoundTrip(cfg, rs, d, s);
    assert Chunking.Whole(cfg) == cfg;
    Chunking.Refines(cfg, m, d, s);
  }

  // ----- the eager preamble -----

  /** Reading AUX fields ahead and replaying one byte changes nothing about the run. */
  lemma {:induction false} PreambleTransparent(cfg: Config, d: Bytes, s: State)
    requires Valid(cfg, d, s) && Resting(s)
    ensures var r := ReadPreamble(cfg.env, d, s);
            if r.Ok? then
              && Valid(cfg, d, r.value) && r.value.chunked.None? && !r.value.finished
              && Run(cfg, d, r.value) == Run(cfg, d, s)
            else Run(cfg, d, s).items == [Err(r.error)]
    decreases |d| - s.pos
  {
    hide ReadRecord, ReadEntry, Run;
    var op := ReadU8(d, s.pos);
    if op.Fail? {
      Chunking.OpcodeFails(cfg, d, s);
    } else if op.value != OP_AUX {
      var s2 := s.(pos := op.pos, preamble := Some(op.value));
      SameOpcode(cfg, d, s, s2);
    } else {
      var s1 := s.(pos := op.pos);
      var r := ReadRecord(cfg.env, d, OP_AUX, s1);
      if r.Ok? {
        Chunking.RunAgain(cfg, d, s);
        PreambleTransparent(cfg, d, r.value);
      } else {
        Chunking.ReadsToKey(cfg, d, s);
        Chunking.RunAnswer(cfg, d, s);
      }
    }
  }

  lemma {:induction false} SameOpcode(cfg: Config, d: Bytes, s: State, s2: State)
    requires Valid(cfg, d, s) && Resting(s) && s.pos < |d|
    requires s2 == s.(pos := s.pos + 1, preamble := Some(d[s.pos]))
    ensures Valid(cfg, d, s2) && Run(cfg, d, s2) == Run(cfg, d, s)
  {
    hide StepOpcode, Run;
    var s1 := s.(pos := s.pos + 1);
    var step := StepOpcode(cfg, d, d[s.pos], s1);
    assert s2.(preamble := None) == s1;
    if step.Again? {
      Chunking.RunAgain(cfg, d, s);
      Chunking.RunAgain(cfg, d, s2);
    } else {
      Chunking.ReadsToKey(cfg, d, s);
      Chunking.ReadsToKey(cfg, d, s2);
      Chunking.RunAnswer(cfg, d, s);
      Chunking.RunAnswer(cfg, d, s2);
    }
  }
}
