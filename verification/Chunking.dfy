/**
 Chunked reading refines whole-key reading: for every input and every limit, putting the chunks of
 each key back together gives exactly what the reader without a limit yields, error for error and
 byte for byte.
 */
module Chunking {
  import opened Common
  import opened Types
  import opened Wire
  import opened Machine

  /** The key read so far, with one more chunk; it keeps the total announced. */
  function Join(pending: Option<RdbEntry>, e: RdbEntry): RdbEntry {
    match pending
    case None => e.(elementOffset := None)
    case Some(a) => a.(value := Append(a.value, e.value))
  }

  /** A key put together, as a reader without a limit yields it. */
  function Complete(a: RdbEntry): RdbEntry { a.(totalElements := None, elementOffset := None) }

  /** Put chunks together; a key cut off by an error is dropped, and the error kept. */
  function Merge(pending: Option<RdbEntry>, items: seq<Item>): seq<Item>
    decreases items
  {
    if items == [] then []
    else
      match items[0]
      case Err(x) => [Err(x)] + Merge(None, items[1..])
      case Got(e) =>
        if e.totalElements.None? then [Got(e)] + Merge(None, items[1..])
        else
          var a := Join(pending, e);
          if a.value.Size() >= e.totalElements.value then [Got(Complete(a))] + Merge(None, items[1..])
          else Merge(Some(a), items[1..])
  }

  predicate SameKey(a: RdbEntry, e: RdbEntry) {
    && a.db == e.db && a.key == e.key && a.typeCode == e.typeCode
    && a.expiryMs == e.expiryMs && a.lruIdle == e.lruIdle && a.lfuFreq == e.lfuFreq
    && a.totalElements == e.totalElements
    && SameKind(a.value, e.value)
  }

  /** `e` continues the key read so far: next offset, same key, metadata and total, of the limit's size
      unless it completes the key. */
  predicate Continues(m: nat, pending: Option<RdbEntry>, e: RdbEntry) {
    && e.totalElements.Some? && e.totalElements.value > m && IsPlainType(e.typeCode)
    && SameKind(e.value, e.value)
    && (pending.Some? ==> SameKey(pending.value, e))
    && var done := if pending.Some? then pending.value.value.Size() else 0;
    && e.elementOffset == Some(done)
    && 1 <= e.value.Size() <= m
    && done + e.value.Size() <= e.totalElements.value
    && (e.value.Size() < m ==> done + e.value.Size() == e.totalElements.value)
  }

  /** A plain collection of more elements than the limit. */
  predicate Large(m: nat, e: RdbEntry) { IsPlainType(e.typeCode) && e.value.Size() > m }

  /** An entry that was read whole. */
  predicate Unchunked(m: nat, e: RdbEntry) { e.totalElements.None? && e.elementOffset.None? && !Large(m, e) }

  /** Entries come whole, unless they are large, or as complete runs of chunks; only an error that ends
      the reading may cut a run short. */
  predicate WellChunked(m: nat, pending: Option<RdbEntry>, items: seq<Item>)
    decreases items
  {
    if items == [] then pending.None?
    else
      match items[0]
      case Err(x) => (pending.Some? ==> Terminal(x)) && WellChunked(m, None, items[1..])
      case Got(e) =>
        if e.totalElements.None? then pending.None? && Unchunked(m, e) && WellChunked(m, None, items[1..])
        else
          && Continues(m, pending, e)
          && var a := Join(pending, e);
             WellChunked(m, if a.value.Size() >= e.totalElements.value then None else Some(a), items[1..])
  }

  function Whole(cfg: Config): Config { cfg.(maxElements := None) }
  function Limited(cfg: Config, m: nat): Config { cfg.(maxElements := Some(m)) }

  /** The two readers agree on every field; a run cut by an error leaves its chunk state behind. */
  predicate SameEnd(limited: State, whole: State) { limited.(chunked := None) == whole }

  ghost predicate Agree(m: nat, pending: Option<RdbEntry>, limited: Trace, items: seq<Item>, final: State) {
    && Merge(pending, limited.items) == items
    && SameEnd(limited.final, final)
    && WellChunked(m, pending, limited.items)
  }

  // ----- unfolding a run -----

  lemma {:induction false} RunAgain(cfg: Config, d: Bytes, s: State)
    requires Valid(cfg, d, s) && s.chunked.None? && !s.finished
    requires TakeOpcode(d, s).Ok?
    requires StepOpcode(cfg, d, TakeOpcode(d, s).value, s.(pos := TakeOpcode(d, s).pos, preamble := None)).Again?
    ensures var s2 := StepOpcode(cfg, d, TakeOpcode(d, s).value,
            s.(pos := TakeOpcode(d, s).pos, preamble := None)).next;
            Run(cfg, d, s) == Run(cfg, d, s2)
  {
    hide StepOpcode;
  }

  lemma {:induction false} RunAnswer(cfg: Config, d: Bytes, s: State)
    requires Valid(cfg, d, s) && !s.finished
    ensures var a := NextInner(cfg, d, s);
            Run(cfg, d, s) ==
            match a.result
            case Success(None) => Trace([], a.state)
            case Success(Some(e)) =>
              var rest := Run(cfg, d, a.state); Trace([Got(e)] + rest.items, rest.final)
            case Failure(UnknownType(t)) =>
              var rest := Run(cfg, d, a.state); Trace([Err(UnknownType(t))] + rest.items, rest.final)
            case Failure(e) => Trace([Err(e)], a.state.(finished := true))
  {
    hide NextInner;
    var a := NextInner(cfg, d, s);
    if a.result.Failure? && !a.result.error.UnknownType? {
      assert [Err(a.result.error)] + [] == [Err(a.result.error)];
    }
  }

  // ----- the chunks of one key -----

  lemma {:induction false} ChunkStep(cfg: Config, d: Bytes, s: State)
    requires Valid(cfg, d, s) && s.chunked.Some? && !s.finished
    ensures var c := s.chunked.value;
            var size := if cfg.maxElements.value < c.remaining then cfg.maxElements.value else c.remaining;
            Run(cfg, d, s) ==
            match ReadElements(cfg.env, c.typeCode, size, d, s.pos)
            case Fail(e, q) => Trace([Err(e)], s.(pos := q, finished := true))
            case Ok(v, q) =>
              var a := ReadChunk(cfg, d, s);
              var rest := Run(cfg, d, a.state); Trace([Got(a.result.value.value)] + rest.items, rest.final)
  {
    hide ReadElements;
    RunAnswer(cfg, d, s);
  }

  /** `a` is the part of the chunked key already yielded. */
  ghost predicate Partial(m: nat, s: State, a: RdbEntry) {
    && s.chunked.Some?
    && var c := s.chunked.value;
       && a == RdbEntry(c.db, c.key, a.value, c.typeCode, c.expiryMs, c.lruIdle, c.lfuFreq, Some(c.total), None)
       && SameKind(EmptyOf(c.typeCode), a.value)
       && a.value.Size() == c.offset && c.offset + c.remaining == c.total && c.total > m
  }

  /** The next chunk continues the key, and completes it or leaves a longer part. */
  lemma {:induction false} ChunkYields(cfg: Config, m: nat, d: Bytes, s: State, a: RdbEntry)
    requires m > 0 && Valid(Limited(cfg, m), d, s) && !s.finished && Partial(m, s, a)
    requires ReadChunk(Limited(cfg, m), d, s).result.Success?
    ensures var c := s.chunked.value;
            var size := if m < c.remaining then m else c.remaining;
            var ans := ReadChunk(Limited(cfg, m), d, s);
            var e := ans.result.value.value;
            var v := ReadElements(cfg.env, c.typeCode, size, d, s.pos);
            && v.Ok? && e.value == v.value && Continues(m, Some(a), e) && e.totalElements == Some(c.total)
            && Join(Some(a), e) == a.(value := Append(a.value, e.value)) && !ans.state.finished
            && Join(Some(a), e).value.Size() == c.offset + size
            && SameKind(EmptyOf(c.typeCode), Join(Some(a), e).value)
            && (size == c.remaining ==> ans.state == s.(pos := v.pos, chunked := None))
            && (size < c.remaining ==> Partial(m, ans.state, Join(Some(a), e)))
            && (size < c.remaining ==>
                  ans.state == s.(pos := v.pos, chunked :=
                      Some(c.(remaining := c.remaining - size, offset := c.offset + size))))
  {
    hide ReadElements;
    var e := ReadChunk(Limited(cfg, m), d, s).result.value.value;
    AppendAssociative(EmptyOf(s.chunked.value.typeCode), a.value, e.value);
  }

  lemma {:induction false} MergeStep(m: nat, a: RdbEntry, e: RdbEntry, items: seq<Item>)
    requires Continues(m, Some(a), e)
    ensures var j := Join(Some(a), e);
            var all := [Got(e)] + items;
            if j.value.Size() >= e.totalElements.value then
              Merge(Some(a), all) == [Got(Complete(j))] + Merge(None, items)
                  && (WellChunked(m, Some(a), all) <==> WellChunked(m, None, items))
            else
              Merge(Some(a), all) == Merge(Some(j), items)
                  && (WellChunked(m, Some(a), all) <==> WellChunked(m, Some(j), items))
  {
    assert ([Got(e)] + items)[1..] == items;
  }

  lemma {:induction false} ErrorCuts(m: nat, pending: Option<RdbEntry>, e: RdbError)
    requires Terminal(e)
    ensures Merge(pending, [Err(e)]) == [Err(e)] && WellChunked(m, pending, [Err(e)])
  {
    assert [Err(e)][1..] == [];
  }

  /** Reading on from a chunk state, with `a` the part of the key already yielded. */
  lemma {:induction false} ChunkTail(cfg: Config, m: nat, d: Bytes, s: State, a: RdbEntry)
    requires m > 0 && Valid(Limited(cfg, m), d, s) && !s.finished && Partial(m, s, a)
    ensures var c := s.chunked.value;
            var l := Run(Limited(cfg, m), d, s);
            match ReadElements(cfg.env, c.typeCode, c.remaining, d, s.pos)
            case Fail(e, q) => Agree(m, Some(a), l, [Err(e)], s.(pos := q, chunked := None, finished := true))
            case Ok(v, q) =>
              var rest := Run(Limited(cfg, m), d, s.(pos := q, chunked := None));
              && l.final == rest.final
              && Merge(Some(a), l.items) == [Got(Complete(a.(value := Append(a.value, v))))] + Merge(None, rest.items)
              && (WellChunked(m, None, rest.items) ==> WellChunked(m, Some(a), l.items))
    decreases s.chunked.value.remaining
  {
    hide ReadElements, Run, ReadChunk, Merge, WellChunked, Continues, Join;
    var lim := Limited(cfg, m);
    var c := s.chunked.value;
    var size := if m < c.remaining then m else c.remaining;
    SplitElements(cfg.env, c.typeCode, size, c.remaining - size, d, s.pos);
    ChunkStep(lim, d, s);
    var first := ReadElements(cfg.env, c.typeCode, size, d, s.pos);
    if first.Fail? {
      ErrorCuts(m, Some(a), first.error);
    } else {
      ChunkOk(lim, d, s);
      ChunkYields(cfg, m, d, s, a);
      var ans := ReadChunk(lim, d, s);
      var e := ans.result.value.value;
      var rest := Run(lim, d, ans.state);
      MergeStep(m, a, e, rest.items);
      if size == c.remaining {
        ReadNone(cfg.env, c.typeCode, d, first.pos, first.value);
      } else {
        ChunkTail(cfg, m, d, ans.state, Join(Some(a), e));
        var more := ReadElements(cfg.env, c.typeCode, c.remaining - size, d, first.pos);
        if more.Ok? { AppendAssociative(a.value, e.value, more.value); }
      }
    }
  }

  lemma {:induction false} ChunkOk(cfg: Config, d: Bytes, s: State)
    requires Valid(cfg, d, s) && s.chunked.Some?
    ensures var c := s.chunked.value;
            var size := if cfg.maxElements.value < c.remaining then cfg.maxElements.value else c.remaining;
            ReadElements(cfg.env, c.typeCode, size, d, s.pos).Ok? <==> ReadChunk(cfg, d, s).result.Success?
  {
    hide ReadElements;
  }

  lemma {:induction false} ReadNone(env: Env, t: Byte, d: Bytes, p: nat, v: RdbValue)
    requires p <= |d| && IsPlainType(t) && SameKind(EmptyOf(t), v)
    ensures ReadElements(env, t, 0, d, p) == Ok(EmptyOf(t), p) && Append(v, EmptyOf(t)) == v
  {
    AppendEmpty(t, v);
  }

  // ----- one key under both readers -----

  /** A plain key with more elements than the limit comes next. */
  predicate BigKey(m: nat, d: Bytes, op: Byte, s: State)
    requires s.pos <= |d|
  {
    && IsPlainType(op)
    && var key := ReadString(d, s.pos);
       key.Ok? && ReadCount(d, key.pos).Ok? && ReadCount(d, key.pos).value > m
  }

  /** Below the limit, and for types that are never chunked, the two readers do the same. */
  lemma EntrySame(cfg: Config, m: nat, d: Bytes, t: Byte, s: State)
    requires m > 0 && Valid(Limited(cfg, m), d, s) && s.chunked.None? && s.preamble.None?
    requires var key := ReadString(d, s.pos);
             key.Ok? && IsPlainType(t) ==> !(ReadCount(d, key.pos).Ok? && ReadCount(d, key.pos).value > m)
    ensures ReadEntry(Limited(cfg, m), d, t, s) == ReadEntry(Whole(cfg), d, t, s)
    ensures var r := ReadEntry(Whole(cfg), d, t, s);
            && r.state.chunked.None?
            && (r.result.Success? ==> Unchunked(m, r.result.value.value))
            && r.state.finished == s.finished
  {
    hide ReadString, ReadCount, ReadElements, DecodeBlob, ReadStream, ReadModule, ReadNodes;
  }

  /** Above the limit: the limited reader yields the first chunk, or the same error. */
  lemma {:induction false} EntryChunked(cfg: Config, m: nat, d: Bytes, t: Byte, s: State)
    requires m > 0 && Valid(Limited(cfg, m), d, s) && s.chunked.None? && s.preamble.None? && IsPlainType(t)
    requires var key := ReadString(d, s.pos);
             key.Ok? && ReadCount(d, key.pos).Ok? && ReadCount(d, key.pos).value > m
    ensures var key := ReadString(d, s.pos);
            var count := ReadCount(d, key.pos);
            && ReadEntry(Whole(cfg), d, t, s)
               == Finish(s, t, key.value, ReadElements(cfg.env, t, count.value, d, count.pos), None, None)
            && var r := ReadEntry(Limited(cfg, m), d, t, s);
               match ReadElements(cfg.env, t, m, d, count.pos)
               case Fail(e, q) => r == Answer(Failure(e), Consumed(s).(pos := q))
               case Ok(v, q) =>
                 && r.result == Success(Some(EntryOf(s, t, key.value, v, Some(count.value), Some(0))))
                 && r.state == Consumed(s).(pos := q, chunked :=
                      Some(Chunk(s.db, key.value, t, s.expiryMs, s.lruIdle, s.lfuFreq,
                                 count.value, count.value - m, m)))
  {
    hide ReadString, ReadCount, ReadElements;
  }

  lemma {:induction false} KeyChunked(cfg: Config, m: nat, d: Bytes, t: Byte, s: State)
    requires m > 0 && Valid(Limited(cfg, m), d, s) && s.chunked.None? && s.preamble.None? && !s.finished
    requires BigKey(m, d, t, s)
    ensures var w := ReadEntry(Whole(cfg), d, t, s);
            var r := ReadEntry(Limited(cfg, m), d, t, s);
            && (r.result.Failure? ==> w == r && Terminal(r.result.error))
            && w.state.chunked.None? && !w.state.finished
            && (w.result.Failure? ==> Terminal(w.result.error))
    ensures var w := ReadEntry(Whole(cfg), d, t, s);
            var r := ReadEntry(Limited(cfg, m), d, t, s);
            r.result.Success? ==>
              && r.result.value.Some? && r.state.chunked.Some? && !r.state.finished
              && var l := Run(Limited(cfg, m), d, r.state);
                 var e := r.result.value.value;
                 match w.result
                 case Failure(x) => Agree(m, None, Trace([Got(e)] + l.items, l.final), [Err(x)],
                     w.state.(finished := true))
                 case Success(g) =>
                   && g.Some?
                   && var rest := Run(Limited(cfg, m), d, w.state);
                   && l.final == rest.final
                   && Merge(None, [Got(e)] + l.items) == [Got(g.value)] + Merge(None, rest.items)
                   && (WellChunked(m, None, rest.items) ==> WellChunked(m, None, [Got(e)] + l.items))
  {
    hide ReadString, ReadCount, ReadElements, ReadEntry, Run;
    EntryChunked(cfg, m, d, t, s);
    var key := ReadString(d, s.pos);
    var count := ReadCount(d, key.pos);
    SplitElements(cfg.env, t, m, count.value - m, d, count.pos);
    var r := ReadEntry(Limited(cfg, m), d, t, s);
    if r.result.Success? {
      var e := r.result.value.value;
      var a := Join(None, e);
      assert Continues(m, None, e);
      ChunkTail(cfg, m, d, r.state, a);
      var l := Run(Limited(cfg, m), d, r.state);
      var items := [Got(e)] + l.items;
      assert items[1..] == l.items;
    }
  }

  // ----- whole runs -----

  lemma {:induction false} OpcodeFails(cfg: Config, d: Bytes, s: State)
    requires Valid(cfg, d, s) && s.chunked.None? && !s.finished && TakeOpcode(d, s).Fail?
    ensures Run(cfg, d, s) == Trace([Err(TakeOpcode(d, s).error)], s.(pos := TakeOpcode(d, s).pos, finished := true))
  {
    hide Run;
    RunAnswer(cfg, d, s);
  }

  lemma ReadsToKey(cfg: Config, d: Bytes, s: State)
    requires Valid(cfg, d, s) && s.chunked.None?
    requires TakeOpcode(d, s).Ok?
    requires StepOpcode(cfg, d, TakeOpcode(d, s).value, s.(pos := TakeOpcode(d, s).pos, preamble := None)).Stop?
    ensures NextInner(cfg, d, s)
         == StepOpcode(cfg, d, TakeOpcode(d, s).value, s.(pos := TakeOpcode(d, s).pos, preamble := None)).answer
  {
    hide StepOpcode;
  }

  lemma AgreePrefix(m: nat, item: Item, limited: Trace, whole: Trace)
    requires Agree(m, None, limited, whole.items, whole.final)
    requires item.Got? ==> Unchunked(m, item.entry)
    ensures Agree(m, None, Trace([item] + limited.items, limited.final), [item] + whole.items, whole.final)
  {
    assert ([item] + limited.items)[1..] == limited.items;
  }

  lemma AgreeEnd(m: nat, s: State, e: RdbError)
    requires s.chunked.None?
    ensures Agree(m, None, Trace([], s), [], s)
    ensures Agree(m, None, Trace([Err(e)], s), [Err(e)], s)
  {
    assert [Err(e)][1..] == [];
  }

  lemma StepSame(cfg: Config, m: nat, d: Bytes, op: Byte, s: State)
    requires m > 0 && Valid(Limited(cfg, m), d, s) && s.chunked.None? && s.preamble.None? && !s.finished
    ensures var l, w := StepOpcode(Limited(cfg, m), d, op, s), StepOpcode(Whole(cfg), d, op, s);
            if BigKey(m, d, op, s) then
              && l == Stop(ReadEntry(Limited(cfg, m), d, op, s)) && w == Stop(ReadEntry(Whole(cfg), d, op, s))
            else
              && l == w
              && (l.Stop? ==> l.answer.state.chunked.None?)
              && (l.Stop? && l.answer.result.Success? && l.answer.result.value.Some? ==>
                    Unchunked(m, l.answer.result.value.value) && !l.answer.state.finished)
              && (l.Stop? && l.answer.result.Failure? ==> !l.answer.state.finished)
  {
    hide ReadEntry, ReadRecord, ReadString, ReadCount, Computed;
    if IsObjectType(op) && !BigKey(m, d, op, s) { EntrySame(cfg, m, d, op, s); }
  }

  /** Joining the agreement of a big key with that of the rest of the file. */
  lemma {:induction false} AgreeBig(m: nat, e: RdbEntry, l: Trace, g: RdbEntry, rest: Trace, whole: Trace)
    requires Agree(m, None, rest, whole.items, whole.final)
    requires l.final == rest.final
    requires Merge(None, [Got(e)] + l.items) == [Got(g)] + Merge(None, rest.items)
    requires WellChunked(m, None, rest.items) ==> WellChunked(m, None, [Got(e)] + l.items)
    ensures Agree(m, None, Trace([Got(e)] + l.items, l.final), [Got(g)] + whole.items, whole.final)
  {}

  /** The limited and the whole reader, from any state between keys. */
  lemma {:induction false} Refines(cfg: Config, m: nat, d: Bytes, s: State)
    requires m > 0 && Valid(Limited(cfg, m), d, s) && s.chunked.None? && !s.finished
    ensures var w := Run(Whole(cfg), d, s);
            Agree(m, None, Run(Limited(cfg, m), d, s), w.items, w.final)
    decreases Unread(d, s)
  {
    hide Run, NextInner, StepOpcode, Agree, BigKey, ReadEntry;
    var lim, who := Limited(cfg, m), Whole(cfg);
    var op := TakeOpcode(d, s);
    if op.Fail? {
      OpcodeFails(lim, d, s);
      OpcodeFails(who, d, s);
      AgreeEnd(m, s.(pos := op.pos, finished := true), op.error);
    } else {
      var s1 := s.(pos := op.pos, preamble := None);
      StepSame(cfg, m, d, op.value, s1);
      var l := StepOpcode(lim, d, op.value, s1);
      if l.Again? {
        RunAgain(lim, d, s);
        RunAgain(who, d, s);
        Refines(cfg, m, d, l.next);
      } else {
        ReadsToKey(lim, d, s);
        ReadsToKey(who, d, s);
        RunAnswer(lim, d, s);
        RunAnswer(who, d, s);
        if BigKey(m, d, op.value, s1) {
          KeyChunked(cfg, m, d, op.value, s1);
          var r := ReadEntry(lim, d, op.value, s1);
          var w := ReadEntry(who, d, op.value, s1);
          if r.result.Success? && w.result.Success? {
            Refines(cfg, m, d, w.state);
            AgreeBig(m, r.result.value.value, Run(lim, d, r.state), w.result.value.value, Run(lim, d, w.state),
                Run(who, d, w.state));
          } else if r.result.Failure? {
            AgreeEnd(m, r.state.(finished := true), r.result.error);
          }
        } else {
          var a := l.answer;
          if a.result == Success(None) {
            AgreeEnd(m, a.state, Io);
          } else if a.result.Success? || a.result.error.UnknownType? {
            Refines(cfg, m, d, a.state);
            var item := if a.result.Success? then Got(a.result.value.value) else Err(a.result.error);
            AgreePrefix(m, item, Run(lim, d, a.state), Run(who, d, a.state));
          } else {
            AgreeEnd(m, a.state.(finished := true), a.result.error);
          }
        }
      }
    }
  }
}
