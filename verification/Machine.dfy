/**
 The reader as a state machine: one `next` call as a function of the input and of the state
 carried between calls, and whole runs of it.
 */
module Machine {
  import opened Common
  import opened Types
  import opened Wire
  import BitLists
  import Crc64

  /** State for reading a large key in chunks. */
  datatype Chunk = Chunk(
    db: nat, key: Bytes, typeCode: Byte,
    expiryMs: Option<int>, lruIdle: Option<nat>, lfuFreq: Option<Byte>,
    total: nat, remaining: nat, offset: nat)

  /** What is fixed for the life of a reader: library functions, RDB version, chunk limit. */
  datatype Config = Config(env: Env, version: nat, maxElements: Option<nat>)

  datatype State = State(
    pos: nat, db: nat,
    expiryMs: Option<int>, lruIdle: Option<nat>, lfuFreq: Option<Byte>,
    preamble: Option<Byte>, aux: map<Bytes, Bytes>,
    chunked: Option<Chunk>, finished: bool, crcChecked: bool)

  predicate Valid(cfg: Config, d: Bytes, s: State) {
    && s.pos <= |d|
    && (cfg.maxElements.Some? ==> cfg.maxElements.value > 0)
    && (s.chunked.Some? ==> cfg.maxElements.Some? && s.chunked.value.remaining > 0
                            && IsPlainType(s.chunked.value.typeCode) && s.preamble.None?)
  }

  /** Unread bytes, plus one for a byte waiting to be replayed. */
  function Unread(d: Bytes, s: State): nat
    requires s.pos <= |d|
  {
    |d| - s.pos + if s.preamble.Some? then 1 else 0
  }

  /** One outcome of `next`: an entry, the end of the file, or an error. */
  datatype Item = Got(entry: RdbEntry) | Err(error: RdbError)
  datatype Answer = Answer(result: Result<Option<RdbEntry>>, state: State)

  // ----- chunked reads -----

  function ReadChunk(cfg: Config, d: Bytes, s: State): (r: Answer)
    requires Valid(cfg, d, s) && s.chunked.Some?
    ensures r.state.pos <= |d|
    ensures if r.result.Success? then r.result.value.Some? && Valid(cfg, d, r.state)
            && Unread(d, r.state) < Unread(d, s)
            else Terminal(r.result.error)
  {
    hide ReadElements;
    var c := s.chunked.value;
    var size := if cfg.maxElements.value < c.remaining then cfg.maxElements.value else c.remaining;
    match ReadElements(cfg.env, c.typeCode, size, d, s.pos)
    case Fail(e, q) => Answer(Failure(e), s.(pos := q))
    case Ok(v, q) =>
      var left := c.remaining - size;
      Answer(
        Success(Some(RdbEntry(c.db, c.key, v, c.typeCode, c.expiryMs, c.lruIdle, c.lfuFreq, Some(c.total),
            Some(c.offset)))),
        s.(pos := q, chunked := if left == 0 then None else Some(c.(remaining := left, offset := c.offset + size))))
  }

  // ----- one key -----

  /** The key's own metadata is consumed whatever happens to its value. */
  function Consumed(s: State): State { s.(expiryMs := None, lruIdle := None, lfuFreq := None) }

  function EntryOf(s: State, t: Byte, key: Bytes, v: RdbValue, total: Option<nat>, offset: Option<nat>): RdbEntry {
    RdbEntry(s.db, key, v, t, s.expiryMs, s.lruIdle, s.lfuFreq, total, offset)
  }

  function Finish(s: State, t: Byte, key: Bytes, r: Outcome<RdbValue>, total: Option<nat>,
      offset: Option<nat>): Answer {
    match r
    case Fail(e, q) => Answer(Failure(e), Consumed(s).(pos := q))
    case Ok(v, q) => Answer(Success(Some(EntryOf(s, t, key, v, total, offset))), Consumed(s).(pos := q))
  }

  function ReadEntry(cfg: Config, d: Bytes, t: Byte, s: State): (r: Answer)
    requires Valid(cfg, d, s) && s.chunked.None? && s.preamble.None?
    ensures s.pos <= r.state.pos <= |d| && Valid(cfg, d, r.state) && r.state.preamble.None?
    ensures r.result.Success? ==> r.result.value.Some?
  {
    hide ReadString, ReadCount, ReadElements, ReadValue;
    match ReadString(d, s.pos)
    case Fail(e, q) => Answer(Failure(e), Consumed(s).(pos := q))
    case Ok(key, p1) =>
      if cfg.maxElements.Some? && IsPlainType(t) then
        match ReadCount(d, p1)
        case Fail(e, q) => Answer(Failure(e), Consumed(s).(pos := q))
        case Ok(count, p2) =>
          var max := cfg.maxElements.value;
          if count > max then
            var r := Finish(s, t, key, ReadElements(cfg.env, t, max, d, p2), Some(count), Some(0));
            if r.result.Failure? then r
            else r.(state := r.state.(chunked :=
              Some(Chunk(s.db, key, t, s.expiryMs, s.lruIdle, s.lfuFreq, count, count - max, max))))
          else Finish(s, t, key, ReadElements(cfg.env, t, count, d, p2), None, None)
      else Finish(s, t, key, ReadValue(cfg.env, t, d, p1), None, None)
  }

  // ----- opcodes -----

  /** What one opcode record other than EOF does to the state; the cursor is after the opcode. */
  function ReadRecord(env: Env, d: Bytes, op: Byte, s: State): (r: Outcome<State>)
    requires s.pos <= |d|
    ensures s.pos <= r.pos <= |d|
    ensures r.Ok? ==> r.value.pos == r.pos && r.value.preamble == s.preamble
    ensures r.Ok? ==> r.value.chunked == s.chunked && r.value.finished == s.finished
    ensures r.Fail? ==> Terminal(r.error)
  {
    hide ReadString, ReadLengthValue, SkipLengths, ReadI64, Take, ReadU8, ReadModule, ReadCount;
    if op == OP_AUX then
      var (k, p1) :- ReadString(d, s.pos);
      var (v, p2) :- ReadString(d, p1);
      if !env.validUtf8(k) then Fail(CorruptData, p2) else Ok(s.(pos := p2, aux := s.aux[k := AuxText(env, v)]), p2)
    else if op == OP_SELECTDB then
      var (n, p1) :- ReadLengthValue(d, s.pos);
      if n >= U32 then Fail(CorruptData, p1) else Ok(s.(pos := p1, db := n), p1)
    else if op == OP_RESIZEDB then
      var (_, p1) :- SkipLengths(2, d, s.pos);
      Ok(s.(pos := p1), p1)
    else if op == OP_EXPIRETIME_MS then
      var (ms, p1) :- ReadI64(d, s.pos);
      Ok(s.(pos := p1, expiryMs := Some(ms)), p1)
    else if op == OP_EXPIRETIME then
      var (b, p1) :- Take(d, s.pos, 4);
      Ok(s.(pos := p1, expiryMs := Some(Compact.ReadInt(b) * 1000)), p1)
    else if op == OP_IDLE then
      var (n, p1) :- ReadLengthValue(d, s.pos);
      Ok(s.(pos := p1, lruIdle := Some(n)), p1)
    else if op == OP_FREQ then
      var (b, p1) :- ReadU8(d, s.pos);
      Ok(s.(pos := p1, lfuFreq := Some(b)), p1)
    else if op == OP_FUNCTION2 then
      var (_, p1) :- ReadString(d, s.pos);
      Ok(s.(pos := p1), p1)
    else if op == OP_MODULE_AUX then
      var (_, p1) :- SkipLengths(3, d, s.pos);
      var (_, p2) :- ReadModule(env, false, [], 0, d, p1);
      Ok(s.(pos := p2), p2)
    else if op == OP_SLOT_INFO then
      var (_, p1) :- SkipLengths(3, d, s.pos);
      Ok(s.(pos := p1), p1)
    else if op == OP_SLOT_IMPORT then
      var (_, p1) :- ReadString(d, s.pos);
      var (n, p2) :- ReadCount(d, p1);
      var (_, p3) :- SkipLengths(2 * n, d, p2);
      Ok(s.(pos := p3), p3)
    else Fail(CorruptData, s.pos)  // FUNCTION_PRE_GA and bytes that are no opcode
  }

  /** `read_preamble`: AUX fields up to the first other byte, which is kept for replay. */
  function ReadPreamble(env: Env, d: Bytes, s: State): (r: Outcome<State>)
    requires s.pos <= |d| && s.preamble.None?
    ensures s.pos <= r.pos <= |d|
    ensures r.Ok? ==> r.value.pos == r.pos && r.value.preamble.Some? && r.value.preamble.value != OP_AUX
    ensures r.Ok? ==> r.value.chunked == s.chunked && r.value.finished == s.finished
    decreases |d| - s.pos
  {
    hide ReadRecord;
    var (op, p) :- ReadU8(d, s.pos);
    if op != OP_AUX then Ok(s.(pos := p, preamble := Some(op)), p)
    else
      var (s2, _) :- ReadRecord(env, d, OP_AUX, s.(pos := p));
      ReadPreamble(env, d, s2)
  }

  /** The checksum of everything before the trailer; the EOF opcode is included. */
  function Computed(d: Bytes, p: nat): nat
    requires p <= |d|
  {
    BitLists.Value(Crc64.Crc(Crc64.Poly(), Crc64.Zeros(64), d[..p]))
  }

  /** The trailer is read at every version, and compared only when it claims a checksum. */
  function AtEof(version: nat, d: Bytes, s: State): (r: Answer)
    requires s.pos <= |d|
    ensures s.pos <= r.state.pos <= |d| && r.state.preamble == s.preamble && r.state.chunked == s.chunked
    ensures if r.result.Success? then r.result.value.None? && r.state.finished else Terminal(r.result.error)
  {
    hide Computed;
    match Take(d, s.pos, 8)
    case Fail(e, q) => Answer(Failure(e), s.(pos := q))
    case Ok(trailer, q) =>
      var stored := Le(trailer);
      if version >= 5 && stored != 0 then
        if Computed(d, s.pos) != stored then Answer(Failure(CorruptData), s.(pos := q))
        else Answer(Success(None), s.(pos := q, crcChecked := true, finished := true))
      else Answer(Success(None), s.(pos := q, finished := true))
  }

  /** The opcode in hand, and the state once it is taken. */
  function TakeOpcode(d: Bytes, s: State): (r: Outcome<Byte>)
    requires s.pos <= |d|
    ensures s.pos <= r.pos <= |d|
    ensures if r.Ok? then |d| - r.pos < Unread(d, s) else Terminal(r.error)
  {
    if s.preamble.Some? then Ok(s.preamble.value, s.pos) else ReadU8(d, s.pos)
  }

  datatype Step = Again(next: State) | Stop(answer: Answer)

  /** One pass of the opcode loop, once the opcode has been taken. */
  function StepOpcode(cfg: Config, d: Bytes, op: Byte, s: State): (r: Step)
    requires Valid(cfg, d, s) && s.chunked.None? && s.preamble.None?
    ensures var t := if r.Again? then r.next else r.answer.state;
            s.pos <= t.pos <= |d| && Valid(cfg, d, t) && t.preamble.None?
    ensures r.Again? ==> r.next.chunked.None? && r.next.finished == s.finished
    ensures r.Stop? && r.answer.result == Success(None) ==> r.answer.state.finished
  {
    hide ReadEntry, ReadRecord, AtEof;
    if op == OP_EOF then Stop(AtEof(cfg.version, d, s))
    else if IsObjectType(op) then Stop(ReadEntry(cfg, d, op, s))
    else
      match ReadRecord(cfg.env, d, op, s)
      case Fail(e, q) => Stop(Answer(Failure(e), s.(pos := q)))
      case Ok(s2, _) => Again(s2)
  }

  /** Records until a key, the end of the file, or an error. */
  function ReadUntilKey(cfg: Config, d: Bytes, s: State): (r: Answer)
    requires Valid(cfg, d, s) && s.chunked.None?
    ensures s.pos <= r.state.pos <= |d| && Valid(cfg, d, r.state)
    ensures r.result.Success? || r.result.error.UnknownType? ==> Unread(d, r.state) < Unread(d, s)
    ensures r.result == Success(None) ==> r.state.finished
    decreases Unread(d, s)
  {
    hide StepOpcode;
    match TakeOpcode(d, s)
    case Fail(e, q) => Answer(Failure(e), s.(pos := q))
    case Ok(op, p) =>
      match StepOpcode(cfg, d, op, s.(pos := p, preamble := None))
      case Again(s2) => ReadUntilKey(cfg, d, s2)
      case Stop(a) => a
  }

  function NextInner(cfg: Config, d: Bytes, s: State): (r: Answer)
    requires Valid(cfg, d, s)
    ensures r.state.pos <= |d|
    ensures r.result.Success? || r.result.error.UnknownType?
            ==> Valid(cfg, d, r.state) && Unread(d, r.state) < Unread(d, s)
    ensures r.result == Success(None) ==> r.state.finished
  {
    hide ReadChunk, ReadUntilKey;
    if s.chunked.Some? then ReadChunk(cfg, d, s) else ReadUntilKey(cfg, d, s)
  }

  datatype Reply = Done | Yield(item: Item)

  /** `Iterator::next`: any error but `UnknownType` is terminal. */
  function Next(cfg: Config, d: Bytes, s: State): (r: (Reply, State))
    requires s.pos <= |d| && (s.finished || Valid(cfg, d, s))
    ensures r.1.pos <= |d| && (r.1.finished || Valid(cfg, d, r.1))
    ensures s.finished ==> r == (Done, s)
    ensures !s.finished ==> r.1.finished || Unread(d, r.1) < Unread(d, s)
    ensures r.0.Done? || (r.0.item.Err? && !r.0.item.error.UnknownType?) ==> r.1.finished
  {
    if s.finished then (Done, s)
    else
      var a := NextInner(cfg, d, s);
      match a.result
      case Success(Some(e)) => (Yield(Got(e)), a.state)
      case Success(None) => (Done, a.state)
      case Failure(UnknownType(t)) => (Yield(Err(UnknownType(t))), a.state)
      case Failure(e) => (Yield(Err(e)), a.state.(finished := true))
  }

  datatype Trace = Trace(items: seq<Item>, final: State)

  /** The whole iteration from a state: everything yielded, and the state it ends in. */
  function Run(cfg: Config, d: Bytes, s: State): (r: Trace)
    requires s.pos <= |d| && (s.finished || Valid(cfg, d, s))
    ensures r.final.finished
    decreases if s.finished then 0 else 1, Unread(d, s)
  {
    if s.finished then Trace([], s)
    else
      var (reply, s1) := Next(cfg, d, s);
      var rest := Run(cfg, d, s1);
      match reply
      case Done => rest
      case Yield(x) => Trace([x] + rest.items, rest.final)
  }
}
