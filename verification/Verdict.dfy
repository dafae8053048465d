/** What the end of a run says about the checksum, for every input. */
module Verdict {
  import opened Common
  import opened Types
  import opened Wire
  import opened Machine
  import Chunking
  import FileFormat
  import Reader

  /** A byte kept for replay is the one just before the cursor. */
  predicate Replayable(d: Bytes, s: State) {
    s.preamble.Some? ==> 0 < s.pos <= |d| && d[s.pos - 1] == s.preamble.value
  }

  /** EOF was read, its trailer follows and is not a wrong checksum, and the flag says whether it
      was compared. */
  predicate Settled(cfg: Config, d: Bytes, s: State) {
    && 9 <= s.pos <= |d|
    && d[s.pos - 9] == OP_EOF
    && !FileFormat.BadTrailer(cfg, d, s.pos - 8)
    && s.crcChecked == FileFormat.GoodTrailer(cfg, d, s.pos - 8)
  }

  lemma RecordKeeps(env: Env, d: Bytes, op: Byte, s: State)
    requires s.pos <= |d|
    ensures var r := ReadRecord(env, d, op, s);
            r.Ok? ==> r.value.crcChecked == s.crcChecked && r.value.finished == s.finished
  {
    hide ReadString, ReadLengthValue, SkipLengths, ReadI64, Take, ReadU8, ReadModule, ReadCount;
  }

  lemma EntryKeeps(cfg: Config, d: Bytes, t: Byte, s: State)
    requires Valid(cfg, d, s) && s.chunked.None? && s.preamble.None?
    ensures var q := ReadEntry(cfg, d, t, s).state; q.crcChecked == s.crcChecked && q.finished == s.finished
  {
    hide ReadString, ReadCount, ReadElements, ReadValue, Valid, IsPlainType;
  }

  lemma EofSettles(cfg: Config, d: Bytes, s: State)
    requires 0 < s.pos <= |d| && d[s.pos - 1] == OP_EOF && !s.crcChecked
    ensures var a := AtEof(cfg.version, d, s);
            if a.result.Success? then Settled(cfg, d, a.state)
            else Terminal(a.result.error) && !a.state.crcChecked && a.state.finished == s.finished
  {
    hide Computed;
  }

  /** What one answer of the inner loop leaves. */
  predicate AnswerKeeps(cfg: Config, d: Bytes, a: Answer) {
    && a.state.pos <= |d|
    && (if a.result == Success(None) then Settled(cfg, d, a.state) else !a.state.crcChecked && !a.state.finished)
    && (a.result.Success? || a.result.error.UnknownType? ==> Replayable(d, a.state))
  }

  lemma StepKeeps(cfg: Config, d: Bytes, op: Byte, s: State)
    requires Valid(cfg, d, s) && s.chunked.None? && s.preamble.None? && !s.crcChecked && !s.finished
    requires 0 < s.pos && d[s.pos - 1] == op
    ensures match StepOpcode(cfg, d, op, s)
            case Again(t) => !t.crcChecked && !t.finished
            case Stop(a) => AnswerKeeps(cfg, d, a)
  {
    hide ReadEntry, ReadRecord, AtEof, Settled;
    RecordKeeps(cfg.env, d, op, s);
    if op == OP_EOF {
      EofSettles(cfg, d, s);
    } else if IsObjectType(op) {
      EntryKeeps(cfg, d, op, s);
    }
  }

  lemma {:induction false} UntilKeyKeeps(cfg: Config, d: Bytes, s: State)
    requires Valid(cfg, d, s) && s.chunked.None? && Replayable(d, s) && !s.crcChecked && !s.finished
    ensures AnswerKeeps(cfg, d, ReadUntilKey(cfg, d, s))
    decreases Unread(d, s)
  {
    hide StepOpcode, Settled;
    var r := TakeOpcode(d, s);
    if r.Ok? {
      var t := s.(pos := r.pos, preamble := None);
      StepKeeps(cfg, d, r.value, t);
      var step := StepOpcode(cfg, d, r.value, t);
      if step.Again? { UntilKeyKeeps(cfg, d, step.next); }
    }
  }

  lemma NextKeeps(cfg: Config, d: Bytes, s: State)
    requires Valid(cfg, d, s) && Replayable(d, s) && !s.crcChecked && !s.finished
    ensures AnswerKeeps(cfg, d, NextInner(cfg, d, s))
  {
    hide ReadUntilKey, ReadElements, Settled;
    if s.chunked.None? { UntilKeyKeeps(cfg, d, s); }
  }

  /** No error but skipped types. */
  predicate Clean(items: seq<Item>) {
    forall i :: 0 <= i < |items| && items[i].Err? ==> items[i].error.UnknownType?
  }

  lemma CleanNone()
    ensures Clean([])
  {}

  lemma CleanFirst(x: Item, rest: seq<Item>)
    ensures Clean([x] + rest) <==> (x.Err? ==> x.error.UnknownType?) && Clean(rest)
  {
    var all := [x] + rest;
    assert all[0] == x;
    assert forall i :: 0 <= i < |rest| ==> all[i + 1] == rest[i];
  }

  // ----- where a run ends -----

  /** An answer after which the iteration goes on. */
  predicate GoesOn(a: Answer) { if a.result.Success? then a.result.value.Some? else a.result.error.UnknownType? }

  /** Records only, then EOF: the cursor after that opcode. None when a key or an error comes first. */
  function EofAfterRecords(cfg: Config, d: Bytes, s: State): (r: Option<nat>)
    requires Valid(cfg, d, s) && s.chunked.None?
    ensures r.Some? ==> s.pos <= r.value <= |d|
    decreases Unread(d, s)
  {
    hide StepOpcode;
    match TakeOpcode(d, s)
    case Fail(_, _) => None
    case Ok(op, p) =>
      if op == OP_EOF then Some(p)
      else
        match StepOpcode(cfg, d, op, s.(pos := p, preamble := None))
        case Again(s2) => EofAfterRecords(cfg, d, s2)
        case Stop(_) => None
  }

  /** The cursor after the EOF opcode that the iteration meets, if no error stops it earlier. */
  function EofCursor(cfg: Config, d: Bytes, s: State): (r: Option<nat>)
    requires Valid(cfg, d, s)
    ensures r.Some? ==> r.value <= |d|
    decreases Unread(d, s)
  {
    hide NextInner, EofAfterRecords;
    var a := NextInner(cfg, d, s);
    if GoesOn(a) then EofCursor(cfg, d, a.state)
    else if s.chunked.Some? then None
    else EofAfterRecords(cfg, d, s)
  }

  /** A trailer stands at `p` and does not claim a wrong checksum. */
  predicate TrailerPasses(cfg: Config, d: Bytes, p: nat) { p + 8 <= |d| && !FileFormat.BadTrailer(cfg, d, p) }

  /** The last answer of an iteration that met EOF at `at`, or did not meet it. */
  predicate EndsAt(cfg: Config, d: Bytes, at: Option<nat>, a: Answer) {
    if at.Some? && TrailerPasses(cfg, d, at.value) then
      a.result == Success(None) && a.state.pos == at.value + 8
    else
      && a.result.Failure? && !a.result.error.UnknownType?
      && (at.Some? && at.value + 8 <= |d| ==> a.result.error == CorruptData && a.state.pos == at.value + 8)
  }

  lemma EofEnds(cfg: Config, d: Bytes, s: State)
    requires s.pos <= |d|
    ensures EndsAt(cfg, d, Some(s.pos), AtEof(cfg.version, d, s))
  {
    hide Computed;
  }

  lemma StepEnds(cfg: Config, d: Bytes, op: Byte, s: State)
    requires Valid(cfg, d, s) && s.chunked.None? && s.preamble.None?
    ensures var r := StepOpcode(cfg, d, op, s);
            r.Stop? && !GoesOn(r.answer) ==> EndsAt(cfg, d, if op == OP_EOF then Some(s.pos) else None, r.answer)
    ensures op == OP_EOF ==> StepOpcode(cfg, d, op, s).Stop?
  {
    hide ReadEntry, ReadRecord, AtEof, TrailerPasses;
    if op == OP_EOF { EofEnds(cfg, d, s); }
  }

  lemma {:induction false} UntilKeyEnds(cfg: Config, d: Bytes, s: State)
    requires Valid(cfg, d, s) && s.chunked.None?
    ensures !GoesOn(ReadUntilKey(cfg, d, s)) ==> EndsAt(cfg, d, EofAfterRecords(cfg, d, s), ReadUntilKey(cfg, d, s))
    decreases Unread(d, s)
  {
    hide StepOpcode, TrailerPasses;
    var r := TakeOpcode(d, s);
    if r.Ok? {
      var t := s.(pos := r.pos, preamble := None);
      StepEnds(cfg, d, r.value, t);
      var step := StepOpcode(cfg, d, r.value, t);
      if step.Again? { UntilKeyEnds(cfg, d, step.next); }
    }
  }

  lemma ChunkEnds(cfg: Config, d: Bytes, s: State)
    requires Valid(cfg, d, s) && s.chunked.Some?
    ensures var a := NextInner(cfg, d, s); !GoesOn(a) ==> EndsAt(cfg, d, None, a)
  {
    hide ReadChunk, TrailerPasses;
  }

  lemma {:induction false} NextEnds(cfg: Config, d: Bytes, s: State)
    requires Valid(cfg, d, s)
    ensures var a := NextInner(cfg, d, s);
            !GoesOn(a) ==> EndsAt(cfg, d, EofCursor(cfg, d, s), a)
  {
    hide ReadUntilKey, EndsAt, GoesOn, EofAfterRecords;
    if s.chunked.Some? {
      ChunkEnds(cfg, d, s);
    } else {
      UntilKeyEnds(cfg, d, s);
    }
  }

  /** The iteration meets an EOF opcode whose trailer is there and passes. */
  predicate EndsWell(cfg: Config, d: Bytes, at: Option<nat>) { at.Some? && TrailerPasses(cfg, d, at.value) }

  /** A run reports nothing but skipped types if and only if it meets an EOF opcode whose trailer is
      there and does not claim a wrong checksum. It then stops after that trailer, and says that the
      checksum was verified exactly when the trailer claims the right one. Any other run ends in an
      error, and never claims a verified checksum; when the trailer is there, the error is corruption
      and the run stops after it. */
  lemma {:induction false} EndVerdict(cfg: Config, d: Bytes, s: State)
    requires Valid(cfg, d, s) && Replayable(d, s) && !s.crcChecked && !s.finished
    ensures var t, at := Run(cfg, d, s), EofCursor(cfg, d, s);
            && (Clean(t.items) <==> EndsWell(cfg, d, at))
            && (Clean(t.items) ==> t.final.pos == at.value + 8 && Settled(cfg, d, t.final))
            && (!Clean(t.items) ==> !t.final.crcChecked)
            && (!Clean(t.items) && at.Some? && at.value + 8 <= |d| ==>
                  t.items[|t.items| - 1] == Err(CorruptData) && t.final.pos == at.value + 8)
    decreases Unread(d, s)
  {
    hide Run, NextInner, Settled, TrailerPasses;
    NextKeeps(cfg, d, s);
    NextEnds(cfg, d, s);
    Chunking.RunAnswer(cfg, d, s);
    var a := NextInner(cfg, d, s);
    if GoesOn(a) {
      EndVerdict(cfg, d, a.state);
      var first := if a.result.Success? then Got(a.result.value.value) else Err(a.result.error);
      CleanFirst(first, Run(cfg, d, a.state).items);
    } else if a.result.Failure? {
      CleanFirst(Err(a.result.error), []);
      assert [Err(a.result.error)] + [] == [Err(a.result.error)];
    }
  }

  // ----- from the first byte -----

  /** The eager scan keeps a byte that stands just before the cursor, and the two flags. */
  lemma {:induction false} PreambleKeeps(env: Env, d: Bytes, s: State)
    requires s.pos <= |d| && s.preamble.None?
    ensures var r := ReadPreamble(env, d, s);
            r.Ok? ==> Replayable(d, r.value) && r.value.crcChecked == s.crcChecked && r.value.finished == s.finished
                      && r.value.chunked == s.chunked && r.value.pos <= |d|
    decreases |d| - s.pos
  {
    hide ReadRecord;
    var op := ReadU8(d, s.pos);
    if op.Ok? && op.value == OP_AUX {
      var s1 := s.(pos := op.pos);
      RecordKeeps(env, d, OP_AUX, s1);
      var r := ReadRecord(env, d, OP_AUX, s1);
      if r.Ok? { PreambleKeeps(env, d, r.value); }
    }
  }

  /** The state an opened reader starts from meets what `EndVerdict` asks. */
  lemma OpenedReplayable(env: Env, d: Bytes)
    requires Reader.Start(env, d).Success?
    ensures var s := Reader.Start(env, d).value.state;
            s.pos <= |d| && s.chunked.None? && Replayable(d, s) && !s.crcChecked && !s.finished
  {
    hide ReadPreamble, Reader.ParseHeader, Replayable;
    PreambleKeeps(env, d, Reader.Fresh(9));
  }

  predicate PositiveLimit(max: Option<nat>) { max.Some? ==> max.value > 0 }

  function ConfigOf(env: Env, d: Bytes, max: Option<nat>): Config
    requires Reader.Start(env, d).Success?
  {
    Config(env, Reader.Start(env, d).value.header.version, max)
  }

  /** What an opened reader goes on to deliver. */
  function FileRun(env: Env, d: Bytes, max: Option<nat>): Trace
    requires PositiveLimit(max) && Reader.Start(env, d).Success?
  {
    hide Reader.Start;
    OpenedReplayable(env, d);
    Run(ConfigOf(env, d, max), d, Reader.Start(env, d).value.state)
  }

  /** Where the EOF opcode that an opened reader meets ends. */
  function FileEof(env: Env, d: Bytes, max: Option<nat>): (r: Option<nat>)
    requires PositiveLimit(max) && Reader.Start(env, d).Success?
    ensures r.Some? ==> r.value <= |d|
  {
    hide Reader.Start;
    OpenedReplayable(env, d);
    EofCursor(ConfigOf(env, d, max), d, Reader.Start(env, d).value.state)
  }

  /** The verdict for every input that opens, under every chunk limit: the run is clean if and only if
      it meets an EOF opcode with a trailer that passes, and then the checksum flag says whether the
      version is at least 5, the stored value is not zero and it is the checksum of every byte before
      it. A run that is not clean never claims a verified checksum. */
  lemma FileVerdict(env: Env, d: Bytes, max: Option<nat>)
    requires PositiveLimit(max) && Reader.Start(env, d).Success?
    ensures var cfg, t, at := ConfigOf(env, d, max), FileRun(env, d, max), FileEof(env, d, max);
            && (Clean(t.items) <==> EndsWell(cfg, d, at))
            && (Clean(t.items) ==> t.final.pos == at.value + 8 && Settled(cfg, d, t.final))
            && (!Clean(t.items) ==> !t.final.crcChecked)
            && (!Clean(t.items) && at.Some? && at.value + 8 <= |d| ==>
                  t.items[|t.items| - 1] == Err(CorruptData) && t.final.pos == at.value + 8)
  {
    hide Run, EofCursor, Reader.Start, Clean, Settled, EndsWell;
    OpenedReplayable(env, d);
    EndVerdict(ConfigOf(env, d, max), d, Reader.Start(env, d).value.state);
  }
}
