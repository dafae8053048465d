/** The bytes and names a stored key goes by: its type code in the file, and what the `type` and
    `encoding` columns call it. */
module Naming {
  import opened Common
  import opened Types
  import opened Values
  import opened Machine
  import opened Wire
  import FileFormat
  import Printing
  import Schema
  import ValueFormat

  /** The first byte of a record. */
  function FirstByte(r: FileFormat.Record): nat {
    match r
    case SlotImport(_, _, _) => 243
    case SlotInfo(_, _, _) => 244
    case Function2(_) => 245
    case ModuleAux(_, _, _, _, _) => 247
    case Idle(_) => 248
    case Freq(_) => 249
    case Aux(_, _) => 250
    case ResizeDb(_, _) => 251
    case ExpireMs(_) => 252
    case ExpireSecs(_) => 253
    case SelectDb(_) => 254
    case Key(_, v) => v.Type()
    case ZipmapKey(_, _) => 9
  }

  /** Every record stands behind its own byte, and the end of the records behind 255. */
  lemma OpcodeBytes(env: Env, r: FileFormat.Record)
    requires FileFormat.Fits(env, r)
    ensures FileFormat.Print(env, r)[0] as nat == FirstByte(r) != 255 && OP_EOF == 255
  {
    hide FileFormat.Body, Val.Fits;
    if r.Key? { Stored(env, r.value); }
  }

  /** No other byte stands for a record: it is refused where it is, with nothing consumed behind it. */
  lemma OtherBytes(cfg: Config, d: Bytes, op: Byte, s: State)
    requires Machine.Valid(cfg, d, s) && s.chunked.None? && s.preamble.None?
    requires op == 8 || 23 <= op <= 242 || op == 246
    ensures StepOpcode(cfg, d, op, s) == Stop(Answer(Failure(CorruptData), s))
  {
    hide ReadEntry, AtEof;
  }

  /** The logical type of a value. */
  function KindOf(v: RdbValue): string {
    match v
    case Str(_) => "string"
    case List(_) => "list"
    case Set(_) => "set"
    case SortedSet(_) => "zset"
    case Hash(_) => "hash"
    case Module(_, _, _) => "module"
    case Stream(_, _, _) => "stream"
  }

  /** Which code a stored value has, and the name of its encoding. */
  ghost predicate CodedAs(env: Env, v: Val, code: nat, encoding: string)
    requires v.Fits(env)
  {
    var x := v.Value(env);
    match v
    case Text(_) => code == 0 && encoding == "string"
    case Plain(_, _, xs) =>
      if x.List? then code == 1 && encoding == "linkedlist"
      else if x.Set? then code == 2 && encoding == "hashtable"
      else if x.SortedSet? then
        (code == 3 || code == 5) && encoding == "skiplist" && forall e | e in xs :: e.Binary? <==> code == 5
      else (code == 4 || code == 22) && encoding == "hashtable" && forall e | e in xs :: e.Expiring? <==> code == 22
    case Ints(_, _, _) => code == 11 && encoding == "intset"
    case Packed(_, _, _) => code == (if x.Set? then 20 else if x.Hash? then 16 else 17) && encoding == "listpack"
    case Zipped(_, _, _) => code == (if x.List? then 10 else if x.Hash? then 13 else 12) && encoding == "ziplist"
    case Quicklist(v2, _, _) =>
      if v2 then code == 18 && encoding == "quicklist2" else code == 14 && encoding == "quicklist"
    case Entries(_, _) =>
      || (code == 15 && encoding == "stream")
      || (code == 19 && encoding == "stream2")
      || (code == 21 && encoding == "stream3")
    case Payload(_, _, _, _, _) => code == 7 && encoding == "module"
  }

  lemma {:induction false} CollectionKind(env: Env, t: Byte, xs: seq<Elem>)
    requires AllFit(env, t, xs)
    ensures SameKind(NoElements(t), Collection(env, t, xs))
  {
    hide Elem.Fits, Elem.Alone;
    if xs != [] {
      assert xs[0].Fits(env, t);
      AloneKind(env, t, xs[0]);
      CollectionKind(env, t, xs[1..]);
    }
  }

  lemma AloneKind(env: Env, t: Byte, x: Elem)
    requires x.Fits(env, t)
    ensures SameKind(NoElements(t), x.Alone(env, t))
  {
    hide Printing.StrFits, Printing.Meaning;
  }

  lemma PlainCoded(env: Env, t: Byte, f: Printing.LenForm, xs: seq<Elem>)
    requires Plain(t, f, xs).Fits(env)
    ensures CodedAs(env, Plain(t, f, xs), t as nat, Schema.EncodingName(t))
    ensures Schema.TypeName(t) == KindOf(Plain(t, f, xs).Value(env))
  {
    hide Printing.StrFits, Printing.Meaning, Collection;
    CollectionKind(env, t, xs);
    forall e | e in xs ensures e.Fits(env, t) {}
  }

  /** Every stored value has the code its encoding is known by, and the two columns name its type and its
      encoding. */
  lemma Stored(env: Env, v: Val)
    requires v.Fits(env)
    ensures CodedAs(env, v, v.Type() as nat, Schema.EncodingName(v.Type()))
    ensures Schema.TypeName(v.Type()) == KindOf(v.Value(env))
  {
    hide Printing.StrFits, Printing.Meaning, EntriesFit, ValueFormat.AllEntries, ValueFormat.TextBytes;
    hide ValueFormat.Values, AllElements, ModuleId, FieldsOf, ScoresOf, ValueFormat.StreamParts.Valid, Collection;
    match v
    case Plain(t, f, xs) => PlainCoded(env, t, f, xs);
    case Packed(_, _, _) =>
    case Zipped(_, _, _) =>
    case Entries(_, _) =>
    case _ =>
  }

  /** The codes no value is stored under keep names too: the old module and zipmap types their own, any
      other byte none. */
  lemma NotStored(t: Byte)
    requires t == 6 || t == 8 || t == 9 || t >= 23
    ensures Schema.TypeName(t) == if t == 6 then "module" else if t == 9 then "hash" else "unknown"
    ensures Schema.EncodingName(t) == if t == 6 then "module" else if t == 9 then "zipmap" else "unknown"
  {}
}
