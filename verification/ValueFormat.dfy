/**
 Stream values and module payloads as they are written: every part of them is read at its place, the
 consumer groups that are skipped as well as the entries that are kept.
 */
module ValueFormat {
  import opened Common
  import opened Types
  import opened Wire
  import opened Printing
  import Compact
  import Listpack
  import StreamPack

  // ----- consumer groups -----

  datatype Pending = Pending(id: Bytes, time: int, count: Num)
  {
    predicate Valid() { |id| == 16 && Compact.FitsInt(time, 8) && count.Valid() }
    function Print(): Bytes requires Valid() { id + (Compact.WriteInt(time, 8) + count.Print()) }
  }

  /** `active` is written from the third stream version on; `form` is how the number of `ids` is printed. */
  datatype Consumer = Consumer(name: StrEnc, seen: int, active: int, form: LenForm, ids: seq<Bytes>)
  {
    ghost predicate Valid() {
      && StrFits(name) && Compact.FitsInt(seen, 8) && Compact.FitsInt(active, 8)
      && |ids| <= MAX_ALLOC_BYTES && Count().Valid()
      && forall id | id in ids :: |id| == 16
    }
    function Count(): Num { Num(|ids|, form) }
    ghost function Print(t: Byte): Bytes
      requires Valid()
    {
      PrintStr(name) + (Compact.WriteInt(seen, 8) + (ActiveTime(t, this) + (Count().Print() + Concat(ids))))
    }
  }

  /** `numbers` are the last identifier's two halves and, from the second version on, the entries read. */
  datatype Group = Group(
    name: StrEnc, numbers: seq<Num>, pendingForm: LenForm, pending: seq<Pending>,
    consumerForm: LenForm, consumers: seq<Consumer>)
  {
    ghost predicate Valid(t: Byte) {
      && StrFits(name) && |numbers| == (if t >= T_STREAM_LISTPACKS_2 then 3 else 2)
      && (forall x | x in numbers :: x.Valid())
      && |pending| <= MAX_ALLOC_BYTES && PendingCount().Valid() && (forall x | x in pending :: x.Valid())
      && |consumers| <= MAX_ALLOC_BYTES && ConsumerCount().Valid() && (forall c | c in consumers :: c.Valid())
    }
    function PendingCount(): Num { Num(|pending|, pendingForm) }
    function ConsumerCount(): Num { Num(|consumers|, consumerForm) }
    ghost function Members(t: Byte): Bytes
      requires Valid(t)
    {
      PendingCount().Print() + (PrintPending(pending) + (ConsumerCount().Print() + PrintConsumers(t, consumers)))
    }
    ghost function Print(t: Byte): Bytes
      requires Valid(t)
    {
      PrintStr(name) + (PrintNums(numbers) + Members(t))
    }
  }

  function PrintPending(xs: seq<Pending>): Bytes
    requires forall x | x in xs :: x.Valid()
  {
    if xs == [] then [] else xs[0].Print() + PrintPending(xs[1..])
  }

  ghost function PrintConsumers(t: Byte, cs: seq<Consumer>): Bytes
    requires forall c | c in cs :: c.Valid()
  {
    if cs == [] then [] else cs[0].Print(t) + PrintConsumers(t, cs[1..])
  }

  ghost function PrintGroups(t: Byte, gs: seq<Group>): Bytes
    requires forall g | g in gs :: g.Valid(t)
  {
    if gs == [] then [] else gs[0].Print(t) + PrintGroups(t, gs[1..])
  }

  lemma TakeAt(d: Bytes, p: nat, b: Bytes)
    requires At(d, p, b)
    ensures p + |b| <= |d| && Take(d, p, |b|) == Ok(b, p + |b|)
  {}

  lemma I64At(d: Bytes, p: nat, x: int)
    requires Compact.FitsInt(x, 8) && At(d, p, Compact.WriteInt(x, 8))
    ensures p + 8 <= |d| && ReadI64(d, p) == Ok(x, p + 8)
  {
    Compact.ReadWriteInt(x, 8);
    TakeAt(d, p, Compact.WriteInt(x, 8));
    hide Compact.ReadInt, Compact.WriteInt, Compact.FitsInt;
  }

  lemma SplitThree(d: Bytes, p: nat, a: Bytes, b: Bytes, c: Bytes)
    requires At(d, p, a + (b + c))
    ensures At(d, p, a) && At(d, p + |a|, b) && At(d, p + |a| + |b|, c)
  {
    hide At;
    AtSplit(d, p, a, b + c);
    AtSplit(d, p + |a|, b, c);
  }

  lemma {:induction false} PendingSkipped(xs: seq<Pending>, d: Bytes, p: nat)
    requires (forall x | x in xs :: x.Valid()) && At(d, p, PrintPending(xs))
    ensures p <= |d| && SkipPel(|xs|, d, p) == Ok((), p + |PrintPending(xs)|)
    decreases |xs|
  {
    hide ReadI64, ReadLengthValue, ReadCount, Take, Num.Valid, Num.Print, Compact.FitsInt, Compact.WriteInt, At;
    TakeAt(d, p, PrintPending(xs));
    if xs != [] {
      var x := xs[0];
      assert x.Valid();
      AtSplit(d, p, x.Print(), PrintPending(xs[1..]));
      AtSplit(d, p, x.id, Compact.WriteInt(x.time, 8) + x.count.Print());
      AtSplit(d, p + 16, Compact.WriteInt(x.time, 8), x.count.Print());
      TakeAt(d, p, x.id);
      I64At(d, p + 16, x.time);
      NumReads(x.count, d, p + 24);
      PendingSkipped(xs[1..], d, p + |x.Print()|);
    }
  }

  lemma {:induction false} IdsSkipped(ids: seq<Bytes>, d: Bytes, p: nat)
    requires (forall id | id in ids :: |id| == 16) && At(d, p, Concat(ids))
    ensures p <= |d| && SkipIds(|ids|, d, p) == Ok((), p + |Concat(ids)|)
    decreases |ids|
  {
    hide Take, At, Concat;
    TakeAt(d, p, Concat(ids));
    ConcatDef(ids);
    if ids != [] {
      var rest := Concat(ids[1..]);
      AtSplit(d, p, ids[0], rest);
      TakeAt(d, p, ids[0]);
      IdsSkipped(ids[1..], d, p + 16);
      assert |Concat(ids)| == 16 + |rest|;
    }
  }

  lemma {:induction false} ConcatDef(bs: seq<Bytes>)
    ensures Concat(bs) == if bs == [] then [] else bs[0] + Concat(bs[1..])
  {}

  /** The bytes of a consumer's activity time, which the first two versions do not have. */
  function ActiveTime(t: Byte, c: Consumer): Bytes
    requires Compact.FitsInt(c.active, 8)
  {
    if t >= T_STREAM_LISTPACKS_3 then Compact.WriteInt(c.active, 8) else []
  }

  lemma ConsumerPlaces(t: Byte, c: Consumer, d: Bytes, p: nat)
    requires c.Valid() && At(d, p, c.Print(t))
    ensures var q := p + |PrintStr(c.name)|;
            var q2 := q + 8 + |ActiveTime(t, c)|;
            var q3 := q2 + |c.Count().Print()|;
            && At(d, p, PrintStr(c.name)) && At(d, q, Compact.WriteInt(c.seen, 8)) && At(d, q + 8, ActiveTime(t, c))
            && At(d, q2, c.Count().Print()) && At(d, q3, Concat(c.ids))
            && q3 + |Concat(c.ids)| == p + |c.Print(t)|
  {
    hide StrFits, PrintStr, Num.Valid, Num.Print, Compact.FitsInt, Compact.WriteInt, At, Concat;
    var seen, active := Compact.WriteInt(c.seen, 8), ActiveTime(t, c);
    SplitThree(d, p, PrintStr(c.name), seen, active + (c.Count().Print() + Concat(c.ids)));
    SplitThree(d, p + |PrintStr(c.name)| + 8, active, c.Count().Print(), Concat(c.ids));
  }

  lemma ActiveReads(t: Byte, c: Consumer, d: Bytes, p: nat)
    requires Compact.FitsInt(c.active, 8) && At(d, p, ActiveTime(t, c))
    ensures |ActiveTime(t, c)| == if t >= T_STREAM_LISTPACKS_3 then 8 else 0
    ensures p <= |d| && (t >= T_STREAM_LISTPACKS_3 ==> ReadI64(d, p) == Ok(c.active, p + 8))
  {
    hide ReadI64, Compact.FitsInt, Compact.WriteInt;
    if t >= T_STREAM_LISTPACKS_3 { I64At(d, p, c.active); }
  }

  lemma ConsumerHead(t: Byte, c: Consumer, d: Bytes, p: nat)
    requires c.Valid() && At(d, p, c.Print(t))
    ensures p <= |d| && ReadString(d, p) == Ok(Meaning(c.name), p + |PrintStr(c.name)|)
    ensures var q := p + |PrintStr(c.name)|;
            && q + 8 <= |d| && ReadI64(d, q) == Ok(c.seen, q + 8)
            && (t >= T_STREAM_LISTPACKS_3 ==> ReadI64(d, q + 8) == Ok(c.active, q + 16))
  {
    hide ReadString, ReadI64, StrFits, PrintStr, Meaning, Num.Valid, Num.Print, Compact.FitsInt, Compact.WriteInt, At;
    hide Consumer.Print, ActiveTime, Concat;
    ConsumerPlaces(t, c, d, p);
    StrReads(c.name, d, p);
    I64At(d, p + |PrintStr(c.name)|, c.seen);
    ActiveReads(t, c, d, p + |PrintStr(c.name)| + 8);
  }

  lemma {:induction false} ConsumerRest(t: Byte, c: Consumer, d: Bytes, p: nat)
    requires c.Valid() && At(d, p, c.Print(t))
    ensures var q := p + |PrintStr(c.name)| + 8 + if t >= T_STREAM_LISTPACKS_3 then 8 else 0;
            var q2 := q + |c.Count().Print()|;
            && q2 <= |d| && ReadCount(d, q) == Ok(|c.ids|, q2) && SkipIds(|c.ids|, d, q2) == Ok((), p + |c.Print(t)|)
  {
    hide ReadCount, SkipIds, StrFits, PrintStr, Num.Valid, Num.Print, Compact.FitsInt, Compact.WriteInt, At, Concat;
    hide Consumer.Print, ActiveTime, ReadLengthValue;
    var q := p + |PrintStr(c.name)| + 8 + |ActiveTime(t, c)|;
    ConsumerPlaces(t, c, d, p);
    ActiveReads(t, c, d, p + |PrintStr(c.name)| + 8);
    NumReads(c.Count(), d, q);
    IdsSkipped(c.ids, d, q + |c.Count().Print()|);
  }

  lemma OneConsumerSkipped(t: Byte, c: Consumer, n: nat, d: Bytes, p: nat)
    requires c.Valid() && At(d, p, c.Print(t))
    ensures p <= |d| && p + |c.Print(t)| <= |d|
    ensures SkipConsumers(t, n + 1, d, p) == SkipConsumers(t, n, d, p + |c.Print(t)|)
  {
    hide ReadString, ReadI64, ReadCount, SkipIds, At, Consumer.Valid, Consumer.Print, StrFits, PrintStr;
    hide Meaning, Num.Print;
    ConsumerHead(t, c, d, p);
    ConsumerRest(t, c, d, p);
    TakeAt(d, p, c.Print(t));
  }

  lemma {:induction false} ConsumersSkipped(t: Byte, cs: seq<Consumer>, d: Bytes, p: nat)
    requires (forall c | c in cs :: c.Valid()) && At(d, p, PrintConsumers(t, cs))
    ensures p <= |d| && SkipConsumers(t, |cs|, d, p) == Ok((), p + |PrintConsumers(t, cs)|)
    decreases |cs|
  {
    hide ReadString, ReadI64, ReadCount, SkipIds, At, Consumer.Valid, Consumer.Print;
    TakeAt(d, p, PrintConsumers(t, cs));
    if cs != [] {
      var c := cs[0];
      assert c.Valid();
      AtSplit(d, p, c.Print(t), PrintConsumers(t, cs[1..]));
      OneConsumerSkipped(t, c, |cs| - 1, d, p);
      ConsumersSkipped(t, cs[1..], d, p + |c.Print(t)|);
    }
  }

  /** The two counted lists of a group. */
  lemma {:induction false} MembersSkipped(t: Byte, g: Group, d: Bytes, p: nat)
    requires g.Valid(t) && At(d, p, g.Members(t))
    ensures var p2 := p + |g.PendingCount().Print()|;
            var p3 := p2 + |PrintPending(g.pending)|;
            var p4 := p3 + |g.ConsumerCount().Print()|;
            && p4 <= |d| && ReadCount(d, p) == Ok(|g.pending|, p2) && SkipPel(|g.pending|, d, p2) == Ok((), p3)
            && ReadCount(d, p3) == Ok(|g.consumers|, p4)
            && SkipConsumers(t, |g.consumers|, d, p4) == Ok((), p + |g.Members(t)|)
  {
    hide ReadCount, ReadLengthValue, SkipPel, SkipConsumers, At, Num.Print, Num.Valid, StrFits, PrintStr, PrintNums;
    hide PrintPending, PrintConsumers, Pending.Valid, Consumer.Valid;
    var pending, consumers := PrintPending(g.pending), PrintConsumers(t, g.consumers);
    var p2 := p + |g.PendingCount().Print()|;
    var p3 := p2 + |pending|;
    SplitThree(d, p, g.PendingCount().Print(), pending, g.ConsumerCount().Print() + consumers);
    AtSplit(d, p3, g.ConsumerCount().Print(), consumers);
    NumReads(g.PendingCount(), d, p);
    PendingSkipped(g.pending, d, p2);
    NumReads(g.ConsumerCount(), d, p3);
    ConsumersSkipped(t, g.consumers, d, p3 + |g.ConsumerCount().Print()|);
  }

  /** A printed consumer group is skipped exactly. */
  lemma GroupSkipped(t: Byte, g: Group, d: Bytes, p: nat)
    requires g.Valid(t) && At(d, p, g.Print(t))
    ensures p <= |d| && SkipGroup(t, d, p) == Ok((), p + |g.Print(t)|)
  {
    hide ReadString, ReadCount, SkipLengths, SkipPel, SkipConsumers, StrFits, PrintStr, Meaning, Num.Print;
    hide Num.Valid, At;
    hide PrintNums, PrintPending, PrintConsumers, Pending.Valid, Consumer.Valid, Group.Members;
    var p1 := p + |PrintStr(g.name)|;
    SplitThree(d, p, PrintStr(g.name), PrintNums(g.numbers), g.Members(t));
    StrReads(g.name, d, p);
    NumsAt(g.numbers, d, p1);
    MembersSkipped(t, g, d, p1 + |PrintNums(g.numbers)|);
  }

  lemma {:induction false} GroupsSkipped(t: Byte, gs: seq<Group>, d: Bytes, p: nat)
    requires (forall g | g in gs :: g.Valid(t)) && At(d, p, PrintGroups(t, gs))
    ensures p <= |d| && SkipGroups(t, |gs|, d, p) == Ok((), p + |PrintGroups(t, gs)|)
    decreases |gs|
  {
    hide SkipGroup, At, Group.Print, Group.Valid;
    TakeAt(d, p, PrintGroups(t, gs));
    if gs != [] {
      assert gs[0].Valid(t);
      AtSplit(d, p, gs[0].Print(t), PrintGroups(t, gs[1..]));
      GroupSkipped(t, gs[0], d, p);
      GroupsSkipped(t, gs[1..], d, p + |gs[0].Print(t)|);
    }
  }

  // ----- nodes -----

  /** One node of the entry tree: the master identifier and a listpack, each printed as a string, and
      what the listpack holds. */
  datatype Node = Node(
    id: StrEnc, blob: StrEnc, ms: nat, sq: nat, stored: seq<Listpack.Item>, count: nat, deleted: nat,
    fields: seq<Compact.CompactEntry>, items: seq<StreamPack.Item>)
  {
    ghost predicate Valid() {
      && StrFits(id) && StrFits(blob) && ms < U64 && sq < U64 && |items| < U64
      && Meaning(id) == ToBe(ms, 8) + ToBe(sq, 8)
      && Listpack.Holds(Meaning(blob), stored)
      && StreamPack.Holds(Listpack.Entries(stored), count, deleted, fields, items, ms, sq)
    }
    ghost function Print(): Bytes
      requires Valid()
    {
      PrintStr(id) + PrintStr(blob)
    }
    /** The entries that the node stands for. */
    ghost function Entries(): seq<StreamPack.StreamEntry>
      requires Valid()
    {
      StreamPack.Live(items, ms, sq, Compact.IntoBytesAll(fields))
    }
  }

  ghost function AllEntries(ns: seq<Node>): seq<StreamPack.StreamEntry>
    requires forall n | n in ns :: n.Valid()
  {
    if ns == [] then [] else ns[0].Entries() + AllEntries(ns[1..])
  }

  ghost function PrintNodes(ns: seq<Node>): Bytes
    requires forall n | n in ns :: n.Valid()
  {
    if ns == [] then [] else ns[0].Print() + PrintNodes(ns[1..])
  }

  lemma NodeAdds(n: Node, acc: Packs)
    requires n.Valid() && acc.deferred.None? && |acc.entries| <= 5_000_000
    ensures AddPack(acc, Meaning(n.id), Meaning(n.blob))
            == if |acc.entries| + |n.Entries()| <= 5_000_000 then acc.(entries := acc.entries + n.Entries())
               else acc.(deferred := Some(CorruptData))
  {
    hide StrFits, Meaning, StreamPack.Decode, StreamPack.Live, Listpack.Holds, Listpack.DecodeSpec;
    hide StreamPack.ValidItems;
    var es, id := Listpack.Entries(n.stored), Meaning(n.id);
    Listpack.AcceptsExactlyLayouts(Meaning(n.blob), es);
    StreamPack.RoundTrip(es, n.count, n.deleted, n.fields, n.items, n.ms, n.sq, 5_000_000 - |acc.entries|);
    PowValues();
    BeOfToBe(n.ms, 8);
    BeOfToBe(n.sq, 8);
    assert id[..8] == ToBe(n.ms, 8) && id[8..16] == ToBe(n.sq, 8);
  }

  lemma NodeReads(n: Node, count: nat, acc: Packs, d: Bytes, p: nat) returns (acc2: Packs)
    requires n.Valid() && At(d, p, n.Print()) && |acc.entries| <= 5_000_000
    ensures p + |n.Print()| <= |d| && ReadPacks(count + 1, acc, d, p) == ReadPacks(count, acc2, d, p + |n.Print()|)
    ensures acc2 == if acc.deferred.Some? then acc
                    else if |acc.entries| + |n.Entries()| <= 5_000_000 then acc.(entries := acc.entries + n.Entries())
                    else acc.(deferred := Some(CorruptData))
  {
    hide ReadString, AddPack, Meaning, StrFits, PrintStr, At, Node.Entries, Listpack.Holds, StreamPack.Holds;
    AtSplit(d, p, PrintStr(n.id), PrintStr(n.blob));
    StrReads(n.id, d, p);
    StrReads(n.blob, d, p + |PrintStr(n.id)|);
    acc2 := AddPack(acc, Meaning(n.id), Meaning(n.blob));
    if acc.deferred.None? { NodeAdds(n, acc); } else { StillWaits(acc, Meaning(n.id), Meaning(n.blob)); }
  }

  /** What reading nodes leaves: the entries so far and those of the nodes, unless that is too many or an
      earlier error is waiting. */
  ghost predicate Collects(acc: Packs, es: seq<StreamPack.StreamEntry>, r: Packs) {
    if acc.deferred.None? && |acc.entries| + |es| <= 5_000_000 then r == acc.(entries := acc.entries + es)
    else r.deferred == if acc.deferred.None? then Some(CorruptData) else acc.deferred
  }

  /** Printed nodes are consumed to their end; their entries are collected in order, and a five-million
      cap on the whole stream turns into an error that waits. */
  lemma {:induction false} NodesRead(ns: seq<Node>, acc: Packs, d: Bytes, p: nat)
    requires (forall n | n in ns :: n.Valid()) && At(d, p, PrintNodes(ns)) && |acc.entries| <= 5_000_000
    ensures p <= |d|
    ensures var r := ReadPacks(|ns|, acc, d, p);
            r.Ok? && r.pos == p + |PrintNodes(ns)| && Collects(acc, AllEntries(ns), r.value)
    decreases |ns|
  {
    hide At, Node.Entries, Node.Valid, Node.Print, ReadString, AddPack;
    TakeAt(d, p, PrintNodes(ns));
    if ns == [] {
      assert acc.entries + [] == acc.entries;
    } else {
      var n := ns[0];
      assert n.Valid();
      AtSplit(d, p, n.Print(), PrintNodes(ns[1..]));
      var acc2 := NodeReads(n, |ns| - 1, acc, d, p);
      NodesRead(ns[1..], acc2, d, p + |n.Print()|);
      assert (acc.entries + n.Entries()) + AllEntries(ns[1..]) == acc.entries + AllEntries(ns);
    }
  }

  lemma StillWaits(acc: Packs, id: Bytes, blob: Bytes)
    requires acc.deferred.Some?
    ensures AddPack(acc, id, blob) == acc
  {}

  // ----- a whole stream value -----

  /** `extra` are the first and the greatest deleted identifier and the entries ever added, from the
      second version on. */
  datatype StreamParts = StreamParts(
    nodeForm: LenForm, nodes: seq<Node>, length: Num, lastMs: Num, lastSeq: Num, extra: seq<Num>,
    groupForm: LenForm, groups: seq<Group>)
  {
    ghost predicate Valid(t: Byte) {
      && |nodes| <= MAX_ALLOC_BYTES && NodeCount().Valid() && (forall n | n in nodes :: n.Valid())
      && length.Valid() && lastMs.Valid() && lastSeq.Valid()
      && |extra| == (if t >= T_STREAM_LISTPACKS_2 then 5 else 0) && (forall x | x in extra :: x.Valid())
      && |groups| <= MAX_ALLOC_BYTES && GroupCount().Valid() && (forall g | g in groups :: g.Valid(t))
    }
    function NodeCount(): Num { Num(|nodes|, nodeForm) }
    function GroupCount(): Num { Num(|groups|, groupForm) }
    ghost function Tail(t: Byte): Bytes
      requires Valid(t)
    {
      length.Print() + (lastMs.Print() + (lastSeq.Print() + Last(t)))
    }
    ghost function Last(t: Byte): Bytes
      requires Valid(t)
    {
      PrintNums(extra) + (GroupCount().Print() + PrintGroups(t, groups))
    }
    ghost function Print(t: Byte): Bytes
      requires Valid(t)
    {
      NodeCount().Print() + (PrintNodes(nodes) + Tail(t))
    }
  }

  /** The three numbers after the nodes, and where what follows them starts. */
  lemma NumbersRead(t: Byte, s: StreamParts, d: Bytes, p: nat)
    requires s.Valid(t) && At(d, p, s.Tail(t))
    ensures var p1 := p + |s.length.Print()|; var p2 := p1 + |s.lastMs.Print()|; var p3 := p2 + |s.lastSeq.Print()|;
            && p3 <= |d| && ReadLengthValue(d, p) == Ok(s.length.n, p1)
            && ReadLengthValue(d, p1) == Ok(s.lastMs.n, p2) && ReadLengthValue(d, p2) == Ok(s.lastSeq.n, p3)
            && At(d, p3, s.Last(t)) && p3 + |s.Last(t)| == p + |s.Tail(t)|
  {
    hide ReadLengthValue, ReadCount, Num.Print, Num.Valid, At, PrintNums, PrintGroups, Node.Valid, Group.Valid;
    hide StreamParts.Last;
    SplitThree(d, p, s.length.Print(), s.lastMs.Print(), s.lastSeq.Print() + s.Last(t));
    var p1 := p + |s.length.Print()|;
    var p2 := p1 + |s.lastMs.Print()|;
    AtSplit(d, p2, s.lastSeq.Print(), s.Last(t));
    NumReads(s.length, d, p);
    NumReads(s.lastMs, d, p1);
    NumReads(s.lastSeq, d, p2);
  }

  /** The extra numbers and the consumer groups. */
  lemma {:induction false} LastReads(t: Byte, s: StreamParts, d: Bytes, p: nat)
    requires s.Valid(t) && At(d, p, s.Last(t))
    ensures var p4 := p + |PrintNums(s.extra)|; var p5 := p4 + |s.GroupCount().Print()|;
            && p5 <= |d| && SkipLengths(|s.extra|, d, p) == Ok((), p4) && ReadCount(d, p4) == Ok(|s.groups|, p5)
            && SkipGroups(t, |s.groups|, d, p5) == Ok((), p + |s.Last(t)|)
  {
    hide ReadLengthValue, ReadCount, SkipLengths, SkipGroups, Num.Print, Num.Valid, At, PrintNums, PrintGroups;
    hide Node.Valid, Group.Valid;
    SplitThree(d, p, PrintNums(s.extra), s.GroupCount().Print(), PrintGroups(t, s.groups));
    var p4 := p + |PrintNums(s.extra)|;
    NumsAt(s.extra, d, p);
    NumReads(s.GroupCount(), d, p4);
    GroupsSkipped(t, s.groups, d, p4 + |s.GroupCount().Print()|);
  }

  /** Round trip for stream values of all three versions: the entries are the live items of all nodes
      in order when the written length is their number and at most five million; any other length, and
      more, is rejected, after the whole value has been consumed. */
  lemma StreamRoundTrip(t: Byte, s: StreamParts)
    requires IsStreamType(t) && s.Valid(t)
    ensures var b, es := s.Print(t), AllEntries(s.nodes);
            ReadStream(t, b, 0) ==
            if s.length.n == |es| <= 5_000_000 then
              Ok(Stream(es, |es|, StreamPack.StreamId(s.lastMs.n, s.lastSeq.n)), |b|)
            else Fail(CorruptData, |b|)
  {
    hide ReadLengthValue, ReadCount, ReadPacks, SkipLengths, SkipGroups, Num.Print, Num.Valid, At, PrintNums;
    hide PrintNodes, PrintGroups, AllEntries, Node.Valid, Group.Valid, StreamPack.StreamId, StreamParts.Tail;
    hide StreamParts.Last;
    var b := s.Print(t);
    AtAll(b);
    SplitThree(b, 0, s.NodeCount().Print(), PrintNodes(s.nodes), s.Tail(t));
    var p1 := |s.NodeCount().Print()|;
    var p2 := p1 + |PrintNodes(s.nodes)|;
    NumReads(s.NodeCount(), b, 0);
    NodesRead(s.nodes, Packs([], None), b, p1);
    assert [] + AllEntries(s.nodes) == AllEntries(s.nodes);
    NumbersRead(t, s, b, p2);
    LastReads(t, s, b, p2 + |s.length.Print()| + |s.lastMs.Print()| + |s.lastSeq.Print()|);
  }

  lemma AtAll(b: Bytes)
    ensures At(b, 0, b)
  {}

  /** As values of a key: a printed stream. */
  lemma StreamValue(env: Env, t: Byte, s: StreamParts)
    requires IsStreamType(t) && s.Valid(t) && s.length.n == |AllEntries(s.nodes)| <= 5_000_000
    ensures ValueAlone(env, t, s.Print(t))
    ensures ValueOf(env, t, s.Print(t))
         == Stream(AllEntries(s.nodes), s.length.n, StreamPack.StreamId(s.lastMs.n, s.lastSeq.n))
    ensures StreamPack.Identifies(ValueOf(env, t, s.Print(t)).lastId, s.lastMs.n, s.lastSeq.n)
  {
    hide ReadStream, StreamParts.Print, StreamParts.Valid, AllEntries, StreamPack.StreamId, StreamPack.Identifies;
    StreamRoundTrip(t, s);
    StreamPack.IdIdentifies(s.lastMs.n, s.lastSeq.n);
  }

  // ----- module payloads -----

  /** One value of a module payload, and the form of the opcode printed before it. */
  datatype Piece =
    | Signed64(op: LenForm, raw: Num)
    | Unsigned64(op: LenForm, raw: Num)
    | Float32(op: LenForm, bytes: Bytes)
    | Float64(op: LenForm, bytes: Bytes)
    | String(op: LenForm, text: StrEnc)
  {
    function Code(): nat {
      match this
      case Signed64(_, _) => 1
      case Unsigned64(_, _) => 2
      case Float32(_, _) => 3
      case Float64(_, _) => 4
      case String(_, _) => 5
    }
    function Op(): (x: Num)
      ensures x.Valid() && x.n != 0
    {
      Num(Code(), op)
    }
    ghost predicate Valid() {
      match this
      case Signed64(_, raw) => raw.Valid()
      case Unsigned64(_, raw) => raw.Valid()
      case Float32(_, bytes) => |bytes| == 4
      case Float64(_, bytes) => |bytes| == 8
      case String(_, text) => StrFits(text)
    }
    ghost function Rest(): Bytes
      requires Valid()
    {
      match this
      case Signed64(_, raw) => raw.Print()
      case Unsigned64(_, raw) => raw.Print()
      case Float32(_, bytes) => bytes
      case Float64(_, bytes) => bytes
      case String(_, text) => PrintStr(text)
    }
    ghost function Value(env: Env): ModuleValue
      requires Valid()
    {
      match this
      case Signed64(_, raw) => SignedInt(Signed(raw.n, U64))
      case Unsigned64(_, raw) => UnsignedInt(raw.n)
      case Float32(_, bytes) => Float(env.floatOf(bytes))
      case Float64(_, bytes) => Double(env.doubleOf(bytes))
      case String(_, text) => Text(Meaning(text))
    }
  }

  ghost function Values(env: Env, ps: seq<Piece>): (vs: seq<ModuleValue>)
    requires forall p | p in ps :: p.Valid()
    ensures |vs| == |ps|
  {
    if ps == [] then [] else [ps[0].Value(env)] + Values(env, ps[1..])
  }

  ghost function PrintPieces(ps: seq<Piece>): Bytes
    requires forall p | p in ps :: p.Valid()
  {
    if ps == [] then [] else ps[0].Op().Print() + (ps[0].Rest() + PrintPieces(ps[1..]))
  }

  /** The marker after the last value. */
  function EndMark(end: LenForm): (x: Num)
    ensures x.Valid() && x.n == 0
  {
    Num(0, end)
  }

  /** No value finds the count or the string bytes already at their cap. */
  predicate WithinCaps(count: nat, stringBytes: nat, vs: seq<ModuleValue>)
    decreases |vs|
  {
    vs == [] ||
    (!OverCap(count, stringBytes, vs[0])
     && WithinCaps(count + 1, stringBytes + (if vs[0].Text? then |vs[0].s| else 0), vs[1..]))
  }

  function TextBytes(vs: seq<ModuleValue>): nat {
    if vs == [] then 0 else (if vs[0].Text? then |vs[0].s| else 0) + TextBytes(vs[1..])
  }

  /** The caps in numbers: five million values and 256 MiB of text. */
  lemma {:induction false} CapsAre(count: nat, stringBytes: nat, vs: seq<ModuleValue>)
    requires stringBytes <= 268_435_456
    ensures WithinCaps(count, stringBytes, vs)
            <==> (vs == [] || count + |vs| <= 5_000_000) && stringBytes + TextBytes(vs) <= 268_435_456
    decreases |vs|
  {
    if vs != [] {
      var more := stringBytes + if vs[0].Text? then |vs[0].s| else 0;
      if more <= 268_435_456 { CapsAre(count + 1, more, vs[1..]); }
    }
  }

  lemma PieceReads(env: Env, x: Piece, d: Bytes, p: nat)
    requires x.Valid() && At(d, p, x.Op().Print()) && At(d, p + |x.Op().Print()|, x.Rest())
    ensures var q := p + |x.Op().Print()|;
            && p <= q <= |d| && q + |x.Rest()| <= |d| && ReadLengthValue(d, p) == Ok(x.Code(), q)
            && ReadModuleValue(env, x.Code(), d, q) == Ok(x.Value(env), q + |x.Rest()|)
  {
    hide ReadLengthValue, ReadCount, ReadString, Num.Valid, Num.Print, StrFits, PrintStr, Meaning, At;
    NumReads(x.Op(), d, p);
    var q := p + |x.Op().Print()|;
    TakeAt(d, q, x.Rest());
    match x {
      case Signed64(_, raw) => NumReads(raw, d, q);
      case Unsigned64(_, raw) => NumReads(raw, d, q);
      case Float32(_, _) =>
      case Float64(_, _) =>
      case String(_, text) => StrReads(text, d, q);
    }
  }

  /** Round trip for module payloads: the values in order when they stay within the caps, corruption
      when they do not; without caps, as for auxiliary data, always the values. */
  lemma {:induction false} ModuleRoundTrip(
    env: Env, capped: bool, ps: seq<Piece>, end: LenForm, acc: seq<ModuleValue>, stringBytes: nat, d: Bytes, p: nat)
    requires (forall x | x in ps :: x.Valid()) && At(d, p, PrintPieces(ps) + EndMark(end).Print())
    ensures p <= |d|
    ensures var r := ReadModule(env, capped, acc, stringBytes, d, p);
            var vs := Values(env, ps);
            if !capped || WithinCaps(|acc|, stringBytes, vs) then
              r == Ok(acc + vs, p + |PrintPieces(ps)| + |EndMark(end).Print()|)
            else r.Fail? && r.error == CorruptData
    decreases |ps|
  {
    hide ReadLengthValue, ReadCount, ReadModuleValue, At, OverCap, Piece.Value, Piece.Valid, Piece.Rest, Piece.Op;
    hide Num.Print, Num.Valid, EndMark;
    var last := EndMark(end).Print();
    TakeAt(d, p, PrintPieces(ps) + last);
    if ps == [] {
      assert PrintPieces(ps) + last == last;
      NumReads(EndMark(end), d, p);
      assert acc + [] == acc;
    } else {
      var x, rest := ps[0], PrintPieces(ps[1..]) + last;
      assert x.Valid();
      var op := x.Op().Print();
      assert PrintPieces(ps) + last == op + (x.Rest() + rest);
      SplitThree(d, p, op, x.Rest(), rest);
      PieceReads(env, x, d, p);
      OpNotEnd(x);
      var v := x.Value(env);
      var bytes := stringBytes + if v.Text? then |v.s| else 0;
      ModuleRoundTrip(env, capped, ps[1..], end, acc + [v], bytes, d, p + |op| + |x.Rest()|);
      assert (acc + [v]) + Values(env, ps[1..]) == acc + Values(env, ps);
      assert Values(env, ps)[1..] == Values(env, ps[1..]);
    }
  }

  lemma OpNotEnd(x: Piece)
    ensures x.Code() != 0
  {}

  /** And a printed module: its name and version from the identifier, its values within the caps. */
  lemma {:induction false} ModuleValueReads(env: Env, id: Num, ps: seq<Piece>, end: LenForm)
    requires id.Valid() && (forall x | x in ps :: x.Valid())
    requires |ps| <= 5_000_000 && TextBytes(Values(env, ps)) <= 268_435_456
    ensures var b := id.Print() + (PrintPieces(ps) + EndMark(end).Print());
            && ValueAlone(env, T_MODULE_2, b)
            && ValueOf(env, T_MODULE_2, b) == Module(ModuleName(id.n), id.n % 1024, Values(env, ps))
  {
    hide ReadModule, ReadLengthValue, ReadCount, ModuleName, WithinCaps, At, Values, PrintPieces, Piece.Valid;
    hide TextBytes, Num.Print, Num.Valid, EndMark;
    var rest := PrintPieces(ps) + EndMark(end).Print();
    var b := id.Print() + rest;
    AtAll(b);
    AtSplit(b, 0, id.Print(), rest);
    NumReads(id, b, 0);
    CapsAre(0, 0, Values(env, ps));
    ModuleRoundTrip(env, true, ps, end, [], 0, b, |id.Print()|);
    assert [] + Values(env, ps) == Values(env, ps);
  }

  // ----- module names -----

  function PackDigits(ds: seq<nat>): nat {
    if ds == [] then 0 else 64 * PackDigits(ds[..|ds| - 1]) + ds[|ds| - 1]
  }

  lemma {:induction false} DigitsOfPack(ds: seq<nat>)
    requires forall i | 0 <= i < |ds| :: ds[i] < 64
    ensures NameDigits(PackDigits(ds), |ds|) == ds
  {
    if ds != [] {
      var front, last := ds[..|ds| - 1], ds[|ds| - 1];
      DigitsOfPack(front);
      assert PackDigits(ds) / 64 == PackDigits(front) && PackDigits(ds) % 64 == last;
      assert ds == front + [last];
    }
  }

  /** No two alphabet positions share a character. */
  lemma AlphabetInjective(j: nat, k: nat)
    requires j < 64 && k < 64 && NameChar(j) == NameChar(k)
    ensures j == k
  {}

  lemma NamesDiffer(ds: seq<nat>, es: seq<nat>)
    requires |ds| == |es| && forall i | 0 <= i < |ds| :: ds[i] < 64 && es[i] < 64
    requires NameChars(ds) == NameChars(es)
    ensures ds == es
  {
    hide NameChar;
    forall i | 0 <= i < |ds|
      ensures ds[i] == es[i]
    {
      assert NameChars(ds)[i] == NameChars(es)[i];
      AlphabetInjective(ds[i], es[i]);
    }
  }

  /** Nine alphabet positions and a ten-bit version packed into an identifier come apart again; the name
      tells the positions, since no two of them share a character. */
  lemma {:induction false} ModuleIdRoundTrip(ds: seq<nat>, version: nat)
    requires |ds| == 9 && (forall i | 0 <= i < 9 :: ds[i] < 64) && version < 1024
    ensures var id := PackDigits(ds) * 1024 + version; ModuleName(id) == NameChars(ds) && id % 1024 == version
    ensures forall es: seq<nat> |
              |es| == 9 && (forall i | 0 <= i < 9 :: es[i] < 64) && NameChars(es) == NameChars(ds) :: es == ds
  {
    hide *;
    DigitsOfPack(ds);
    var high := PackDigits(ds);
    LowDigit(high, version);
    NameFrom(high * 1024 + version, high, ds);
    forall es: seq<nat> | |es| == 9 && (forall i | 0 <= i < 9 :: es[i] < 64) && NameChars(es) == NameChars(ds)
      ensures es == ds
    {
      NamesDiffer(ds, es);
    }
  }

  lemma {:induction false} NameFrom(id: nat, high: nat, ds: seq<nat>)
    requires id / 1024 == high && NameDigits(high, 9) == ds && forall i | 0 <= i < |ds| :: ds[i] < 64
    ensures ModuleName(id) == NameChars(ds)
  {
    hide NameDigits, NameChars;
  }

  lemma LowDigit(high: nat, version: nat)
    requires version < 1024
    ensures (high * 1024 + version) / 1024 == high && (high * 1024 + version) % 1024 == version
  {}
}
