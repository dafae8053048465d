/**
 The stream structure inside a listpack: a header with the master fields, then one record per
 added or deleted item, with identifiers stored as differences from the master identifier.
 */
module StreamPack {
  import opened Common
  import opened Compact
  import Listpack

  const MAX_STREAM_ENTRIES: nat := 5_000_000

  datatype StreamEntry = StreamEntry(id: Bytes, fields: seq<(Bytes, Bytes)>)

  /** `format!("{ms}-{seq}")` */
  function StreamId(ms: nat, sq: nat): Bytes { Decimal(ms) + [45] + Decimal(sq) }

  function LpU64(e: CompactEntry): Result<nat> {
    if e.Int? && e.n >= 0 then Success(e.n) else Failure(CorruptData)
  }

  function LpU32(e: CompactEntry): Result<nat> {
    var v :- LpU64(e);
    if v < U32 then Success(v) else Failure(CorruptData)
  }

  // ----- the decoder as a function -----

  function PairWith(names: seq<Bytes>, vals: seq<CompactEntry>): (r: seq<(Bytes, Bytes)>)
    requires |names| == |vals|
    ensures |r| == |names|
  {
    seq(|names|, i requires 0 <= i < |names| => (names[i], vals[i].IntoBytes()))
  }

  /** Alternating field and value entries. */
  function Pairs(es: seq<CompactEntry>): (r: seq<(Bytes, Bytes)>)
    requires |es| % 2 == 0
    ensures |r| == |es| / 2
  {
    if es == [] then [] else [(es[0].IntoBytes(), es[1].IntoBytes())] + Pairs(es[2..])
  }

  datatype Parsed = Parsed(deleted: bool, entry: StreamEntry, next: nat)

  /** The field-value pairs of one record and the position after them. */
  function ParseFields(es: seq<CompactEntry>, p: nat, same: bool, names: seq<Bytes>)
      : (r: Result<(seq<(Bytes, Bytes)>, nat)>)
    requires p <= |es|
    ensures if r.Success? then p <= r.value.1 <= |es| && (!same ==> p < r.value.1) else r.error == CorruptData
  {
    if same then
      if p + |names| > |es| then Failure(CorruptData)
      else Success((PairWith(names, es[p..p + |names|]), p + |names|))
    else if p == |es| then Failure(CorruptData)
    else
      var nf :- LpU64(es[p]);
      if p + 1 + 2 * nf > |es| then Failure(CorruptData)
      else Success((Pairs(es[p + 1..p + 1 + 2 * nf]), p + 1 + 2 * nf))
  }

  function ParseItem(es: seq<CompactEntry>, p: nat, ms: nat, sq: nat, names: seq<Bytes>): (r: Result<Parsed>)
    requires p <= |es|
    ensures if r.Success? then p + 4 <= r.value.next <= |es| else r.error == CorruptData
  {
    if p + 2 >= |es| then Failure(CorruptData)
    else
      var flags :- LpU32(es[p]);
      var dms :- LpU64(es[p + 1]);
      var dsq :- LpU64(es[p + 2]);
      if ms + dms >= U64 || sq + dsq >= U64 then Failure(CorruptData)
      else
        var (fields, q) :- ParseFields(es, p + 3, flags / 2 % 2 == 1, names);
        if q == |es| then Failure(CorruptData)
        else
          var _ :- LpU64(es[q]);
          Success(Parsed(flags % 2 == 1, StreamEntry(StreamId(ms + dms, sq + dsq), fields), q + 1))
  }

  /** `n` more records from position `p`; `room` is how many live ones still fit the budget. */
  function ParseItems(es: seq<CompactEntry>, p: nat, n: nat, ms: nat, sq: nat, names: seq<Bytes>, room: nat)
      : Result<(seq<StreamEntry>, nat)>
    requires p <= |es|
    decreases n
  {
    if n == 0 then Success(([], p))
    else
      var it :- ParseItem(es, p, ms, sq, names);
      if it.deleted then ParseItems(es, it.next, n - 1, ms, sq, names, room)
      else if room == 0 then Failure(CorruptData)
      else
        var (rest, q) :- ParseItems(es, it.next, n - 1, ms, sq, names, room - 1);
        Success(([it.entry] + rest, q))
  }

  datatype Header = Header(total: nat, names: seq<Bytes>, next: nat)

  function ParseHeader(es: seq<CompactEntry>): (r: Result<Header>)
    ensures if r.Success? then r.value.next == |r.value.names| + 4 <= |es| else r.error == CorruptData
  {
    if |es| < 3 then Failure(CorruptData)
    else
      var count :- LpU64(es[0]);
      var deleted :- LpU64(es[1]);
      var nf :- LpU64(es[2]);
      if 3 + nf >= |es| || es[3 + nf] != Int(0) then Failure(CorruptData)
      else
        // `count.saturating_add(deleted)` on u64
        var total := if count + deleted < U64 then count + deleted else U64 - 1;
        Success(Header(total, IntoBytesAll(es[3..3 + nf]), 3 + nf + 1))
  }

  function Decode(es: seq<CompactEntry>, ms: nat, sq: nat, budget: nat): Result<seq<StreamEntry>> {
    var h :- ParseHeader(es);
    var (out, p) :- ParseItems(es, h.next, h.total, ms, sq, h.names, budget);
    if p != |es| then Failure(CorruptData) else Success(out)
  }

  function DecodeBlob(ms: nat, sq: nat, blob: Bytes, budget: nat): Result<seq<StreamEntry>> {
    var es :- Listpack.DecodeSpec(blob);
    Decode(es, ms, sq, budget)
  }

  // ----- the source's loops -----

  method ReadFields(es: seq<CompactEntry>, p: nat, same: bool, names: seq<Bytes>)
    returns (r: Result<(seq<(Bytes, Bytes)>, nat)>)
    requires p <= |es|
    ensures r == ParseFields(es, p, same, names)
  {
    var pos := p;
    var fv: seq<(Bytes, Bytes)> := [];
    if same {
      for k := 0 to |names|
        invariant pos == p + k <= |es|
        invariant fv == PairWith(names[..k], es[p..p + k])
      {
        if pos >= |es| { return Failure(CorruptData); }
        fv := fv + [(names[k], es[pos].IntoBytes())];
        pos := pos + 1;
      }
      assert names[..|names|] == names;
    } else {
      if pos >= |es| { return Failure(CorruptData); }
      var nf := LpU64(es[pos]);
      if nf.Failure? { return Failure(nf.error); }
      pos := pos + 1;
      for k := 0 to nf.value
        invariant pos == p + 1 + 2 * k <= |es|
        invariant fv == Pairs(es[p + 1..pos])
      {
        if pos + 1 >= |es| { return Failure(CorruptData); }
        PairsLast(es[p + 1..pos], es[pos], es[pos + 1]);
        assert es[p + 1..pos + 2] == es[p + 1..pos] + [es[pos], es[pos + 1]];
        fv := fv + [(es[pos].IntoBytes(), es[pos + 1].IntoBytes())];
        pos := pos + 2;
      }
    }
    r := Success((fv, pos));
  }

  lemma {:induction false} PairsLast(es: seq<CompactEntry>, f: CompactEntry, v: CompactEntry)
    requires |es| % 2 == 0
    ensures Pairs(es + [f, v]) == Pairs(es) + [(f.IntoBytes(), v.IntoBytes())]
  {
    var all, last := es + [f, v], [(f.IntoBytes(), v.IntoBytes())];
    if es == [] {
      assert all == [f, v];
      PairsDef([f, v]);
      assert [f, v][2..] == [];
    } else {
      PairsLast(es[2..], f, v);
      assert all[2..] == es[2..] + [f, v] && all[0] == es[0] && all[1] == es[1];
      PairsDef(es);
      PairsDef(all);
      hide Pairs;
      assert ([(es[0].IntoBytes(), es[1].IntoBytes())] + Pairs(es[2..])) + last
          == [(es[0].IntoBytes(), es[1].IntoBytes())] + (Pairs(es[2..]) + last);
    }
  }

  lemma {:induction false} PairsDef(es: seq<CompactEntry>)
    requires |es| % 2 == 0 && es != []
    ensures Pairs(es) == [(es[0].IntoBytes(), es[1].IntoBytes())] + Pairs(es[2..])
  {}

  function PrependOut(out: seq<StreamEntry>, r: Result<(seq<StreamEntry>, nat)>): Result<(seq<StreamEntry>, nat)> {
    match r
    case Success((rest, q)) => Success((out + rest, q))
    case Failure(e) => Failure(e)
  }

  lemma PrependStep(out: seq<StreamEntry>, es: seq<CompactEntry>, p: nat, n: nat, ms: nat, sq: nat,
      names: seq<Bytes>, budget: nat)
    requires p <= |es| && n > 0 && |out| <= budget
    ensures var room := budget - |out|;
            var l := PrependOut(out, ParseItems(es, p, n, ms, sq, names, room));
            match ParseItem(es, p, ms, sq, names)
            case Failure(e) => l == Failure(e)
            case Success(it) =>
              if it.deleted then l == PrependOut(out, ParseItems(es, it.next, n - 1, ms, sq, names, room))
              else if room == 0 then l == Failure(CorruptData)
              else l == PrependOut(out + [it.entry], ParseItems(es, it.next, n - 1, ms, sq, names, room - 1))
  {
    hide ParseItem;
    var room := budget - |out|;
    var it := ParseItem(es, p, ms, sq, names);
    if it.Success? && !it.value.deleted && room > 0 {
      var r := ParseItems(es, it.value.next, n - 1, ms, sq, names, room - 1);
      if r.Success? {
        assert out + ([it.value.entry] + r.value.0) == (out + [it.value.entry]) + r.value.0;
      }
    }
  }

  /** One record of the item loop. */
  method ReadItem(es: seq<CompactEntry>, p: nat, ms: nat, sq: nat, names: seq<Bytes>) returns (r: Result<Parsed>)
    requires p <= |es|
    ensures r == ParseItem(es, p, ms, sq, names)
  {
    if p + 2 >= |es| { return Failure(CorruptData); }
    var flags := LpU32(es[p]);
    if flags.Failure? { return Failure(flags.error); }
    var msDelta := LpU64(es[p + 1]);
    if msDelta.Failure? { return Failure(msDelta.error); }
    var seqDelta := LpU64(es[p + 2]);
    if seqDelta.Failure? { return Failure(seqDelta.error); }
    var entryMs, entrySeq := ms + msDelta.value, sq + seqDelta.value;
    if entryMs >= U64 { return Failure(CorruptData); }
    if entrySeq >= U64 { return Failure(CorruptData); }
    var fv := ReadFields(es, p + 3, flags.value / 2 % 2 == 1, names);
    if fv.Failure? { return Failure(fv.error); }
    var (fields, pos) := fv.value;
    if pos >= |es| { return Failure(CorruptData); }
    var lpCount := LpU64(es[pos]);
    if lpCount.Failure? { return Failure(lpCount.error); }
    r := Success(Parsed(flags.value % 2 == 1, StreamEntry(StreamId(entryMs, entrySeq), fields), pos + 1));
  }

  method DecodeStreamListpack(masterMs: nat, masterSeq: nat, lpData: Bytes, remainingBudget: nat)
    returns (r: Result<seq<StreamEntry>>)
    ensures r == DecodeBlob(masterMs, masterSeq, lpData, remainingBudget)
  {
    hide ParseItem, ParseHeader;
    var decoded := Listpack.Decode(lpData);
    if decoded.Failure? { return Failure(decoded.error); }
    var es := decoded.value;
    var header := ParseHeader(es);
    if header.Failure? { return Failure(header.error); }
    var h := header.value;
    var pos: nat := h.next;
    var entries: seq<StreamEntry> := [];
    ghost var goal := ParseItems(es, pos, h.total, masterMs, masterSeq, h.names, remainingBudget);
    assert goal.Success? ==> [] + goal.value.0 == goal.value.0;
    hide ParseItems;
    for k := 0 to h.total
      invariant 0 <= k <= h.total && pos <= |es| && |entries| <= remainingBudget
      invariant goal == PrependOut(entries,
                ParseItems(es, pos, h.total - k, masterMs, masterSeq, h.names, remainingBudget - |entries|))
    {
      PrependStep(entries, es, pos, h.total - k, masterMs, masterSeq, h.names, remainingBudget);
      var item := ReadItem(es, pos, masterMs, masterSeq, h.names);
      if item.Failure? { return Failure(item.error); }
      pos := item.value.next;
      if !item.value.deleted {
        if |entries| >= remainingBudget { return Failure(CorruptData); }
        entries := entries + [item.value.entry];
      }
    }
    ParseNone(entries, es, pos, masterMs, masterSeq, h.names, remainingBudget - |entries|);
    r := if pos != |es| then Failure(CorruptData) else Success(entries);
  }

  lemma {:induction false} ParseNone(out: seq<StreamEntry>, es: seq<CompactEntry>, p: nat, ms: nat, sq: nat,
      names: seq<Bytes>, room: nat)
    requires p <= |es|
    ensures PrependOut(out, ParseItems(es, p, 0, ms, sq, names, room)) == Success((out, p))
  {
    assert out + [] == out;
  }

  // ----- layouts -----

  /** One record as the server writes it. `Same` reuses the master field names. */
  datatype Item =
    | Same(flags: nat, dms: nat, dsq: nat, vals: seq<CompactEntry>, lpCount: nat)
    | Own(flags: nat, dms: nat, dsq: nat, pairs: seq<CompactEntry>, lpCount: nat)
  {
    predicate Deleted() { flags % 2 == 1 }

    predicate Valid(ms: nat, sq: nat, names: seq<Bytes>) {
      && flags < U32 && ms + dms < U64 && sq + dsq < U64
      && (flags / 2 % 2 == 1 <==> Same?)
      && if Same? then |vals| == |names| else |pairs| % 2 == 0
    }

    function Stored(): (es: seq<CompactEntry>)
      ensures |es| >= 4
    {
      [Int(flags), Int(dms), Int(dsq)]
      + (if Same? then vals else [Int(|pairs| / 2)] + pairs)
      + [Int(lpCount)]
    }

    function Entry(ms: nat, sq: nat, names: seq<Bytes>): StreamEntry
      requires Valid(ms, sq, names)
    {
      StreamEntry(StreamId(ms + dms, sq + dsq), if Same? then PairWith(names, vals) else Pairs(pairs))
    }
  }

  predicate ValidItems(items: seq<Item>, ms: nat, sq: nat, names: seq<Bytes>) {
    forall it | it in items :: it.Valid(ms, sq, names)
  }

  function StoredAll(items: seq<Item>): seq<CompactEntry> {
    if items == [] then [] else items[0].Stored() + StoredAll(items[1..])
  }

  /** The entries of the live items, in order. */
  function Live(items: seq<Item>, ms: nat, sq: nat, names: seq<Bytes>): seq<StreamEntry>
    requires ValidItems(items, ms, sq, names)
  {
    if items == [] then []
    else (if items[0].Deleted() then [] else [items[0].Entry(ms, sq, names)]) + Live(items[1..], ms, sq, names)
  }

  function StoredHeader(count: nat, deleted: nat, fields: seq<CompactEntry>): seq<CompactEntry> {
    [Int(count), Int(deleted), Int(|fields|)] + fields + [Int(0)]
  }

  ghost predicate Holds(es: seq<CompactEntry>, count: nat, deleted: nat, fields: seq<CompactEntry>, items: seq<Item>,
      ms: nat, sq: nat) {
    && ValidItems(items, ms, sq, IntoBytesAll(fields))
    && count + deleted == |items|
    && es == StoredHeader(count, deleted, fields) + StoredAll(items)
  }

  /** `part` occurs in `es` at `p`. */
  predicate Occurs(es: seq<CompactEntry>, p: nat, part: seq<CompactEntry>) {
    p + |part| <= |es| && es[p..p + |part|] == part
  }

  lemma OccursSplit(es: seq<CompactEntry>, p: nat, a: seq<CompactEntry>, b: seq<CompactEntry>)
    ensures Occurs(es, p, a + b) <==> Occurs(es, p, a) && Occurs(es, p + |a|, b)
  {
    if Occurs(es, p, a + b) {
      assert es[p..p + |a|] == (a + b)[..|a|];
      assert es[p + |a|..p + |a| + |b|] == (a + b)[|a|..];
    }
    if Occurs(es, p, a) && Occurs(es, p + |a|, b) {
      assert es[p..p + |a| + |b|] == es[p..p + |a|] + es[p + |a|..p + |a| + |b|];
    }
  }

  /** The elements between an item's identifier and its back-length element. */
  function Middle(it: Item): (es: seq<CompactEntry>)
    ensures it.Stored() == [Int(it.flags), Int(it.dms), Int(it.dsq)] + es + [Int(it.lpCount)]
  {
    if it.Same? then it.vals else [Int(|it.pairs| / 2)] + it.pairs
  }

  lemma StoredPlaces(es: seq<CompactEntry>, p: nat, it: Item)
    requires Occurs(es, p, it.Stored())
    ensures var q := p + 3 + |Middle(it)|;
            && q < |es| && q + 1 == p + |it.Stored()| && Occurs(es, p + 3, Middle(it))
            && es[p] == Int(it.flags) && es[p + 1] == Int(it.dms) && es[p + 2] == Int(it.dsq)
            && es[q] == Int(it.lpCount)
  {
    var head := [Int(it.flags), Int(it.dms), Int(it.dsq)];
    hide Item.Stored, Middle;
    OccursSplit(es, p, head + Middle(it), [Int(it.lpCount)]);
    OccursSplit(es, p, head, Middle(it));
    assert es[p] == es[p..p + 3][0] && es[p + 1] == es[p..p + 3][1] && es[p + 2] == es[p..p + 3][2];
    var q := p + 3 + |Middle(it)|;
    assert es[q] == es[q..q + 1][0];
  }

  lemma StoredFields(es: seq<CompactEntry>, p: nat, it: Item, names: seq<Bytes>)
    requires Occurs(es, p, Middle(it)) && (if it.Same? then |it.vals| == |names| else |it.pairs| % 2 == 0)
    ensures ParseFields(es, p, it.Same?, names)
         == Success((if it.Same? then PairWith(names, it.vals) else Pairs(it.pairs), p + |Middle(it)|))
  {
    hide PairWith, Pairs;
    if it.Own? {
      OccursSplit(es, p, [Int(|it.pairs| / 2)], it.pairs);
      assert es[p] == es[p..p + 1][0];
    }
  }

  lemma StoredParses(es: seq<CompactEntry>, p: nat, it: Item, ms: nat, sq: nat, names: seq<Bytes>)
    requires it.Valid(ms, sq, names) && Occurs(es, p, it.Stored())
    ensures ParseItem(es, p, ms, sq, names) == Success(Parsed(it.Deleted(), it.Entry(ms, sq, names), p + |it.Stored()|))
  {
    hide StreamId, PairWith, Pairs, ParseFields, Occurs, Item.Stored, Middle;
    StoredPlaces(es, p, it);
    StoredFields(es, p + 3, it, names);
  }

  lemma {:induction false} ItemsParse(es: seq<CompactEntry>, p: nat, items: seq<Item>, ms: nat, sq: nat,
      names: seq<Bytes>, room: nat)
    requires ValidItems(items, ms, sq, names) && Occurs(es, p, StoredAll(items))
    ensures var live := Live(items, ms, sq, names);
            ParseItems(es, p, |items|, ms, sq, names, room)
            == if |live| <= room then Success((live, p + |StoredAll(items)|)) else Failure(CorruptData)
    decreases |items|
  {
    hide ParseItem, Item.Stored, Item.Entry, Item.Valid, Item.Deleted;
    if items != [] {
      var it := items[0];
      assert it.Valid(ms, sq, names);
      OccursSplit(es, p, it.Stored(), StoredAll(items[1..]));
      StoredParses(es, p, it, ms, sq, names);
      if it.Deleted() {
        ItemsParse(es, p + |it.Stored()|, items[1..], ms, sq, names, room);
        assert Live(items, ms, sq, names) == Live(items[1..], ms, sq, names);
      } else if room > 0 {
        ItemsParse(es, p + |it.Stored()|, items[1..], ms, sq, names, room - 1);
      } else {
        assert |Live(items, ms, sq, names)| >= 1;
      }
    }
  }

  function ItemAt(es: seq<CompactEntry>, p: nat, q: nat): Item
    requires p + 4 <= q <= |es| && es[p].Int? && es[p + 1].Int? && es[p + 2].Int? && es[q - 1].Int?
    requires es[p].n / 2 % 2 == 1 || p + 5 <= q
    requires es[p].n >= 0 && es[p + 1].n >= 0 && es[p + 2].n >= 0 && es[q - 1].n >= 0
  {
    if es[p].n / 2 % 2 == 1 then Same(es[p].n, es[p + 1].n, es[p + 2].n, es[p + 3..q - 1], es[q - 1].n)
    else Own(es[p].n, es[p + 1].n, es[p + 2].n, es[p + 4..q - 1], es[q - 1].n)
  }

  lemma ParsedItem(es: seq<CompactEntry>, p: nat, ms: nat, sq: nat, names: seq<Bytes>) returns (it: Item)
    requires p <= |es| && ParseItem(es, p, ms, sq, names).Success?
    ensures it.Valid(ms, sq, names)
    ensures var r := ParseItem(es, p, ms, sq, names).value;
            && r == Parsed(it.Deleted(), it.Entry(ms, sq, names), r.next)
            && es[p..r.next] == it.Stored()
  {
    hide StreamId, PairWith, Pairs, ParseFields, Item.Stored;
    var q := ParseItem(es, p, ms, sq, names).value.next;
    ParsedFields(es, p + 3, es[p].n / 2 % 2 == 1, names);
    it := ItemAt(es, p, q);
    ItemAtStored(es, p, q);
  }

  lemma ParsedFields(es: seq<CompactEntry>, p: nat, same: bool, names: seq<Bytes>)
    requires p <= |es| && ParseFields(es, p, same, names).Success?
    ensures var (fields, q) := ParseFields(es, p, same, names).value;
            if same then q == p + |names| && fields == PairWith(names, es[p..q])
            else p < q && es[p] == Int((q - 1 - p) / 2) && (q - 1 - p) % 2 == 0 && fields == Pairs(es[p + 1..q])
  {
    hide PairWith, Pairs;
  }

  lemma ItemAtStored(es: seq<CompactEntry>, p: nat, q: nat)
    requires p + 4 <= q <= |es| && es[p].Int? && es[p + 1].Int? && es[p + 2].Int? && es[q - 1].Int?
    requires es[p].n >= 0 && es[p + 1].n >= 0 && es[p + 2].n >= 0 && es[q - 1].n >= 0
    requires es[p].n / 2 % 2 == 1 || (p + 5 <= q && es[p + 3] == Int((q - p - 5) / 2))
    ensures ItemAt(es, p, q).Stored() == es[p..q]
  {
    var it := ItemAt(es, p, q);
    var head := es[p..p + 3];
    assert head == [Int(it.flags), Int(it.dms), Int(it.dsq)];
    if it.Own? { assert es[p + 3..q - 1] == [es[p + 3]] + es[p + 4..q - 1]; }
    assert Middle(it) == es[p + 3..q - 1];
    hide Item.Stored, Middle, ItemAt;
    assert es[p..q] == head + es[p + 3..q - 1] + [es[q - 1]];
  }

  lemma {:induction false} ParsedItems(es: seq<CompactEntry>, p: nat, n: nat, ms: nat, sq: nat, names: seq<Bytes>,
      room: nat)
      returns (items: seq<Item>)
    requires p <= |es| && ParseItems(es, p, n, ms, sq, names, room).Success?
    ensures |items| == n && ValidItems(items, ms, sq, names)
    ensures var (out, q) := ParseItems(es, p, n, ms, sq, names, room).value;
            && p + 4 * n <= q <= |es| && es[p..q] == StoredAll(items)
            && out == Live(items, ms, sq, names) && |out| <= room
    decreases n
  {
    hide ParseItem, Item.Valid, Item.Entry, Item.Stored, Item.Deleted;
    if n == 0 {
      items := [];
    } else {
      var r := ParseItem(es, p, ms, sq, names).value;
      var it := ParsedItem(es, p, ms, sq, names);
      var rest := ParsedItems(es, r.next, n - 1, ms, sq, names, if r.deleted then room else room - 1);
      items := [it] + rest;
      FirstItem(it, rest, ms, sq, names);
      var q := ParseItems(es, p, n, ms, sq, names, room).value.1;
      assert es[p..q] == es[p..r.next] + es[r.next..q];
    }
  }

  lemma {:induction false} FirstItem(it: Item, rest: seq<Item>, ms: nat, sq: nat, names: seq<Bytes>)
    requires it.Valid(ms, sq, names) && ValidItems(rest, ms, sq, names)
    ensures var all := [it] + rest;
            && ValidItems(all, ms, sq, names)
            && StoredAll(all) == it.Stored() + StoredAll(rest)
            && Live(all, ms, sq, names)
               == (if it.Deleted() then [] else [it.Entry(ms, sq, names)]) + Live(rest, ms, sq, names)
  {
    hide Item.Valid, Item.Entry, Item.Stored, Item.Deleted;
    assert ([it] + rest)[1..] == rest;
  }

  lemma HeaderParses(es: seq<CompactEntry>, count: nat, deleted: nat, fields: seq<CompactEntry>)
    requires Occurs(es, 0, StoredHeader(count, deleted, fields)) && count + deleted < U64
    ensures ParseHeader(es) == Success(Header(count + deleted, IntoBytesAll(fields), |fields| + 4))
  {
    hide CompactEntry.IntoBytes;
    var head := [Int(count), Int(deleted), Int(|fields|)];
    OccursSplit(es, 0, head + fields, [Int(0)]);
    OccursSplit(es, 0, head, fields);
    assert es[0] == es[0..3][0] && es[1] == es[0..3][1] && es[2] == es[0..3][2];
    var q := 3 + |fields|;
    assert es[q] == es[q..q + 1][0];
  }

  /** The header a successful parse read, for counts within the signed range of an entry. */
  lemma ParsedHeader(es: seq<CompactEntry>) returns (count: nat, deleted: nat, fields: seq<CompactEntry>)
    requires ParseHeader(es).Success? && ParseHeader(es).value.total <= |es|
    requires |es| < U64 - 1
    ensures ParseHeader(es) == Success(Header(count + deleted, IntoBytesAll(fields), |fields| + 4))
    ensures es[..|fields| + 4] == StoredHeader(count, deleted, fields)
  {
    hide CompactEntry.IntoBytes;
    count, deleted := es[0].n, es[1].n;
    fields := es[3..3 + es[2].n];
    assert es[..|fields| + 4] == [es[0], es[1], es[2]] + fields + [es[3 + |fields|]];
  }

  /** Round trip: the stored form of any items decodes to exactly its live ones, in order, with
      the identifiers and names they were given, when they fit the budget; else it is rejected. */
  lemma {:induction false} RoundTrip(es: seq<CompactEntry>, count: nat, deleted: nat, fields: seq<CompactEntry>,
      items: seq<Item>, ms: nat, sq: nat, budget: nat)
    requires Holds(es, count, deleted, fields, items, ms, sq) && |items| < U64
    ensures var live := Live(items, ms, sq, IntoBytesAll(fields));
            Decode(es, ms, sq, budget) == if |live| <= budget then Success(live) else Failure(CorruptData)
  {
    hide ParseHeader, ParseItems;
    var h := StoredHeader(count, deleted, fields);
    assert es[0..|es|] == h + StoredAll(items);
    OccursSplit(es, 0, h, StoredAll(items));
    HeaderParses(es, count, deleted, fields);
    ItemsParse(es, |h|, items, ms, sq, IntoBytesAll(fields), budget);
  }

  /** Converse: whatever decodes is such a stored form, with no entry left over; so four entries
      per record, the names and the header always fit, and the budget is respected. */
  lemma AcceptsOnlyLayouts(es: seq<CompactEntry>, ms: nat, sq: nat, budget: nat)
      returns (count: nat, deleted: nat, fields: seq<CompactEntry>, items: seq<Item>)
    requires Decode(es, ms, sq, budget).Success? && |es| < U64 - 1
    ensures Holds(es, count, deleted, fields, items, ms, sq)
    ensures Decode(es, ms, sq, budget) == Success(Live(items, ms, sq, IntoBytesAll(fields)))
    ensures |Live(items, ms, sq, IntoBytesAll(fields))| <= budget
    ensures 4 * (count + deleted) + |fields| + 4 <= |es|
  {
    hide ParseHeader, ParseItems, StoredHeader, StoredAll, Live, ValidItems, IntoBytesAll;
    var h := ParseHeader(es).value;
    items := ParsedItems(es, h.next, h.total, ms, sq, h.names, budget);
    count, deleted, fields := ParsedHeader(es);
    assert es == es[..h.next] + es[h.next..];
  }

  // ----- what the decoded entries say -----

  /** `id` is written milliseconds first, a minus sign, and the sequence number. */
  ghost predicate Identifies(id: Bytes, ms: nat, sq: nat) {
    exists k :: 0 <= k < |id| && Writes(id[..k], ms) && id[k] == 45 && Writes(id[k + 1..], sq)
  }

  lemma IdIdentifies(ms: nat, sq: nat)
    ensures Identifies(StreamId(ms, sq), ms, sq)
  {
    DecimalWrites(ms);
    DecimalWrites(sq);
    var id, k := StreamId(ms, sq), |Decimal(ms)|;
    assert id[..k] == Decimal(ms) && id[k] == 45 && id[k + 1..] == Decimal(sq);
  }

  function LiveItems(items: seq<Item>): (live: seq<Item>)
    ensures forall it | it in live :: it in items
  {
    if items == [] then []
    else (if items[0].flags % 2 == 0 then [items[0]] else []) + LiveItems(items[1..])
  }

  /** The fields of a record: its own pairs, or its values under the master names. */
  ghost predicate FieldsSay(fields: seq<(Bytes, Bytes)>, it: Item, master: seq<CompactEntry>)
    requires if it.Same? then |it.vals| == |master| else |it.pairs| % 2 == 0
  {
    if it.Same? then
      |fields| == |master|
      && forall j | 0 <= j < |fields| :: Says(master[j], fields[j].0) && Says(it.vals[j], fields[j].1)
    else
      |fields| == |it.pairs| / 2
      && forall j | 0 <= j < |fields| :: Says(it.pairs[2 * j], fields[j].0) && Says(it.pairs[2 * j + 1], fields[j].1)
  }

  lemma {:induction false} PairsSay(es: seq<CompactEntry>)
    requires |es| % 2 == 0
    ensures var r := Pairs(es);
            forall j | 0 <= j < |r| :: Says(es[2 * j], r[j].0) && Says(es[2 * j + 1], r[j].1)
  {
    hide Says;
    if es != [] {
      PairsDef(es);
      PairsSay(es[2..]);
      IntoBytesSays(es[0]);
      IntoBytesSays(es[1]);
      var r, rest := Pairs(es), Pairs(es[2..]);
      forall j | 0 <= j < |r| ensures Says(es[2 * j], r[j].0) && Says(es[2 * j + 1], r[j].1) {
        if j > 0 {
          assert r[j] == rest[j - 1] && es[2 * j] == es[2..][2 * (j - 1)];
          assert es[2 * j + 1] == es[2..][2 * (j - 1) + 1];
        }
      }
    }
  }

  /** `x` is what a record says: its identifier under the master's, and its fields. */
  ghost predicate EntrySays(x: StreamEntry, it: Item, ms: nat, sq: nat, master: seq<CompactEntry>) {
    && it.Valid(ms, sq, IntoBytesAll(master))
    && Identifies(x.id, ms + it.dms, sq + it.dsq) && FieldsSay(x.fields, it, master)
  }

  lemma MeantSays(it: Item, ms: nat, sq: nat, master: seq<CompactEntry>)
    requires it.Valid(ms, sq, IntoBytesAll(master))
    ensures EntrySays(it.Entry(ms, sq, IntoBytesAll(master)), it, ms, sq, master)
  {
    hide Says, Identifies, StreamId, Pairs, CompactEntry.IntoBytes;
    IdIdentifies(ms + it.dms, sq + it.dsq);
    if it.Same? {
      forall j | 0 <= j < |master| ensures Says(master[j], IntoBytesAll(master)[j]) {
        IntoBytesSays(master[j]);
      }
      forall j | 0 <= j < |it.vals| ensures Says(it.vals[j], it.vals[j].IntoBytes()) {
        IntoBytesSays(it.vals[j]);
      }
    } else {
      PairsSay(it.pairs);
    }
  }

  ghost predicate EntriesSay(out: seq<StreamEntry>, live: seq<Item>, ms: nat, sq: nat, master: seq<CompactEntry>) {
    |out| == |live| && forall i | 0 <= i < |live| :: EntrySays(out[i], live[i], ms, sq, master)
  }

  lemma {:induction false} LiveSay(items: seq<Item>, ms: nat, sq: nat, master: seq<CompactEntry>)
    requires ValidItems(items, ms, sq, IntoBytesAll(master))
    ensures EntriesSay(Live(items, ms, sq, IntoBytesAll(master)), LiveItems(items), ms, sq, master)
    decreases |items|
  {
    hide EntrySays, Item.Valid, Item.Entry, IntoBytesAll;
    if items != [] {
      LiveSay(items[1..], ms, sq, master);
      assert items[0].Valid(ms, sq, IntoBytesAll(master));
      MeantSays(items[0], ms, sq, master);
    }
  }

  /** What a stored listpack of items decodes to, entry by entry: the records without the deleted flag, in
      order, each with the master numbers and its own added up and written out, and its fields as written. */
  lemma {:induction false} DecodedSays(es: seq<CompactEntry>, count: nat, deleted: nat, fields: seq<CompactEntry>,
      items: seq<Item>, ms: nat, sq: nat, budget: nat)
    requires Holds(es, count, deleted, fields, items, ms, sq) && |items| < U64 && |LiveItems(items)| <= budget
    ensures var r := Decode(es, ms, sq, budget);
            r.Success? && EntriesSay(r.value, LiveItems(items), ms, sq, fields)
  {
    hide Decode, EntrySays, IntoBytesAll;
    RoundTrip(es, count, deleted, fields, items, ms, sq, budget);
    LiveSay(items, ms, sq, fields);
  }

  lemma {:induction false} RoomKept(es: seq<CompactEntry>, p: nat, n: nat, ms: nat, sq: nat, names: seq<Bytes>,
      room: nat)
    requires p <= |es| && ParseItems(es, p, n, ms, sq, names, room).Success?
    ensures |ParseItems(es, p, n, ms, sq, names, room).value.0| <= room
    decreases n
  {
    hide ParseItem;
    if n > 0 {
      var it := ParseItem(es, p, ms, sq, names).value;
      RoomKept(es, it.next, n - 1, ms, sq, names, if it.deleted then room else room - 1);
    }
  }

  /** No blob yields more entries than the caller still has room for. */
  lemma BudgetKept(ms: nat, sq: nat, blob: Bytes, budget: nat)
    requires DecodeBlob(ms, sq, blob, budget).Success?
    ensures |DecodeBlob(ms, sq, blob, budget).value| <= budget
  {
    hide ParseHeader, ParseItems;
    var es := Listpack.DecodeSpec(blob).value;
    var h := ParseHeader(es).value;
    RoomKept(es, h.next, h.total, ms, sq, h.names, budget);
  }
}
