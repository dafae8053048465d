/** Entry filters, and why filtering by type before the batcher loses nothing the output keeps. */
module Filter {
  import opened Common
  import opened Types
  import opened Schema
  import opened Builders
  import opened Batcher
  import Machine
  import Routing

  /** `keys` stands for the glob pattern applied to the key as text. */
  datatype EntryFilter = EntryFilter(
    db: Option<nat>, tags: Option<set<TypeTag>>, keys: Option<Bytes -> bool>, geo: bool)

  predicate MatchesAnyType(f: EntryFilter, e: RdbEntry, tags: set<TypeTag>) {
    var primary := TypeTagFor(e);
    primary in tags || (f.geo && primary == ZSetTag && GeoTag in tags && IsGeoEntry(e))
  }

  predicate Matches(f: EntryFilter, e: RdbEntry) {
    && (f.db.Some? ==> e.db == f.db.value)
    && (f.tags.Some? ==> MatchesAnyType(f, e, f.tags.value))
    && (f.keys.Some? ==> f.keys.value(e.key))
  }

  /** The items that pass: matching entries, and every error. */
  function Filtered(f: EntryFilter, items: seq<Machine.Item>): seq<Machine.Item> {
    if items == [] then []
    else (if items[0].Got? && !Matches(f, items[0].entry) then [] else [items[0]]) + Filtered(f, items[1..])
  }

  /** An entry passes when it is in the wanted database, goes to a wanted table, and has a wanted key. */
  ghost predicate Passes(f: EntryFilter, e: RdbEntry) {
    && (f.db == None || f.db == Some(e.db))
    && (f.tags == None || exists t :: t in f.tags.value && Routing.GoesTo(f.geo, t, e))
    && (f.keys == None || f.keys.value(e.key))
  }

  lemma MatchesPass(f: EntryFilter, e: RdbEntry)
    ensures Matches(f, e) <==> Passes(f, e)
  {
    hide Routing.GoesTo, TypeTagFor, IsGeoEntry;
    forall t | f.tags.Some? && t in f.tags.value
      ensures t == TypeTagFor(e) || (t == GeoTag && ShouldEmitGeo(f.geo, TypeTagFor(e), e))
              <==> Routing.GoesTo(f.geo, t, e)
    {
      Routing.FiledUnder(f.geo, t, e);
    }
  }

  ghost predicate ItemPasses(f: EntryFilter, x: Machine.Item) { x.Got? ==> Passes(f, x.entry) }

  function Later(at: seq<nat>): (r: seq<nat>)
    ensures |r| == |at| && forall i | 0 <= i < |at| :: r[i] == at[i] + 1
  {
    seq(|at|, i requires 0 <= i < |at| => at[i] + 1)
  }

  lemma LaterHas(at: seq<nat>, k: nat)
    ensures k in Later(at) <==> k > 0 && k - 1 in at
  {
    if k > 0 && k - 1 in at {
      var i :| 0 <= i < |at| && at[i] == k - 1;
      assert Later(at)[i] == k;
    }
  }

  /** Where the passing entries are, and every error. */
  ghost function Places(f: EntryFilter, items: seq<Machine.Item>): seq<nat> {
    if items == [] then [] else (if ItemPasses(f, items[0]) then [0] else []) + Later(Places(f, items[1..]))
  }

  lemma {:induction false} PlacesPass(f: EntryFilter, items: seq<Machine.Item>, k: nat)
    ensures k in Places(f, items) <==> k < |items| && ItemPasses(f, items[k])
    decreases |items|
  {
    hide ItemPasses, Later;
    if items != [] {
      LaterHas(Places(f, items[1..]), k);
      if k > 0 { PlacesPass(f, items[1..], k - 1); }
    }
  }

  lemma {:induction false} PlacesRise(f: EntryFilter, items: seq<Machine.Item>)
    ensures forall i, j | 0 <= i < j < |Places(f, items)| :: Places(f, items)[i] < Places(f, items)[j]
    decreases |items|
  {
    hide ItemPasses;
    if items != [] { PlacesRise(f, items[1..]); }
  }

  /** The filtered items are, in order and each once, those at these places. */
  lemma {:induction false} FilteredAt(f: EntryFilter, items: seq<Machine.Item>)
    ensures var at := Places(f, items);
            && |Filtered(f, items)| == |at|
            && (forall k :: k in at <==> 0 <= k < |items| && (items[k].Got? ==> Passes(f, items[k].entry)))
            && (forall i, j | 0 <= i < j < |at| :: at[i] < at[j])
            && forall i | 0 <= i < |at| :: at[i] in at && Filtered(f, items)[i] == items[at[i]]
  {
    hide Passes, Matches, Filtered, Places;
    PlacesRise(f, items);
    forall k: nat ensures k in Places(f, items) <==> k < |items| && ItemPasses(f, items[k]) { PlacesPass(f, items, k); }
    FilteredThere(f, items);
  }

  lemma {:induction false} FilteredThere(f: EntryFilter, items: seq<Machine.Item>)
    ensures var at := Places(f, items);
            && |Filtered(f, items)| == |at|
            && forall i | 0 <= i < |at| :: at[i] < |items| && Filtered(f, items)[i] == items[at[i]]
    decreases |items|
  {
    hide Passes, Matches;
    if items != [] {
      FilteredThere(f, items[1..]);
      if items[0].Got? { MatchesPass(f, items[0].entry); }
    }
  }

  /** Of the items before a call, those in front of the answer do not pass, and those behind it are left. */
  ghost predicate Taken(f: EntryFilter, before: seq<Machine.Item>, after: seq<Machine.Item>, r: Option<Machine.Item>) {
    if r.None? then after == [] && forall i | 0 <= i < |before| :: !ItemPasses(f, before[i])
    else
      exists n :: 0 <= n < |before| && before[n] == r.value && ItemPasses(f, before[n]) && after == before[n + 1..]
                  && forall i | 0 <= i < n :: !ItemPasses(f, before[i])
  }

  lemma {:induction false} FirstPasses(f: EntryFilter, items: seq<Machine.Item>)
    requires items != []
    ensures ItemPasses(f, items[0]) <==> items[0].Err? || Matches(f, items[0].entry)
    ensures Filtered(f, items) == (if ItemPasses(f, items[0]) then [items[0]] else []) + Filtered(f, items[1..])
  {
    hide Matches, Passes;
    if items[0].Got? { MatchesPass(f, items[0].entry); }
  }

  lemma {:induction false} NonePass(f: EntryFilter)
    ensures Filtered(f, []) == []
  {}

  class FilteredEntries {
    var inner: seq<Machine.Item>
    const filter: EntryFilter

    constructor (items: seq<Machine.Item>, f: EntryFilter)
      ensures inner == items && filter == f
    {
      inner, filter := items, f;
    }

    /** The next item that passes the filter: those before it do not, those after it are left. */
    method Next() returns (r: Option<Machine.Item>)
      modifies this
      ensures Taken(filter, old(inner), inner, r)
      ensures var passing := old(Filtered(filter, inner));
              if passing == [] then r.None? && inner == []
              else r == Some(passing[0]) && Filtered(filter, inner) == passing[1..]
    {
      hide Matches, ItemPasses, Filtered;
      ghost var before := inner;
      ghost var n := 0;
      while inner != []
        invariant n <= |before| && inner == before[n..]
        invariant forall i | 0 <= i < n :: !ItemPasses(filter, before[i])
        invariant Filtered(filter, inner) == Filtered(filter, before)
        decreases |inner|
      {
        var item := inner[0];
        FirstPasses(filter, inner);
        inner := inner[1..];
        if item.Got? {
          if Matches(filter, item.entry) { return Some(item); }
        } else {
          return Some(item);
        }
        n := n + 1;
      }
      NonePass(filter);
      r := None;
    }
  }

  // ----- keeping the wanted batches -----

  function KeepBatches(tags: set<TypeTag>, out: seq<Batch>): seq<Batch> {
    if out == [] then [] else (if out[0].tag in tags then [out[0]] else []) + KeepBatches(tags, out[1..])
  }

  /** The output filter: batches of the wanted tags, and every error. */
  function Keep(tags: set<TypeTag>, ys: seq<ArrowResult<Batch>>): seq<ArrowResult<Batch>> {
    if ys == [] then []
    else (if ys[0].Fine? && ys[0].value.tag !in tags then [] else [ys[0]]) + Keep(tags, ys[1..])
  }

  lemma {:induction false} KeepAppend(tags: set<TypeTag>, a: seq<ArrowResult<Batch>>, b: seq<ArrowResult<Batch>>)
    ensures Keep(tags, a + b) == Keep(tags, a) + Keep(tags, b)
  {
    if a == [] {
      assert a + b == b;
    } else {
      assert (a + b)[1..] == a[1..] + b && (a + b)[0] == a[0];
      KeepAppend(tags, a[1..], b);
      var head := if a[0].Fine? && a[0].value.tag !in tags then [] else [a[0]];
      Regroup(head, Keep(tags, a[1..]), Keep(tags, b));
    }
  }

  lemma {:induction false} KeepBatchesAppend(tags: set<TypeTag>, a: seq<Batch>, b: seq<Batch>)
    ensures KeepBatches(tags, a + b) == KeepBatches(tags, a) + KeepBatches(tags, b)
  {
    if a == [] {
      assert a + b == b;
    } else {
      assert (a + b)[1..] == a[1..] + b && (a + b)[0] == a[0];
      KeepBatchesAppend(tags, a[1..], b);
      var head := if a[0].tag in tags then [a[0]] else [];
      Regroup(head, KeepBatches(tags, a[1..]), KeepBatches(tags, b));
    }
  }

  lemma {:induction false} KeepFines(tags: set<TypeTag>, out: seq<Batch>)
    ensures Keep(tags, Fines(out)) == Fines(KeepBatches(tags, out))
  {
    if out != [] {
      KeepFines(tags, out[1..]);
      assert Fines(out)[1..] == Fines(out[1..]);
    }
  }

  // ----- builders of other tags do not matter -----

  ghost predicate AgreeOn(tags: set<TypeTag>, a: Buffers, b: Buffers) {
    forall t :: t in tags ==> Get(a, t) == Get(b, t)
  }

  ghost predicate SameKept(tags: set<TypeTag>, a: Emitted, b: Emitted) {
    AgreeOn(tags, a.buf, b.buf) && KeepBatches(tags, a.out) == KeepBatches(tags, b.out)
  }

  lemma PutAgrees(tags: set<TypeTag>, a: Buffers, b: Buffers, t: TypeTag, x: seq<Row>, y: seq<Row>)
    requires AgreeOn(tags, a, b) && (t in tags ==> x == y)
    ensures AgreeOn(tags, Put(a, t, x), Put(b, t, y))
  {
    hide Get, Put;
    forall s | s in tags
      ensures Get(Put(a, t, x), s) == Get(Put(b, t, y), s)
    {
      GetPut(a, t, x, s);
      GetPut(b, t, y, s);
    }
  }

  lemma PutOther(tags: set<TypeTag>, a: Buffers, b: Buffers, t: TypeTag, y: seq<Row>)
    requires AgreeOn(tags, a, b) && t !in tags
    ensures AgreeOn(tags, a, Put(b, t, y))
  {
    hide Get, Put;
    forall s | s in tags
      ensures Get(a, s) == Get(Put(b, t, y), s)
    {
      GetPut(b, t, y, s);
    }
  }

  lemma {:induction false} KeepOne(tags: set<TypeTag>, b: Batch)
    ensures KeepBatches(tags, [b]) == if b.tag in tags then [b] else []
    ensures KeepBatches(tags, []) == []
  {
    assert [b][1..] == [];
  }

  lemma FlushTagAgrees(tags: set<TypeTag>, t: TypeTag, a: Buffers, b: Buffers)
    requires AgreeOn(tags, a, b)
    ensures SameKept(tags, FlushTag(t, a), FlushTag(t, b))
    ensures t !in tags ==> SameKept(tags, Emitted(a, []), FlushTag(t, b))
  {
    hide Get, Put, KeepBatches;
    KeepOne(tags, Batch(t, Get(a, t)));
    KeepOne(tags, Batch(t, Get(b, t)));
    PutAgrees(tags, a, b, t, [], []);
    if t !in tags {
      PutOther(tags, a, b, t, []);
      PutOther(tags, b, a, t, []);
    }
  }

  lemma MaybeAgrees(cfg: Config, tags: set<TypeTag>, t: TypeTag, a: Buffers, b: Buffers)
    requires AgreeOn(tags, a, b)
    ensures t in tags ==> SameKept(tags, MaybeFlushTag(cfg, t, a), MaybeFlushTag(cfg, t, b))
    ensures t !in tags ==> SameKept(tags, Emitted(a, []), MaybeFlushTag(cfg, t, b))
  {
    hide Get, FlushTag, Full, KeepBatches;
    FlushTagAgrees(tags, t, a, b);
  }

  /** Whatever the tag, a possible flush on both sides keeps them in step. */
  lemma MaybeBoth(cfg: Config, tags: set<TypeTag>, t: TypeTag, a: Buffers, b: Buffers)
    requires AgreeOn(tags, a, b)
    ensures SameKept(tags, MaybeFlushTag(cfg, t, a), MaybeFlushTag(cfg, t, b))
  {
    hide Get, MaybeFlushTag, KeepBatches;
    MaybeAgrees(cfg, tags, t, a, b);
    if t !in tags {
      MaybeAgrees(cfg, tags, t, b, a);
      MaybeAgrees(cfg, tags, t, a, a);
    }
  }

  lemma SameKeptThen(tags: set<TypeTag>, a: Emitted, b: Emitted, a2: Emitted, b2: Emitted)
    requires SameKept(tags, a, b) && SameKept(tags, a2, b2)
    ensures SameKept(tags, Emitted(a2.buf, a.out + a2.out), Emitted(b2.buf, b.out + b2.out))
  {
    hide KeepBatches, Get;
    KeepBatchesAppend(tags, a.out, a2.out);
    KeepBatchesAppend(tags, b.out, b2.out);
  }

  /** Pushing the same entry on both sides keeps them in step. */
  lemma PushBoth(cfg: Config, tags: set<TypeTag>, e: RdbEntry, a: Buffers, b: Buffers)
    requires AgreeOn(tags, a, b)
    ensures SameKept(tags, Push(cfg, e, a), Push(cfg, e, b))
  {
    hide Get, Put, MaybeFlushTag, Oversized, RowsFor, AgreeOn, SameKept, KeepBatches;
    var tag := TypeTagFor(e);
    if Oversized(cfg, e) {
      SameNothing(tags, a, b);
    } else {
      var a1, b1 := AppendRows(a, tag, e), AppendRows(b, tag, e);
      AppendBoth(tags, a, b, tag, e);
      if ShouldEmitGeo(cfg.geo, tag, e) {
        var a2, b2 := AppendRows(a1, GeoTag, e), AppendRows(b1, GeoTag, e);
        AppendBoth(tags, a1, b1, GeoTag, e);
        MaybeBoth(cfg, tags, tag, a2, b2);
        var a3, b3 := MaybeFlushTag(cfg, tag, a2), MaybeFlushTag(cfg, tag, b2);
        InStep(tags, a3, b3);
        MaybeBoth(cfg, tags, GeoTag, a3.buf, b3.buf);
        SameKeptThen(tags, a3, b3, MaybeFlushTag(cfg, GeoTag, a3.buf), MaybeFlushTag(cfg, GeoTag, b3.buf));
      } else {
        MaybeBoth(cfg, tags, tag, a1, b1);
      }
    }
  }

  lemma SameNothing(tags: set<TypeTag>, a: Buffers, b: Buffers)
    requires AgreeOn(tags, a, b)
    ensures SameKept(tags, Emitted(a, []), Emitted(b, []))
  {
    hide Get;
  }

  lemma InStep(tags: set<TypeTag>, a: Emitted, b: Emitted)
    requires SameKept(tags, a, b)
    ensures AgreeOn(tags, a.buf, b.buf)
  {
    hide Get, KeepBatches;
  }

  lemma AppendBoth(tags: set<TypeTag>, a: Buffers, b: Buffers, t: TypeTag, e: RdbEntry)
    requires AgreeOn(tags, a, b)
    ensures AgreeOn(tags, AppendRows(a, t, e), AppendRows(b, t, e))
  {
    hide Get, Put, RowsFor;
    PutAgrees(tags, a, b, t, Get(a, t) + RowsFor(t, e), Get(b, t) + RowsFor(t, e));
  }

  /** An entry the type filter drops would have touched none of the wanted tags. */
  lemma PushDropped(cfg: Config, f: EntryFilter, tags: set<TypeTag>, e: RdbEntry, a: Buffers, b: Buffers)
    requires AgreeOn(tags, a, b) && f.geo == cfg.geo && !MatchesAnyType(f, e, tags)
    ensures SameKept(tags, Emitted(a, []), Push(cfg, e, b))
  {
    hide Get, Put, MaybeFlushTag, Oversized, RowsFor, AgreeOn, SameKept, KeepBatches;
    var tag := TypeTagFor(e);
    if Oversized(cfg, e) {
      SameNothing(tags, a, b);
    } else {
      var b1 := AppendRows(b, tag, e);
      PutOther(tags, a, b, tag, Get(b, tag) + RowsFor(tag, e));
      if ShouldEmitGeo(cfg.geo, tag, e) {
        var b2 := AppendRows(b1, GeoTag, e);
        PutOther(tags, a, b1, GeoTag, Get(b1, GeoTag) + RowsFor(GeoTag, e));
        MaybeAgrees(cfg, tags, tag, a, b2);
        var b3 := MaybeFlushTag(cfg, tag, b2);
        InStep(tags, Emitted(a, []), b3);
        MaybeAgrees(cfg, tags, GeoTag, a, b3.buf);
        SameKeptThen(tags, Emitted(a, []), b3, Emitted(a, []), MaybeFlushTag(cfg, GeoTag, b3.buf));
        Leading<Batch>([]);
      } else {
        MaybeAgrees(cfg, tags, tag, a, b1);
      }
    }
  }

  lemma {:induction false} FlushBoth(tags: set<TypeTag>, all: seq<TypeTag>, a: Buffers, b: Buffers)
    requires AgreeOn(tags, a, b)
    ensures SameKept(tags, Flush(all, a), Flush(all, b))
  {
    hide Get, FlushTag, AgreeOn, SameKept, KeepBatches;
    if all == [] {
      SameNothing(tags, a, b);
    } else {
      var a1, b1 := FlushTag(all[0], a), FlushTag(all[0], b);
      FlushTagAgrees(tags, all[0], a, b);
      InStep(tags, a1, b1);
      FlushBoth(tags, all[1..], a1.buf, b1.buf);
      SameKeptThen(tags, a1, b1, Flush(all[1..], a1.buf), Flush(all[1..], b1.buf));
    }
  }

  // ----- pushdown -----

  /** The type filter switched off. */
  function AnyType(f: EntryFilter): EntryFilter { f.(tags := None) }

  /** Filtering by type before the batcher and keeping the wanted batches after it gives the very
      batches, cut at the same places and in the same order, that keeping them after batching every
      entry gives. */
  lemma {:induction false} PushdownFrom(
    cfg: Config, f: EntryFilter, tags: set<TypeTag>, items: seq<Machine.Item>, a: Buffers, b: Buffers)
    requires f.tags == Some(tags) && f.geo == cfg.geo && AgreeOn(tags, a, b)
    ensures Keep(tags, Iterate(cfg, a, Filtered(f, items))) == Keep(tags, Iterate(cfg, b, Filtered(AnyType(f), items)))
    decreases |items|
  {
    hide Keep, KeepBatches, Push, Flush, AgreeOn, SameKept, Matches, Iterate;
    if items == [] {
      FlushBoth(tags, ALL, a, b);
      IterateEnd(cfg, a);
      IterateEnd(cfg, b);
      KeepSame(tags, Flush(ALL, a), Flush(ALL, b));
    } else {
      var x, rest := items[0], items[1..];
      var whole := Filtered(AnyType(f), rest);
      var part := Filtered(f, rest);
      FilteredDef(f, items);
      FilteredDef(AnyType(f), items);
      hide Filtered;
      Leading(part);
      Leading(whole);
      if x.Err? {
        PushdownFrom(cfg, f, tags, rest, a, b);
        First(x, part);
        First(x, whole);
        IterateErr(cfg, a, [x] + part);
        IterateErr(cfg, b, [x] + whole);
        KeepAppend(tags, [Bad(Parser(x.error))], Iterate(cfg, a, part));
        KeepAppend(tags, [Bad(Parser(x.error))], Iterate(cfg, b, whole));
      } else {
        MatchesSplit(f, tags, x.entry);
        var p, q := Push(cfg, x.entry, a), Push(cfg, x.entry, b);
        First(x, part);
        First(x, whole);
        IterateGot(cfg, a, [x] + part);
        IterateGot(cfg, b, [x] + whole);
        KeepAppend(tags, Fines(p.out), Iterate(cfg, p.buf, part));
        KeepAppend(tags, Fines(q.out), Iterate(cfg, q.buf, whole));
        if Matches(f, x.entry) {
          PushBoth(cfg, tags, x.entry, a, b);
          KeepSame(tags, p, q);
          InStep(tags, p, q);
          PushdownFrom(cfg, f, tags, rest, p.buf, q.buf);
        } else if Matches(AnyType(f), x.entry) {
          PushDropped(cfg, f, tags, x.entry, a, b);
          KeepSame(tags, Emitted(a, []), q);
          InStep(tags, Emitted(a, []), q);
          PushdownFrom(cfg, f, tags, rest, a, q.buf);
          KeepNothing(tags);
          Leading(Keep(tags, Iterate(cfg, q.buf, whole)));
        } else {
          PushdownFrom(cfg, f, tags, rest, a, b);
        }
      }
    }
  }

  /** The same for a whole export. */
  lemma {:induction false} PushdownExact(cfg: Config, f: EntryFilter, tags: set<TypeTag>, items: seq<Machine.Item>)
    requires f.tags == Some(tags) && f.geo == cfg.geo
    ensures Keep(tags, Iterate(cfg, EmptyBuffers(), Filtered(f, items)))
            == Keep(tags, Iterate(cfg, EmptyBuffers(), Filtered(AnyType(f), items)))
  {
    PushdownFrom(cfg, f, tags, items, EmptyBuffers(), EmptyBuffers());
  }

  lemma {:induction false} KeepSame(tags: set<TypeTag>, a: Emitted, b: Emitted)
    requires SameKept(tags, a, b)
    ensures Keep(tags, Fines(a.out)) == Keep(tags, Fines(b.out))
  {
    hide Get, Keep;
    KeepFines(tags, a.out);
    KeepFines(tags, b.out);
  }

  lemma {:induction false} KeepNothing(tags: set<TypeTag>)
    ensures Keep(tags, Fines([])) == []
  {}

  lemma MatchesSplit(f: EntryFilter, tags: set<TypeTag>, e: RdbEntry)
    requires f.tags == Some(tags)
    ensures Matches(f, e) <==> Matches(AnyType(f), e) && MatchesAnyType(f, e, tags)
  {}

  lemma {:induction false} FilteredDef(f: EntryFilter, items: seq<Machine.Item>)
    requires items != []
    ensures var rest := Filtered(f, items[1..]);
            Filtered(f, items) == if items[0].Got? && !Matches(f, items[0].entry) then [] + rest else [items[0]] + rest
  {}
}
