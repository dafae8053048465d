/**
 The counting pass behind `validate`: what it counts, that an export produces exactly the rows it
 counts, and that the counts do not depend on the reader's chunk limit.
 */
module Summary {
  import opened Common
  import opened Types
  import opened Schema
  import opened Machine
  import opened Reader
  import Batcher
  import Builders
  import Chunking
  import Routing
  import Wire

  // ----- what is counted -----

  /** A tag an entry is counted under: its own, and geo beside the sorted set. */
  predicate CountedIn(geo: bool, t: TypeTag, e: RdbEntry) {
    t == TypeTagFor(e) || (t == GeoTag && ShouldEmitGeo(geo, TypeTagFor(e), e))
  }

  datatype Measure = Rows(t: TypeTag) | Keys(t: TypeTag) | AllKeys | DbKeys(db: nat) | DbTagKeys(db: nat, t: TypeTag)

  function One(b: bool): nat { if b then 1 else 0 }

  /** What one entry adds to a measure. A chunked key counts as a key at its first chunk only. */
  function Weight(geo: bool, m: Measure, e: RdbEntry): nat {
    match m
    case Rows(t) => if CountedIn(geo, t, e) then ExpectedRowCount(e) else 0
    case Keys(t) => One(e.IsFirstChunk() && CountedIn(geo, t, e))
    case AllKeys => One(e.IsFirstChunk())
    case DbKeys(db) => One(e.IsFirstChunk() && e.db == db)
    case DbTagKeys(db, t) => One(e.IsFirstChunk() && e.db == db && CountedIn(geo, t, e))
  }

  function ItemWeight(geo: bool, m: Measure, x: Item): nat { if x.Got? then Weight(geo, m, x.entry) else 0 }

  function Total(geo: bool, m: Measure, items: seq<Item>): nat {
    if items == [] then 0 else ItemWeight(geo, m, items[0]) + Total(geo, m, items[1..])
  }

  function FirstError(items: seq<Item>): Option<RdbError> {
    if items == [] then None
    else if items[0].Err? && !items[0].error.UnknownType? then Some(items[0].error)
    else FirstError(items[1..])
  }

  lemma {:induction false} TotalAppend(geo: bool, m: Measure, a: seq<Item>, b: seq<Item>)
    ensures Total(geo, m, a + b) == Total(geo, m, a) + Total(geo, m, b)
    decreases |a|
  {
    hide ItemWeight;
    if a == [] {
      assert a + b == b;
    } else {
      assert (a + b)[1..] == a[1..] + b && (a + b)[0] == a[0];
      TotalAppend(geo, m, a[1..], b);
    }
  }

  lemma {:induction false} TotalOne(geo: bool, m: Measure, x: Item)
    ensures Total(geo, m, [x]) == ItemWeight(geo, m, x)
  {
    hide ItemWeight;
    assert [x][1..] == [];
  }

  // ----- the counting loop -----

  datatype TypeCount = TypeCount(keys: nat, rows: nat)
  datatype Counts = Counts(
    totalKeys: nat, totals: map<TypeTag, TypeCount>, perDb: map<nat, map<TypeTag, nat>>, perDbKeys: map<nat, nat>)
  datatype EntrySummary = EntrySummary(header: Header, metadata: map<Bytes, Bytes>, crcVerified: bool, counts: Counts)

  function CountOf(m: map<TypeTag, TypeCount>, t: TypeTag): TypeCount { if t in m then m[t] else TypeCount(0, 0) }
  function NumberOf<K>(m: map<K, nat>, k: K): nat { if k in m then m[k] else 0 }
  function TagsOf(m: map<nat, map<TypeTag, nat>>, db: nat): map<TypeTag, nat> { if db in m then m[db] else map[] }

  /** A summary counts exactly these items: every number is its measure's total, and a type or
      database is listed exactly when something was counted for it. */
  ghost predicate Describes(geo: bool, items: seq<Item>, s: Counts) {
    && s.totalKeys == Total(geo, AllKeys, items)
    && (forall t: TypeTag :: TagDescribed(geo, items, s, t))
    && (forall db: nat :: DbDescribed(geo, items, s, db))
    && (forall db: nat, t: TypeTag :: DbTagDescribed(geo, items, s, db, t))
  }

  predicate TagDescribed(geo: bool, items: seq<Item>, s: Counts, t: TypeTag) {
    && CountOf(s.totals, t) == TypeCount(Total(geo, Keys(t), items), Total(geo, Rows(t), items))
    && (t in s.totals <==> Total(geo, Rows(t), items) > 0)
  }

  predicate DbDescribed(geo: bool, items: seq<Item>, s: Counts, db: nat) {
    && NumberOf(s.perDbKeys, db) == Total(geo, DbKeys(db), items)
    && (db in s.perDbKeys <==> Total(geo, DbKeys(db), items) > 0)
    && (db in s.perDb <==> Total(geo, DbKeys(db), items) > 0)
  }

  predicate DbTagDescribed(geo: bool, items: seq<Item>, s: Counts, db: nat, t: TypeTag) {
    && NumberOf(TagsOf(s.perDb, db), t) == Total(geo, DbTagKeys(db, t), items)
    && (t in TagsOf(s.perDb, db) <==> Total(geo, DbTagKeys(db, t), items) > 0)
  }

  function Bump(m: map<TypeTag, TypeCount>, t: TypeTag, first: bool, rows: nat): map<TypeTag, TypeCount> {
    m[t := TypeCount(CountOf(m, t).keys + One(first), CountOf(m, t).rows + rows)]
  }

  function BumpDb(m: map<nat, map<TypeTag, nat>>, db: nat, t: TypeTag): map<nat, map<TypeTag, nat>> {
    m[db := TagsOf(m, db)[t := NumberOf(TagsOf(m, db), t) + 1]]
  }

  /** One entry counted under one tag. */
  function CountTag(s: Counts, e: RdbEntry, t: TypeTag): Counts {
    var totals := Bump(s.totals, t, e.IsFirstChunk(), ExpectedRowCount(e));
    s.(totals := totals, perDb := if e.IsFirstChunk() then BumpDb(s.perDb, e.db, t) else s.perDb)
  }

  /** One key counted, whatever its tags. */
  function CountKey(s: Counts, e: RdbEntry): Counts {
    if e.IsFirstChunk() then
      s.(totalKeys := s.totalKeys + 1, perDbKeys := s.perDbKeys[e.db := NumberOf(s.perDbKeys, e.db) + 1])
    else s
  }

  /** One walk over the reader's iterator, up to its end or the first error that is not recoverable. */
  method SummarizeEntries(rdr: RdbReader, geo: bool) returns (r: Result<EntrySummary>)
    requires rdr.Valid()
    modifies rdr, rdr.reader
    ensures rdr.Valid()
    ensures var run := old(Run(rdr.Cfg(), rdr.reader.data, rdr.St()));
            match FirstError(run.items)
            case Some(x) => r == Failure(x)
            case None =>
              && r.Success? && Describes(geo, run.items, r.value.counts) && rdr.St() == run.final
              && r.value.header == rdr.header
              && r.value.metadata == run.final.aux && r.value.crcVerified == run.final.crcChecked
  {
    hide *;
    rdr.Consistent();
    ghost var cfg, data := rdr.Cfg(), rdr.reader.data;
    ghost var run := Run(cfg, data, rdr.St());
    ghost var done: seq<Item> := [];
    var s := Counts(0, map[], map[], map[]);
    NothingDescribed(geo);
    NoError();
    Batcher.Leading(run.items);
    while true
      invariant rdr.Valid() && rdr.Cfg() == cfg
      invariant rdr.St().pos <= |data| && (rdr.St().finished || Valid(cfg, data, rdr.St()))
      invariant Describes(geo, done, s) && FirstError(done).None?
      invariant run.final == Run(cfg, data, rdr.St()).final
      invariant run.items == done + Run(cfg, data, rdr.St()).items
      decreases Left(data, rdr.St())
    {
      ghost var before := rdr.St();
      RunNext(cfg, data, before);
      var reply := rdr.Next();
      rdr.Consistent();
      ghost var later := Run(cfg, data, rdr.St()).items;
      if reply.Done? {
        Batcher.Trailing(done);
        break;
      }
      var x := reply.item;
      Batcher.Regroup(done, [x], later);
      ErrorSplits(done, x, later);
      if x.Got? {
        var e := x.entry;
        var tag := TypeTagFor(e);
        ghost var counted := s;
        s := CountKey(CountTag(s, e, tag), e);
        if ShouldEmitGeo(geo, tag, e) { s := CountTag(s, e, GeoTag); }
        EntryDescribed(geo, done, counted, e);
      } else if x.error.UnknownType? {
        ErrorDescribed(geo, done, s, x.error);
      } else {
        return Failure(x.error);
      }
      done := done + [x];
    }
    StateFields(rdr);
    r := Success(EntrySummary(rdr.header, rdr.metadata, rdr.crcChecked, s));
  }

  lemma StateFields(rdr: RdbReader)
    ensures rdr.St().aux == rdr.metadata && rdr.St().crcChecked == rdr.crcChecked
  {}

  lemma NoError()
    ensures FirstError([]) == None
  {}

  /** What every call of the iterator decreases. */
  function Left(d: Bytes, s: State): nat
    requires s.pos <= |d|
  {
    if s.finished then 0 else 1 + Unread(d, s)
  }

  /** A run is its first reply and then the run from the state after it. */
  lemma {:induction false} RunNext(cfg: Machine.Config, d: Bytes, s: State)
    requires s.pos <= |d| && (s.finished || Valid(cfg, d, s))
    ensures var (reply, s1) := Next(cfg, d, s);
            var rest := Run(cfg, d, s1);
            && Run(cfg, d, s) == Trace((if reply.Done? then [] else [reply.item]) + rest.items, rest.final)
            && (reply.Done? ==> rest == Trace([], s1))
            && (!reply.Done? ==> Left(d, s1) < Left(d, s))
  {
    hide NextInner;
    var (reply, s1) := Next(cfg, d, s);
    Batcher.Leading(Run(cfg, d, s1).items);
  }

  lemma {:induction false} ErrorSplits(done: seq<Item>, x: Item, later: seq<Item>)
    requires FirstError(done).None?
    ensures var fatal := x.Err? && !x.error.UnknownType?;
            && (fatal ==> FirstError(done + ([x] + later)) == Some(x.error))
            && (!fatal ==> FirstError(done + [x]).None?)
    decreases |done|
  {
    if done == [] {
      assert done + ([x] + later) == [x] + later && done + [x] == [x];
      assert [x][1..] == [];
    } else {
      ErrorSplits(done[1..], x, later);
      assert (done + ([x] + later))[1..] == done[1..] + ([x] + later) && (done + [x])[1..] == done[1..] + [x];
    }
  }

  lemma NothingDescribed(geo: bool)
    ensures Describes(geo, [], Counts(0, map[], map[], map[]))
  {}

  lemma ErrorDescribed(geo: bool, done: seq<Item>, s: Counts, x: RdbError)
    requires Describes(geo, done, s)
    ensures Describes(geo, done + [Err(x)], s)
  {
    hide Total, Describes, CountOf, NumberOf, TagsOf;
    forall m: Measure
      ensures Total(geo, m, done + [Err(x)]) == Total(geo, m, done)
    {
      TotalAppend(geo, m, done, [Err(x)]);
      TotalOne(geo, m, Err(x));
    }
    SameTotals(geo, done, done + [Err(x)], s);
  }

  lemma {:induction false} SameTotals(geo: bool, a: seq<Item>, b: seq<Item>, s: Counts)
    requires Describes(geo, a, s) && forall m: Measure :: Total(geo, m, b) == Total(geo, m, a)
    ensures Describes(geo, b, s)
  {
    hide Total, CountOf, NumberOf, TagsOf;
    assert forall t: TypeTag :: TagDescribed(geo, a, s, t) ==> TagDescribed(geo, b, s, t);
    assert forall db: nat :: DbDescribed(geo, a, s, db) ==> DbDescribed(geo, b, s, db);
    assert forall db: nat, t: TypeTag :: DbTagDescribed(geo, a, s, db, t) ==> DbTagDescribed(geo, b, s, db, t);
  }

  /** The summary after one entry, as the loop computes it. */
  function Counted(geo: bool, s: Counts, e: RdbEntry): Counts {
    var tag := TypeTagFor(e);
    var s1 := CountKey(CountTag(s, e, tag), e);
    if ShouldEmitGeo(geo, tag, e) then CountTag(s1, e, GeoTag) else s1
  }

  lemma EntryDescribed(geo: bool, done: seq<Item>, s: Counts, e: RdbEntry)
    requires Describes(geo, done, s)
    ensures Describes(geo, done + [Got(e)], Counted(geo, s, e))
    ensures Counted(geo, s, e) ==
            if ShouldEmitGeo(geo, TypeTagFor(e), e) then CountTag(CountKey(CountTag(s, e, TypeTagFor(e)), e), e, GeoTag)
            else CountKey(CountTag(s, e, TypeTagFor(e)), e)
  {
    hide Total, ExpectedRowCount, TypeTagFor, ShouldEmitGeo, Weight;
    var all, s2 := done + [Got(e)], Counted(geo, s, e);
    forall m: Measure
      ensures Total(geo, m, all) == Total(geo, m, done) + Weight(geo, m, e)
    {
      TotalAppend(geo, m, done, [Got(e)]);
      TotalOne(geo, m, Got(e));
    }
    forall t: TypeTag
      ensures TagDescribed(geo, all, s2, t)
    {
      assert TagDescribed(geo, done, s, t);
      TagStep(geo, done, all, s, e, t);
    }
    forall db: nat
      ensures DbDescribed(geo, all, s2, db)
    {
      assert DbDescribed(geo, done, s, db);
      DbStep(geo, done, all, s, e, db);
    }
    forall db: nat, t: TypeTag
      ensures DbTagDescribed(geo, all, s2, db, t)
    {
      assert DbTagDescribed(geo, done, s, db, t);
      DbTagStep(geo, done, all, s, e, db, t);
    }
    KeyStep(geo, s, e);
  }

  lemma KeyStep(geo: bool, s: Counts, e: RdbEntry)
    ensures Counted(geo, s, e).totalKeys == s.totalKeys + Weight(geo, AllKeys, e)
  {
    hide ExpectedRowCount, TypeTagFor, ShouldEmitGeo;
  }

  lemma {:induction false} TagStep(geo: bool, done: seq<Item>, all: seq<Item>, s: Counts, e: RdbEntry, t: TypeTag)
    requires TagDescribed(geo, done, s, t)
    requires Total(geo, Keys(t), all) == Total(geo, Keys(t), done) + Weight(geo, Keys(t), e)
    requires Total(geo, Rows(t), all) == Total(geo, Rows(t), done) + Weight(geo, Rows(t), e)
    ensures TagDescribed(geo, all, Counted(geo, s, e), t)
  {
    hide Total, ShouldEmitGeo, ExpectedRowCount, TypeTagFor;
    OneRowAtLeast(e);
    GeoBeside(geo, e);
  }

  lemma OneRowAtLeast(e: RdbEntry)
    ensures ExpectedRowCount(e) >= 1
  {}

  lemma GeoBeside(geo: bool, e: RdbEntry)
    ensures TypeTagFor(e) != GeoTag
    ensures ShouldEmitGeo(geo, TypeTagFor(e), e) ==> TypeTagFor(e) == ZSetTag
  {}

  lemma {:induction false} DbStep(geo: bool, done: seq<Item>, all: seq<Item>, s: Counts, e: RdbEntry, db: nat)
    requires DbDescribed(geo, done, s, db)
    requires Total(geo, DbKeys(db), all) == Total(geo, DbKeys(db), done) + Weight(geo, DbKeys(db), e)
    ensures DbDescribed(geo, all, Counted(geo, s, e), db)
  {
    hide Total, ShouldEmitGeo, ExpectedRowCount, TypeTagFor;
  }

  lemma BumpDbAt(m: map<nat, map<TypeTag, nat>>, db: nat, t: TypeTag, d: nat, u: TypeTag)
    ensures var before, after := TagsOf(m, d), TagsOf(BumpDb(m, db, t), d);
            && NumberOf(after, u) == NumberOf(before, u) + One(d == db && u == t)
            && (u in after <==> u in before || (d == db && u == t))
  {}

  lemma {:induction false} DbTagStep(geo: bool, done: seq<Item>, all: seq<Item>, s: Counts, e: RdbEntry, db: nat,
      t: TypeTag)
    requires DbTagDescribed(geo, done, s, db, t)
    requires Total(geo, DbTagKeys(db, t), all) == Total(geo, DbTagKeys(db, t), done) + Weight(geo, DbTagKeys(db, t), e)
    ensures DbTagDescribed(geo, all, Counted(geo, s, e), db, t)
  {
    hide Total, ShouldEmitGeo, ExpectedRowCount, TypeTagFor, BumpDb, TagsOf, NumberOf;
    GeoBeside(geo, e);
    BumpDbAt(s.perDb, e.db, TypeTagFor(e), db, t);
    BumpDbAt(BumpDb(s.perDb, e.db, TypeTagFor(e)), e.db, GeoTag, db, t);
  }

  // ----- an export has the rows that were counted -----

  lemma ContributionCounted(cfg: Batcher.Config, t: TypeTag, e: RdbEntry)
    requires cfg.maxEntryBytes.None?
    ensures |Batcher.Contribution(cfg, t, e)| == Weight(cfg.geo, Rows(t), e)
  {
    hide Builders.RowsFor, ExpectedRowCount;
    Builders.RowsForEntry(t, e);
  }

  lemma {:induction false} ContributionsCounted(cfg: Batcher.Config, t: TypeTag, items: seq<Item>)
    requires cfg.maxEntryBytes.None?
    ensures |Batcher.Contributions(cfg, t, items)| == Total(cfg.geo, Rows(t), items)
    decreases |items|
  {
    hide Batcher.Contribution, Weight;
    if items != [] {
      ContributionsCounted(cfg, t, items[1..]);
      if items[0].Got? { ContributionCounted(cfg, t, items[0].entry); }
    }
  }

  ghost predicate HasBatch(t: TypeTag, out: seq<Batcher.Batch>) { exists b :: b in out && b.tag == t }

  lemma {:induction false} RowsMeanBatches(t: TypeTag, out: seq<Batcher.Batch>)
    requires forall b :: b in out ==> b.rows != []
    ensures HasBatch(t, out) <==> |Batcher.RowsOf(t, out)| > 0
  {
    if out != [] {
      RowsMeanBatches(t, out[1..]);
      assert forall b :: b in out <==> b == out[0] || b in out[1..];
      if out[0].tag == t { assert out[0] in out; }
    }
  }

  /** What an entry adds to each count: to a table's rows as many as it has there, and one key to each table
      it goes to, to its database and to the whole, unless it is a later chunk. */
  lemma CountedWhereDue(geo: bool, m: Measure, e: RdbEntry)
    ensures var first := e.elementOffset.None? || e.elementOffset.value == 0;
            Weight(geo, m, e) ==
            match m
            case Rows(t) => if Routing.GoesTo(geo, t, e) then |Builders.RowsFor(t, e)| else 0
            case Keys(t) => if first && Routing.GoesTo(geo, t, e) then 1 else 0
            case AllKeys => if first then 1 else 0
            case DbKeys(db) => if first && db == e.db then 1 else 0
            case DbTagKeys(db, t) => if first && db == e.db && Routing.GoesTo(geo, t, e) then 1 else 0
  {
    hide TypeTagFor, ShouldEmitGeo, Routing.GoesTo, Builders.RowsFor, ExpectedRowCount;
    if m.Rows? || m.Keys? || m.DbTagKeys? {
      Routing.FiledUnder(geo, m.t, e);
      if Routing.GoesTo(geo, m.t, e) { Routing.DueIsTaken(geo, m.t, e); }
    }
  }

  /** Export and validation agree: for any thresholds and no entry cap, each type's emitted rows are
      as many as the summary counted, and a type has a batch exactly when the summary lists it. */
  lemma {:induction false} ExportAgrees(cfg: Batcher.Config, items: seq<Item>, s: Counts, t: TypeTag)
    requires cfg.maxEntryBytes.None? && Describes(cfg.geo, items, s)
    ensures var out := Batcher.BatchesOf(Batcher.Iterate(cfg, Batcher.EmptyBuffers(), items));
            && |Batcher.RowsOf(t, out)| == CountOf(s.totals, t).rows
            && (HasBatch(t, out) <==> t in s.totals)
  {
    hide Batcher.Iterate, Batcher.Contributions, Batcher.BatchesOf, Batcher.RowsOf, Total, CountOf, HasBatch;
    Batcher.IterateKeeps(cfg, Batcher.EmptyBuffers(), items, t);
    ContributionsCounted(cfg, t, items);
    RowsMeanBatches(t, Batcher.BatchesOf(Batcher.Iterate(cfg, Batcher.EmptyBuffers(), items)));
    assert TagDescribed(cfg.geo, items, s, t);
  }

  // ----- the chunk limit does not matter -----

  /** Every measure but those of geo. */
  predicate Native(m: Measure) {
    match m
    case Rows(t) => t != GeoTag
    case Keys(t) => t != GeoTag
    case DbTagKeys(_, t) => t != GeoTag
    case _ => true
  }

  /** What the chunks of a key read so far have already added. */
  function Already(m: Measure, pending: Option<RdbEntry>): nat {
    if pending.None? then 0
    else
      var a := pending.value;
      match m
      case Rows(t) => if t == TypeTagFor(a) then a.value.Size() else 0
      case Keys(t) => One(t == TypeTagFor(a))
      case AllKeys => 1
      case DbKeys(db) => One(a.db == db)
      case DbTagKeys(db, t) => One(a.db == db && t == TypeTagFor(a))
  }

  /** The key read so far is a plain collection of at least one element. */
  predicate Started(pending: Option<RdbEntry>) {
    pending.Some? ==>
      var a := pending.value;
      SameKind(a.value, a.value) && a.value.Size() > 0 && a.totalElements.Some? && a.elementOffset.None?
  }

  /** A chunk adds its elements and no sentinel row, never a geo row, and counts as a key only when it
      is the first. */
  lemma ChunkAdds(geo: bool, k: nat, m: Measure, pending: Option<RdbEntry>, e: RdbEntry)
    requires Started(pending) && Chunking.Continues(k, pending, e)
    ensures Started(Some(Chunking.Join(pending, e)))
    ensures Native(m) ==> Already(m, pending) + Weight(geo, m, e) == Already(m, Some(Chunking.Join(pending, e)))
    ensures Weight(geo, Rows(TypeTagFor(e)), e) == e.value.Size() && Weight(geo, Rows(GeoTag), e) == 0
  {
    var j := Chunking.Join(pending, e);
    if pending.Some? { SizesAdd(pending.value.value, e.value); }
  }

  lemma SizesAdd(a: RdbValue, b: RdbValue)
    requires SameKind(a, b)
    ensures Append(a, b).Size() == a.Size() + b.Size() && SameKind(Append(a, b), b)
  {}

  /** A key completed from chunks adds what its chunks added. */
  lemma CompletedAdds(geo: bool, m: Measure, a: RdbEntry)
    requires Started(Some(a)) && Native(m)
    ensures Weight(geo, m, Chunking.Complete(a)) == Already(m, Some(a))
  {}

  lemma {:induction false} ChunksAdd(geo: bool, k: nat, m: Measure, pending: Option<RdbEntry>, items: seq<Item>)
    requires Started(pending) && Chunking.WellChunked(k, pending, items) && FirstError(items).None?
    ensures Native(m) ==> Already(m, pending) + Total(geo, m, items) == Total(geo, m, Chunking.Merge(pending, items))
    ensures m == Rows(GeoTag) ==> Total(geo, m, items) <= Total(geo, m, Chunking.Merge(pending, items))
    decreases |items|
  {
    hide Weight, Already, Started, Chunking.Continues, Native, Total, Chunking.Join, Chunking.Complete;
    NothingYet(m);
    NothingStarted();
    NothingCounted(geo, m);
    if items != [] {
      var rest := items[1..];
      assert items == [items[0]] + rest;
      TotalFirst(geo, m, items[0], rest);
      if items[0].Err? {
        ChunksAdd(geo, k, m, None, rest);
        TotalFirst(geo, m, items[0], Chunking.Merge(None, rest));
      } else {
        var e := items[0].entry;
        if e.totalElements.None? {
          ChunksAdd(geo, k, m, None, rest);
          TotalFirst(geo, m, items[0], Chunking.Merge(None, rest));
        } else {
          var j := Chunking.Join(pending, e);
          ChunkAdds(geo, k, m, pending, e);
          if j.value.Size() >= e.totalElements.value {
            ChunksAdd(geo, k, m, None, rest);
            TotalFirst(geo, m, Got(Chunking.Complete(j)), Chunking.Merge(None, rest));
            if Native(m) { CompletedAdds(geo, m, j); }
          } else {
            ChunksAdd(geo, k, m, Some(j), rest);
          }
        }
      }
    }
  }

  lemma {:induction false} NothingCounted(geo: bool, m: Measure)
    ensures Total(geo, m, []) == 0
  {}

  lemma NothingYet(m: Measure)
    ensures Already(m, None) == 0
  {}

  lemma NothingStarted()
    ensures Started(None)
  {}

  lemma {:induction false} TotalFirst(geo: bool, m: Measure, x: Item, rest: seq<Item>)
    ensures Total(geo, m, [x] + rest) == ItemWeight(geo, m, x) + Total(geo, m, rest)
  {
    assert ([x] + rest)[1..] == rest;
  }

  lemma {:induction false} SameFirstError(k: nat, pending: Option<RdbEntry>, items: seq<Item>)
    ensures FirstError(Chunking.Merge(pending, items)) == FirstError(items)
    decreases |items|
  {
    if items != [] {
      var rest := items[1..];
      if items[0].Err? || items[0].entry.totalElements.None? {
        SameFirstError(k, None, rest);
        assert ([items[0]] + Chunking.Merge(None, rest))[1..] == Chunking.Merge(None, rest);
      } else {
        var e := items[0].entry;
        var j := Chunking.Join(pending, e);
        if j.value.Size() >= e.totalElements.value {
          SameFirstError(k, None, rest);
          assert ([Got(Chunking.Complete(j))] + Chunking.Merge(None, rest))[1..] == Chunking.Merge(None, rest);
        } else {
          SameFirstError(k, Some(j), rest);
        }
      }
    }
  }

  /** For every input and chunk limit: the scan fails under the limit exactly when it fails without,
      with the same error; otherwise all counts agree except geo's, and there are no more geo rows
      with the limit than without. */
  lemma {:induction false} LimitDoesNotMatter(geo: bool, cfg: Machine.Config, k: nat, d: Bytes, s: State, m: Measure)
    requires k > 0 && Valid(Chunking.Limited(cfg, k), d, s) && s.chunked.None? && !s.finished
    ensures var limited := Run(Chunking.Limited(cfg, k), d, s).items;
            var whole := Run(Chunking.Whole(cfg), d, s).items;
            && FirstError(limited) == FirstError(whole)
            && (FirstError(whole).None? ==>
                  && (Native(m) ==> Total(geo, m, limited) == Total(geo, m, whole))
                  && Total(geo, Rows(GeoTag), limited) <= Total(geo, Rows(GeoTag), whole))
  {
    hide Run, Total, FirstError, Chunking.WellChunked, Chunking.Merge, Native, Already;
    Chunking.Refines(cfg, k, d, s);
    var limited := Run(Chunking.Limited(cfg, k), d, s).items;
    SameFirstError(k, None, limited);
    NothingStarted();
    NothingYet(m);
    if FirstError(limited).None? {
      ChunksAdd(geo, k, m, None, limited);
      ChunksAdd(geo, k, Rows(GeoTag), None, limited);
    }
  }

  /** Any two chunk limits: the same failure, or the same native counts. */
  lemma {:induction false} AnyTwoLimits(geo: bool, cfg: Machine.Config, k1: nat, k2: nat, d: Bytes, s: State,
      m: Measure)
    requires k1 > 0 && k2 > 0 && s.chunked.None? && !s.finished && Native(m)
    requires Valid(Chunking.Limited(cfg, k1), d, s)
    ensures var a := Run(Chunking.Limited(cfg, k1), d, s).items;
            var b := Run(Chunking.Limited(cfg, k2), d, s).items;
            FirstError(a) == FirstError(b) && (FirstError(a).None? ==> Total(geo, m, a) == Total(geo, m, b))
  {
    hide Run, Total, FirstError;
    LimitDoesNotMatter(geo, cfg, k1, d, s, m);
    LimitDoesNotMatter(geo, cfg, k2, d, s, m);
  }

  /** Every chunk of a run has at least one element, becomes exactly as many rows as it has elements,
      and none of geo. */
  lemma {:induction false} NoSentinelRows(k: nat, pending: Option<RdbEntry>, items: seq<Item>, i: nat)
    requires Started(pending) && Chunking.WellChunked(k, pending, items) && i < |items|
    requires items[i].Got? && items[i].entry.totalElements.Some?
    ensures var e := items[i].entry;
            && 1 <= e.value.Size() <= k
            && |Builders.RowsFor(TypeTagFor(e), e)| == e.value.Size()
            && !IsGeoEntry(e)
    decreases |items|
  {
    hide Started, Chunking.Continues, Builders.RowsFor;
    var rest := items[1..];
    NothingStarted();
    if items[0].Err? || items[0].entry.totalElements.None? {
      NoSentinelRows(k, None, rest, i - 1);
    } else {
      var e := items[0].entry;
      var j := Chunking.Join(pending, e);
      ChunkAdds(false, k, AllKeys, pending, e);
      if i > 0 {
        NoSentinelRows(k, if j.value.Size() >= e.totalElements.value then None else Some(j), rest, i - 1);
      } else {
        ChunkSize(k, pending, e);
        Builders.RowsForEntry(TypeTagFor(e), e);
      }
    }
  }

  lemma ChunkSize(k: nat, pending: Option<RdbEntry>, e: RdbEntry)
    requires Chunking.Continues(k, pending, e)
    ensures 1 <= e.value.Size() <= k && ExpectedRowCount(e) == e.value.Size()
  {}
}
