/** Which tables an entry goes to, spelled out from its value alone: the batcher, the counting pass and
    the type filter all follow it. */
module Routing {
  import opened Common
  import opened Types
  import opened Schema
  import opened Builders
  import opened Batcher
  import Geohash

  /** The bytes of a sketch: the four letters HYLL, an encoding of 0 or 1, and a header of sixteen bytes. */
  ghost predicate Sketch(data: Bytes) {
    exists enc: Byte, rest: Bytes :: data == [72, 89, 76, 76] + [enc] + rest && enc <= 1 && |rest| >= 11
  }

  predicate Equals52(n: nat, x: real) { n < 4503599627370496 && x == n as real }

  /** A score that is an integer of at most 52 bits. */
  ghost predicate Is52Bit(score: F64) { score.Finite? && exists n: nat :: Equals52(n, score.value) }

  /** Whether the entry has rows in the table of `t`. Geo rows come beside a sorted set's own. */
  ghost predicate GoesTo(geo: bool, t: TypeTag, e: RdbEntry) {
    match t
    case StringTag => e.value.Str? && !Sketch(e.value.data)
    case HllTag => e.value.Str? && Sketch(e.value.data)
    case ListTag => e.value.List?
    case SetTag => e.value.Set?
    case ZSetTag => e.value.SortedSet?
    case HashTag => e.value.Hash?
    case ModuleTag => e.value.Module?
    case StreamTag => e.value.Stream?
    case GeoTag =>
      && geo && e.totalElements.None? && e.value.SortedSet? && e.value.pairs != []
      && forall x | x in e.value.pairs :: Is52Bit(x.1)
  }

  lemma SketchIsHll(data: Bytes)
    ensures IsHll(data) <==> Sketch(data)
  {
    if IsHll(data) {
      assert data == data[..4] + [data[4]] + data[5..];
    }
    if Sketch(data) {
      var enc: Byte, rest: Bytes :| data == [72, 89, 76, 76] + [enc] + rest && enc <= 1 && |rest| >= 11;
      assert data[..4] == [72, 89, 76, 76] && data[4] == enc;
    }
  }

  lemma ScoreDecodes(score: F64)
    ensures Geohash.Decode(score).Some? <==> Is52Bit(score)
  {
    hide Geohash.Centre, Geohash.Evens;
    if Geohash.Decode(score).Some? {
      assert Equals52(score.value.Floor, score.value);
    }
    if Is52Bit(score) {
      var n: nat :| Equals52(n, score.value);
      assert score.value.Floor == n;
    }
  }

  lemma GeoScores(pairs: seq<(Bytes, F64)>)
    ensures IsGeo(pairs) <==> pairs != [] && forall x | x in pairs :: Is52Bit(x.1)
  {
    hide Geohash.Decode, Is52Bit;
    forall i | 0 <= i < |pairs| ensures Geohash.Decode(pairs[i].1).Some? <==> Is52Bit(pairs[i].1) {
      ScoreDecodes(pairs[i].1);
    }
    if pairs != [] && forall x | x in pairs :: Is52Bit(x.1) {
      forall i | 0 <= i < |pairs| ensures Geohash.Decode(pairs[i].1).Some? { assert pairs[i] in pairs; }
    }
  }

  /** The tags an entry is filed under are exactly those it goes to. */
  lemma FiledUnder(geo: bool, t: TypeTag, e: RdbEntry)
    ensures t == TypeTagFor(e) || (t == GeoTag && ShouldEmitGeo(geo, TypeTagFor(e), e)) <==> GoesTo(geo, t, e)
  {
    hide IsHll, Sketch, IsGeo, Is52Bit;
    if e.value.Str? { SketchIsHll(e.value.data); }
    if e.value.SortedSet? { GeoScores(e.value.pairs); }
  }

  /** An entry that the size limit admits adds its rows to every table it goes to, at least one to each,
      and nothing to any other; one that it does not admit adds nothing. */
  lemma RowsGoWhereDue(cfg: Config, t: TypeTag, e: RdbEntry)
    ensures var admitted := cfg.maxEntryBytes.None? || EstimateEntryBytes(e) <= cfg.maxEntryBytes.value;
            && Contribution(cfg, t, e) == (if admitted && GoesTo(cfg.geo, t, e) then RowsFor(t, e) else [])
            && (admitted && GoesTo(cfg.geo, t, e) ==> Contribution(cfg, t, e) != [])
  {
    hide TypeTagFor, ShouldEmitGeo, GoesTo, RowsFor, EstimateEntryBytes;
    FiledUnder(cfg.geo, t, e);
    if GoesTo(cfg.geo, t, e) { DueIsTaken(cfg.geo, t, e); }
  }

  lemma DueIsTaken(geo: bool, t: TypeTag, e: RdbEntry)
    requires GoesTo(geo, t, e)
    ensures RowsFor(t, e) != [] && |RowsFor(t, e)| == ExpectedRowCount(e)
  {
    hide Sketch, Is52Bit;
    RowsForEntry(t, e);
  }
}
