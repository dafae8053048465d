/**
 The driver shared by the file writers: one writer a tag, opened at the tag's first batch, and every
 opened writer closed whatever happens. Files and formats are an oracle that may fail any step.
 */
module Writer {
  import opened Common
  import opened Schema
  import opened Builders
  import opened ArrowBatching
  import Batcher

  datatype Event =
    | Create(tag: TypeTag)
    | Open(tag: TypeTag)
    | Write(tag: TypeTag, batch: RecordBatch)
    | Close(tag: TypeTag)

  /** Whether the last event of a log fails, knowing everything that happened before it. */
  type Oracle = seq<Event> -> Option<ArrowError>

  datatype Populated = Populated(log: seq<Event>, writers: set<TypeTag>, error: Option<ArrowError>)

  /** Make room for a batch of `tag`: a writer is created and opened unless there is one. */
  function Ensure(v: Oracle, log: seq<Event>, writers: set<TypeTag>, tag: TypeTag): Populated {
    if tag in writers then Populated(log, writers, None)
    else
      var log1 := log + [Create(tag)];
      if v(log1).Some? then Populated(log1, writers, v(log1))
      else
        var log2 := log1 + [Open(tag)];
        if v(log2).Some? then Populated(log2, writers, v(log2)) else Populated(log2, writers + {tag}, None)
  }

  /** Batches written one by one, up to the first failure. */
  function Populate(v: Oracle, log: seq<Event>, writers: set<TypeTag>, bs: seq<ArrowResult<TypedBatch>>): Populated
    decreases |bs|
  {
    if bs == [] then Populated(log, writers, None)
    else if bs[0].Bad? then Populated(log, writers, Some(bs[0].error))
    else
      var b := bs[0].value;
      var p := Ensure(v, log, writers, b.tag);
      if p.error.Some? then p
      else
        var log2 := p.log + [Write(b.tag, b.batch)];
        if v(log2).Some? then Populated(log2, p.writers, v(log2)) else Populate(v, log2, p.writers, bs[1..])
  }

  /** The tags of a set in tag order. */
  function InOrder(tags: seq<TypeTag>, writers: set<TypeTag>): seq<TypeTag> {
    if tags == [] then [] else (if tags[0] in writers then [tags[0]] else []) + InOrder(tags[1..], writers)
  }

  datatype Closed = Closed(log: seq<Event>, error: Option<ArrowError>)

  /** Every writer closed; the first error is kept. */
  function CloseAll(v: Oracle, log: seq<Event>, tags: seq<TypeTag>): Closed
    decreases |tags|
  {
    if tags == [] then Closed(log, None)
    else
      var log1 := log + [Close(tags[0])];
      var rest := CloseAll(v, log1, tags[1..]);
      Closed(rest.log, if v(log1).Some? then v(log1) else rest.error)
  }

  // ----- the driver -----

  class Backend {
    const oracle: Oracle
    var log: seq<Event>

    constructor (v: Oracle)
      ensures log == [] && oracle == v
    {
      oracle, log := v, [];
    }

    method Do(e: Event) returns (error: Option<ArrowError>)
      modifies this
      ensures log == old(log) + [e] && error == oracle(log)
    {
      log := log + [e];
      error := oracle(log);
    }
  }

  method EnsureWriter(out: Backend, writers: set<TypeTag>, tag: TypeTag) returns (p: Populated)
    modifies out
    ensures p == Ensure(out.oracle, old(out.log), writers, tag) && out.log == p.log
  {
    if tag in writers { return Populated(out.log, writers, None); }
    var failed := out.Do(Create(tag));
    if failed.Some? { return Populated(out.log, writers, failed); }
    failed := out.Do(Open(tag));
    if failed.Some? { return Populated(out.log, writers, failed); }
    p := Populated(out.log, writers + {tag}, None);
  }

  method PopulateAll(out: Backend, bs: seq<ArrowResult<TypedBatch>>) returns (p: Populated)
    modifies out
    ensures p == Populate(out.oracle, old(out.log), {}, bs) && out.log == p.log
  {
    hide Ensure;
    var writers: set<TypeTag> := {};
    var i := 0;
    assert bs[0..] == bs;
    while i < |bs|
      invariant 0 <= i <= |bs|
      invariant Populate(out.oracle, old(out.log), {}, bs) == Populate(out.oracle, out.log, writers, bs[i..])
    {
      assert bs[i..][0] == bs[i] && bs[i..][1..] == bs[i + 1..];
      if bs[i].Bad? { return Populated(out.log, writers, Some(bs[i].error)); }
      var b := bs[i].value;
      var made := EnsureWriter(out, writers, b.tag);
      writers := made.writers;
      if made.error.Some? { return made; }
      var failed := out.Do(Write(b.tag, b.batch));
      if failed.Some? { return Populated(out.log, writers, failed); }
      i := i + 1;
    }
    p := Populated(out.log, writers, None);
  }

  method CloseWriters(out: Backend, writers: set<TypeTag>) returns (firstError: Option<ArrowError>)
    modifies out
    ensures Closed(out.log, firstError) == CloseAll(out.oracle, old(out.log), InOrder(ALL, writers))
  {
    firstError := None;
    var tags := InOrder(ALL, writers);
    var i := 0;
    assert tags[0..] == tags;
    while i < |tags|
      invariant 0 <= i <= |tags|
      invariant var all := CloseAll(out.oracle, old(out.log), tags);
                var rest := CloseAll(out.oracle, out.log, tags[i..]);
                all == Closed(rest.log, if firstError.Some? then firstError else rest.error)
    {
      assert tags[i..][0] == tags[i] && tags[i..][1..] == tags[i + 1..];
      var failed := out.Do(Close(tags[i]));
      if failed.Some? {
        if firstError.None? { firstError := failed; }
      }
      i := i + 1;
    }
  }

  method RunWriterPipeline(out: Backend, bs: seq<ArrowResult<TypedBatch>>) returns (r: ArrowResult<()>)
    modifies out
    ensures var p := Populate(out.oracle, old(out.log), {}, bs);
            var c := CloseAll(out.oracle, p.log, InOrder(ALL, p.writers));
            && out.log == c.log
            && r == if p.error.Some? then Bad(p.error.value) else if c.error.Some? then Bad(c.error.value) else Fine(())
  {
    hide Populate, CloseAll;
    var p := PopulateAll(out, bs);
    var closing := CloseWriters(out, p.writers);
    if p.error.Some? { return Bad(p.error.value); }
    if closing.Some? { return Bad(closing.value); }
    r := Fine(());
  }

  // ----- what a run leaves behind -----

  function ClosesOf(log: seq<Event>): seq<TypeTag> {
    if log == [] then []
    else
      var last := log[|log| - 1];
      ClosesOf(log[..|log| - 1]) + if last.Close? then [last.tag] else []
  }

  function WritesOf(log: seq<Event>): seq<TypedBatch> {
    if log == [] then []
    else
      var last := log[|log| - 1];
      WritesOf(log[..|log| - 1]) + if last.Write? then [TypedBatch(last.tag, last.batch)] else []
  }

  /** The writers that entered the map: an open of the tag succeeded. */
  ghost predicate Entered(v: Oracle, log: seq<Event>, t: TypeTag) {
    exists i :: 0 <= i < |log| && log[i] == Open(t) && v(log[..i + 1]).None?
  }

  /** No event of the log failed. */
  ghost predicate AllWell(v: Oracle, log: seq<Event>) { forall i :: 0 < i <= |log| ==> v(log[..i]).None? }

  lemma {:induction false} Extend(v: Oracle, log: seq<Event>, e: Event)
    ensures var more := log + [e];
            && ClosesOf(more) == ClosesOf(log) + (if e.Close? then [e.tag] else [])
            && WritesOf(more) == WritesOf(log) + (if e.Write? then [TypedBatch(e.tag, e.batch)] else [])
    ensures AllWell(v, log + [e]) <==> AllWell(v, log) && v(log + [e]).None?
    ensures forall t :: Entered(v, log + [e], t) <==> Entered(v, log, t) || (e == Open(t) && v(log + [e]).None?)
  {
    var more := log + [e];
    assert more[..|log|] == log && more[..|more|] == more && more[|log|] == e;
    assert forall i :: 0 <= i <= |log| ==> more[..i] == log[..i];
    forall t
      ensures Entered(v, more, t) <==> Entered(v, log, t) || (e == Open(t) && v(more).None?)
    {
      if Entered(v, log, t) {
        var i :| 0 <= i < |log| && log[i] == Open(t) && v(log[..i + 1]).None?;
        assert more[i] == Open(t) && more[..i + 1] == log[..i + 1];
      }
      if e == Open(t) && v(more).None? { assert more[|log|] == Open(t) && more[..|log| + 1] == more; }
    }
  }

  /** The state between batches: all went well, nothing is closed, and the map holds exactly the
      writers that entered it. */
  ghost predicate Going(v: Oracle, log: seq<Event>, writers: set<TypeTag>) {
    AllWell(v, log) && ClosesOf(log) == [] && forall t :: t in writers <==> Entered(v, log, t)
  }

  lemma {:induction false} EnsureGoes(v: Oracle, log: seq<Event>, writers: set<TypeTag>, tag: TypeTag)
    requires Going(v, log, writers)
    ensures var p := Ensure(v, log, writers, tag);
            && WritesOf(p.log) == WritesOf(log) && ClosesOf(p.log) == []
            && (forall t :: t in p.writers <==> Entered(v, p.log, t))
            && (p.error.None? ==> AllWell(v, p.log) && tag in p.writers)
            && (p.error.Some? ==> |p.log| > 0 && v(p.log) == p.error && AllWell(v, p.log[..|p.log| - 1]))
  {
    hide AllWell, Entered, ClosesOf, WritesOf;
    if tag !in writers {
      var log1 := log + [Create(tag)];
      Extend(v, log, Create(tag));
      assert log1[..|log1| - 1] == log;
      if v(log1).None? {
        var log2 := log1 + [Open(tag)];
        Extend(v, log1, Open(tag));
        assert log2[..|log2| - 1] == log1;
      }
    }
  }

  /** What populating did when it stopped after `n` batches were handed to their writers: those
      batches in order, each to a writer of its tag; and if it stopped on an error, that error is the
      upstream's at that place, or that of the one event that failed, the last. */
  ghost predicate Stopped(v: Oracle, before: seq<TypedBatch>, p: Populated, bs: seq<ArrowResult<TypedBatch>>, n: nat) {
    && n <= |bs| && (forall i :: 0 <= i < n ==> bs[i].Fine?)
    && WritesOf(p.log) == before + seq(n, i requires 0 <= i < n => bs[i].value)
    && ClosesOf(p.log) == []
    && (forall t :: t in p.writers <==> Entered(v, p.log, t))
    && (match p.error
        case None => n == |bs| && AllWell(v, p.log)
        case Some(x) =>
          || (n < |bs| && bs[n] == Bad(x) && AllWell(v, p.log))
          || (|p.log| > 0 && v(p.log) == Some(x) && AllWell(v, p.log[..|p.log| - 1])))
  }

  lemma {:induction false} PopulateGoes(v: Oracle, log: seq<Event>, writers: set<TypeTag>,
      bs: seq<ArrowResult<TypedBatch>>)
    returns (n: nat)
    requires Going(v, log, writers)
    ensures Stopped(v, WritesOf(log), Populate(v, log, writers, bs), bs, n)
    decreases |bs|
  {
    hide AllWell, Entered, ClosesOf, WritesOf, Ensure;
    n := 0;
    if bs == [] || bs[0].Bad? {
      assert WritesOf(log) + [] == WritesOf(log);
    } else {
      var b := bs[0].value;
      var p := Ensure(v, log, writers, b.tag);
      EnsureGoes(v, log, writers, b.tag);
      if p.error.Some? {
        assert WritesOf(log) + [] == WritesOf(log);
      } else {
        var log2 := p.log + [Write(b.tag, b.batch)];
        Extend(v, p.log, Write(b.tag, b.batch));
        assert log2[..|log2| - 1] == p.log;
        assert TypedBatch(b.tag, b.batch) == b;
        if v(log2).Some? {
          n := 1;
          assert seq(1, i requires 0 <= i < 1 => bs[i].value) == [b];
        } else {
          var k := PopulateGoes(v, log2, p.writers, bs[1..]);
          n := k + 1;
          StoppedLater(v, WritesOf(log), b, Populate(v, log2, p.writers, bs[1..]), bs, k);
        }
      }
    }
  }

  lemma StoppedLater(
      v: Oracle, before: seq<TypedBatch>, b: TypedBatch, p: Populated, bs: seq<ArrowResult<TypedBatch>>, k: nat)
    requires bs != [] && bs[0] == Fine(b) && Stopped(v, before + [b], p, bs[1..], k)
    ensures Stopped(v, before, p, bs, k + 1)
  {
    hide AllWell, Entered, ClosesOf, WritesOf;
    FirstThen(bs, k);
    Batcher.Regroup(before, [b], seq(k, i requires 0 <= i < k => bs[1..][i].value));
  }

  lemma FirstThen(bs: seq<ArrowResult<TypedBatch>>, k: nat)
    requires k < |bs| && bs[0].Fine? && forall i :: 0 <= i < k ==> bs[1..][i].Fine?
    ensures forall i :: 0 <= i < k + 1 ==> bs[i].Fine?
    ensures seq(k + 1, i requires 0 <= i < k + 1 => bs[i].value)
            == [bs[0].value] + seq(k, i requires 0 <= i < k => bs[1..][i].value)
  {
    forall i | 0 <= i < k + 1
      ensures bs[i].Fine?
    {
      if i > 0 { assert bs[i] == bs[1..][i - 1]; }
    }
  }

  // ----- closing -----

  lemma {:induction false} CloseAllGoes(v: Oracle, log: seq<Event>, tags: seq<TypeTag>)
    ensures var c := CloseAll(v, log, tags);
            && ClosesOf(c.log) == ClosesOf(log) + tags
            && WritesOf(c.log) == WritesOf(log)
            && log <= c.log && |c.log| == |log| + |tags|
    ensures var c := CloseAll(v, log, tags);
            match c.error
            case None => forall i :: |log| < i <= |c.log| ==> v(c.log[..i]).None?
            case Some(x) =>
              exists k :: |log| < k <= |c.log| && v(c.log[..k]) == Some(x)
                          && forall i :: |log| < i < k ==> v(c.log[..i]).None?
    decreases |tags|
  {
    hide ClosesOf, WritesOf;
    if tags == [] {
      assert ClosesOf(log) + [] == ClosesOf(log);
    } else {
      var log1 := log + [Close(tags[0])];
      Extend(v, log, Close(tags[0]));
      CloseAllGoes(v, log1, tags[1..]);
      var c := CloseAll(v, log, tags);
      assert WritesOf(log) + [] == WritesOf(log);
      assert (ClosesOf(log) + [tags[0]]) + tags[1..] == ClosesOf(log) + tags;
      assert c.log[..|log1|] == log1;
    }
  }

  /** Tag order: exactly the tags of the writers, each once. */
  lemma {:induction false} InOrderExactly(tags: seq<TypeTag>, writers: set<TypeTag>)
    requires forall i, j :: 0 <= i < j < |tags| ==> tags[i] != tags[j]
    ensures var r := InOrder(tags, writers);
            && (forall t :: t in r <==> t in tags && t in writers)
            && (forall i, j :: 0 <= i < j < |r| ==> r[i] != r[j])
    decreases |tags|
  {
    if tags != [] {
      InOrderExactly(tags[1..], writers);
      assert forall t :: t in tags <==> t == tags[0] || t in tags[1..];
      assert tags[0] !in tags[1..];
    }
  }

  /** On every run, whatever fails: the batches before the first failure were written in order, each
      writer that entered the map is closed exactly once and no other is, in tag order and after all
      writes, and the closing goes on past close errors. */
  lemma EveryWriterClosedOnce(v: Oracle, bs: seq<ArrowResult<TypedBatch>>) returns (n: nat)
    ensures var p := Populate(v, [], {}, bs);
            var c := CloseAll(v, p.log, InOrder(ALL, p.writers));
            && Stopped(v, [], p, bs, n)
            && ClosesOf(c.log) == InOrder(ALL, p.writers) && WritesOf(c.log) == WritesOf(p.log) && p.log <= c.log
            && (forall t :: t in ClosesOf(c.log) <==> Entered(v, p.log, t))
            && (forall i, j :: 0 <= i < j < |ClosesOf(c.log)| ==> ClosesOf(c.log)[i] != ClosesOf(c.log)[j])
  {
    n := PopulateGoes(v, [], {}, bs);
    var p := Populate(v, [], {}, bs);
    AllOnce();
    InOrderExactly(ALL, p.writers);
    CloseAllGoes(v, p.log, InOrder(ALL, p.writers));
    hide Populate, CloseAll, InOrder, Entered, AllWell;
    assert WritesOf([]) == [] && ClosesOf([]) == [];
    assert [] + InOrder(ALL, p.writers) == InOrder(ALL, p.writers);
  }
}
