/** The backfill workers: each chunk is scanned by seeking a fresh reader to
    the chunk's start and reading forward until an entry lies past the
    chunk's end. The pool that runs the scans is not modelled; what it
    delivers is the chunk results, concatenated in the order the chunks
    happen to finish. */
module ChunkScan {
  import opened Events
  import opened Translation
  import opened Journal
  import opened Chunks

  /** The entry is stamped at or after `t`. */
  predicate AtOrAfter(e: Entry, t: real) {
    TimeOf(e).Some? && TimeOf(e).value >= t
  }

  /** Where `seek_realtime(t)` lands: the first entry stamped at or after `t`. */
  function SeekIndex(log: seq<Entry>, t: real): (k: nat)
    ensures k <= |log|
    ensures forall j :: 0 <= j < k ==> !AtOrAfter(log[j], t)
    ensures k < |log| ==> AtOrAfter(log[k], t)
  {
    if log == [] then 0
    else if AtOrAfter(log[0], t) then 0
    else 1 + SeekIndex(log[1..], t)
  }

  /** The entries a fresh reader yields after `seek_realtime(t)`. */
  function SeekRealtime(log: seq<Entry>, t: real): seq<Entry> {
    log[SeekIndex(log, t)..]
  }

  /** Whether the scan of a chunk ending at `end` stops at entry `e`. The
      source stops only at an entry stamped strictly after the end (the
      chunk end is inclusive); `halfOpen` stops at the end itself. */
  predicate Stops(e: Entry, end: real, halfOpen: bool) {
    TimeOf(e).Some? && (if halfOpen then TimeOf(e).value >= end else TimeOf(e).value > end)
  }

  /** The index of the first entry the scan stops at, or the length. */
  function Cut(es: seq<Entry>, end: real, halfOpen: bool): (k: nat)
    ensures k <= |es|
    ensures forall j :: 0 <= j < k ==> !Stops(es[j], end, halfOpen)
    ensures k < |es| ==> Stops(es[k], end, halfOpen)
  {
    if es == [] then 0
    else if Stops(es[0], end, halfOpen) then 0
    else 1 + Cut(es[1..], end, halfOpen)
  }

  /** The events a chunk scan returns: the translations of the entries before
      the first one it stops at. */
  function ChunkEvents(es: seq<Entry>, end: real, halfOpen: bool, decode: Bytes -> string): seq<LogEvent> {
    TranslateAll(es[..Cut(es, end, halfOpen)], decode)
  }

  /** One worker's scan of the chunk [startTime, endTime]. `seekOk` is false
      when seeking the fresh reader to the chunk start fails. */
  method ProcessLogChunk(log: seq<Entry>, startTime: real, endTime: real, seekOk: bool, decode: Bytes -> string)
    returns (events: seq<LogEvent>)
    ensures !seekOk ==> events == []
    ensures seekOk ==> events == ChunkEvents(SeekRealtime(log, startTime), endTime, false, decode)
  {
    events := [];
    if !seekOk {
      return;
    }
    var entries := SeekRealtime(log, startTime);
    ghost var cut := Cut(entries, endTime, false);
    var i := 0;
    while i < |entries|
      invariant i <= cut
      invariant events == TranslateAll(entries[..i], decode)
    {
      var entry := entries[i];
      var timestamp := TimeOf(entry);
      if timestamp.Some? && timestamp.value > endTime {
        assert Stops(entry, endTime, false);
        assert i == cut;
        break;
      }
      assert !Stops(entries[i], endTime, false);
      assert i < cut;
      var ev := EntryToEvent(entry, decode);
      if ev.Some? {
        events := events + [ev.value];
      }
      TranslateAllStep(entries, i, decode);
      i := i + 1;
    }
    assert i == cut;
  }

  function Flatten<T>(rs: seq<seq<T>>): seq<T> {
    if rs == [] then [] else rs[0] + Flatten(rs[1..])
  }

  lemma {:induction false} FlattenConcat<T>(a: seq<seq<T>>, b: seq<seq<T>>)
    ensures Flatten(a + b) == Flatten(a) + Flatten(b)
  {
    if a != [] {
      assert (a + b)[1..] == a[1..] + b;
      FlattenConcat(a[1..], b);
    } else {
      assert a + b == b;
    }
  }

  /** The results listed in the order given by the chunk indices `order`. */
  function Reorder<T>(rs: seq<seq<T>>, order: seq<nat>): seq<seq<T>>
    requires forall i :: 0 <= i < |order| ==> order[i] < |rs|
  {
    seq(|order|, i requires 0 <= i < |order| => rs[order[i]])
  }

  function Range(n: nat): seq<nat> {
    seq(n, i requires 0 <= i < n => i)
  }

  /** `order` lists every chunk index below `n` exactly once. */
  ghost predicate IsPermutation(order: seq<nat>, n: nat) {
    (forall i :: 0 <= i < |order| ==> order[i] < n) && multiset(order) == multiset(Range(n))
  }

  /** Taking out the occurrence at `k` of an index sequence takes out that
      chunk's result. */
  lemma FlattenReorderRemove<T>(rs: seq<seq<T>>, q: seq<nat>, k: nat)
    requires forall i :: 0 <= i < |q| ==> q[i] < |rs|
    requires k < |q|
    ensures multiset(Flatten(Reorder(rs, q)))
         == multiset(rs[q[k]]) + multiset(Flatten(Reorder(rs, q[..k] + q[k + 1..])))
  {
    var left, right := Reorder(rs, q[..k]), Reorder(rs, q[k + 1..]);
    assert Reorder(rs, q) == left + [rs[q[k]]] + right;
    assert Reorder(rs, q[..k] + q[k + 1..]) == left + right;
    FlattenConcat(left + [rs[q[k]]], right);
    FlattenConcat(left, [rs[q[k]]]);
    FlattenConcat(left, right);
    assert Flatten([rs[q[k]]]) == rs[q[k]] + Flatten<T>([]);
  }

  lemma MultisetRemove(p: seq<nat>, q: seq<nat>, k: nat)
    requires p != [] && k < |q| && q[k] == p[0]
    requires multiset(p) == multiset(q)
    ensures multiset(p[1..]) == multiset(q[..k] + q[k + 1..])
  {
    assert p == [p[0]] + p[1..];
    assert q == q[..k] + [q[k]] + q[k + 1..];
    calc {
      multiset(p[1..]);
      multiset(p) - multiset([p[0]]);
      multiset(q) - multiset([q[k]]);
      multiset(q[..k]) + multiset(q[k + 1..]);
      multiset(q[..k] + q[k + 1..]);
    }
  }

  lemma {:induction false} ReorderSameIndices<T>(rs: seq<seq<T>>, p: seq<nat>, q: seq<nat>)
    requires forall i :: 0 <= i < |p| ==> p[i] < |rs|
    requires forall i :: 0 <= i < |q| ==> q[i] < |rs|
    requires multiset(p) == multiset(q)
    ensures multiset(Flatten(Reorder(rs, p))) == multiset(Flatten(Reorder(rs, q)))
    decreases |p|
  {
    if p == [] {
      assert |q| == |multiset(q)| == 0;
    } else {
      assert p[0] in multiset(q);
      var k :| 0 <= k < |q| && q[k] == p[0];
      MultisetRemove(p, q, k);
      FlattenReorderRemove(rs, p, 0);
      FlattenReorderRemove(rs, q, k);
      assert p[..0] + p[1..] == p[1..];
      ReorderSameIndices(rs, p[1..], q[..k] + q[k + 1..]);
    }
  }

  /** Whatever order the chunks finish in, the same events arrive, each as
      often. */
  lemma CompletionOrderIrrelevant<T>(rs: seq<seq<T>>, order: seq<nat>)
    requires IsPermutation(order, |rs|)
    ensures multiset(Flatten(Reorder(rs, order))) == multiset(Flatten(rs))
  {
    assert Reorder(rs, Range(|rs|)) == rs;
    ReorderSameIndices(rs, order, Range(|rs|));
  }

  /** What the worker for chunk `c` returns when its seek succeeds. */
  function ChunkResult(log: seq<Entry>, c: Chunk, halfOpen: bool, decode: Bytes -> string): seq<LogEvent> {
    ChunkEvents(SeekRealtime(log, c.0), c.1, halfOpen, decode)
  }

  /** The result of every chunk's scan, in chunk order. */
  function ChunkResults(log: seq<Entry>, cs: seq<Chunk>, halfOpen: bool, decode: Bytes -> string): seq<seq<LogEvent>> {
    seq(|cs|, i requires 0 <= i < |cs| => ChunkResult(log, cs[i], halfOpen, decode))
  }

  /** What each worker returns: the scan of its chunk when its realtime seek
      succeeds (`seekOk[i]`), and nothing when the seek fails. */
  function WorkerResults(log: seq<Entry>, cs: seq<Chunk>, seekOk: seq<bool>, halfOpen: bool, decode: Bytes -> string): seq<seq<LogEvent>>
    requires |seekOk| == |cs|
  {
    seq(|cs|, i requires 0 <= i < |cs| => if seekOk[i] then ChunkResult(log, cs[i], halfOpen, decode) else [])
  }

  /** Every worker's seek succeeds. */
  function AllSucceed(n: nat): seq<bool> {
    seq(n, _ => true)
  }

  /** When every seek succeeds, each worker returns its chunk's scan. */
  lemma AllSeeksSucceed(log: seq<Entry>, cs: seq<Chunk>, halfOpen: bool, decode: Bytes -> string)
    ensures WorkerResults(log, cs, AllSucceed(|cs|), halfOpen, decode) == ChunkResults(log, cs, halfOpen, decode)
  {
  }

  /** Everything a backfill run pushes when its workers' seeks succeed as
      `seekOk` says and the chunks finish in `order`. */
  function Backfill(log: seq<Entry>, cs: seq<Chunk>, seekOk: seq<bool>, order: seq<nat>, halfOpen: bool, decode: Bytes -> string): (r: seq<LogEvent>)
    requires |seekOk| == |cs|
    requires forall i :: 0 <= i < |order| ==> order[i] < |cs|
    ensures IsPermutation(order, |cs|) ==> multiset(r) == multiset(Flatten(WorkerResults(log, cs, seekOk, halfOpen, decode)))
  {
    var rs := WorkerResults(log, cs, seekOk, halfOpen, decode);
    assert IsPermutation(order, |cs|) ==> multiset(Flatten(Reorder(rs, order))) == multiset(Flatten(rs)) by {
      if IsPermutation(order, |cs|) {
        CompletionOrderIrrelevant(rs, order);
      }
    }
    Flatten(Reorder(rs, order))
  }

  /** A half-open scan of [s, e) returns the translations of the entries from
      the seek to `s` up to the seek to `e`. */
  lemma HalfOpenScanIsWindow(log: seq<Entry>, s: real, e: real, decode: Bytes -> string)
    requires s <= e
    ensures SeekIndex(log, s) <= SeekIndex(log, e)
    ensures ChunkEvents(SeekRealtime(log, s), e, true, decode) == TranslateAll(log[SeekIndex(log, s)..SeekIndex(log, e)], decode)
  {
    var a, b := SeekIndex(log, s), SeekIndex(log, e);
    var es := log[a..];
    var c := Cut(es, e, true);
    assert c == b - a;
    assert es[..c] == log[a..b];
  }

  lemma ChunkResultsTail(log: seq<Entry>, cs: seq<Chunk>, halfOpen: bool, decode: Bytes -> string)
    requires |cs| > 0
    ensures var rs := ChunkResults(log, cs, halfOpen, decode);
      Flatten(rs) == ChunkResult(log, cs[0], halfOpen, decode) + Flatten(ChunkResults(log, cs[1..], halfOpen, decode))
  {
    var rs := ChunkResults(log, cs, halfOpen, decode);
    assert rs[1..] == ChunkResults(log, cs[1..], halfOpen, decode);
  }

  lemma ContiguousTail(cs: seq<Chunk>)
    requires Contiguous(cs) && |cs| > 1
    requires forall i :: 0 <= i < |cs| ==> cs[i].0 <= cs[i].1
    ensures Contiguous(cs[1..]) && cs[1..][0].0 == cs[0].1 && cs[1..][|cs| - 2] == cs[|cs| - 1]
    ensures forall i :: 0 <= i < |cs| - 1 ==> cs[1..][i].0 <= cs[1..][i].1
  {
    assert forall i :: 0 <= i < |cs| - 1 ==> cs[1..][i] == cs[i + 1];
  }

  lemma WindowConcat(log: seq<Entry>, a: nat, b: nat, c: nat, decode: Bytes -> string)
    requires a <= b <= c <= |log|
    ensures TranslateAll(log[a..b], decode) + TranslateAll(log[b..c], decode) == TranslateAll(log[a..c], decode)
  {
    TranslateAllConcat(log[a..b], log[b..c], decode);
    assert log[a..b] + log[b..c] == log[a..c];
  }

  /** Half-open scans of contiguous chunks, taken in chunk order, return the
      translations of the entries from the seek to the first chunk's start up
      to the seek to the last chunk's end: each entry once, none skipped. */
  lemma {:induction false} ContiguousScan(log: seq<Entry>, cs: seq<Chunk>, decode: Bytes -> string)
    requires Contiguous(cs) && |cs| > 0
    requires forall i :: 0 <= i < |cs| ==> cs[i].0 <= cs[i].1
    ensures SeekIndex(log, cs[0].0) <= SeekIndex(log, cs[|cs| - 1].1)
    ensures Flatten(ChunkResults(log, cs, true, decode))
         == TranslateAll(log[SeekIndex(log, cs[0].0)..SeekIndex(log, cs[|cs| - 1].1)], decode)
  {
    HalfOpenScanIsWindow(log, cs[0].0, cs[0].1, decode);
    ChunkResultsTail(log, cs, true, decode);
    var a0, a1 := SeekIndex(log, cs[0].0), SeekIndex(log, cs[0].1);
    if |cs| == 1 {
      assert cs[1..] == [];
      assert ChunkResults(log, cs[1..], true, decode) == [];
    } else {
      ContiguousTail(cs);
      ContiguousScan(log, cs[1..], decode);
      WindowConcat(log, a0, a1, SeekIndex(log, cs[|cs| - 1].1), decode);
    }
  }

  /** The plan the backfill would need for its scans to be half-open: the
      source's plan, except that the last chunk runs to one second past the
      end for short ranges as well. */
  function CoveringPlan(start: real, end: real, n: Count): (cs: seq<Chunk>)
    ensures |cs| >= 1 && cs[0].0 == start && cs[|cs| - 1].1 == end + EndExtension
  {
    if end - start <= MinChunkedDuration then [(start, end + EndExtension)]
    else
      PlanLong(start, end, n);
      Plan(start, end, n)
  }

  /** With half-open scans over the covering plan and every seek
      succeeding, a backfill run started on a range with start < end delivers the translation of every entry from
      the seek to `start` up to the seek to one second past `end` exactly
      once, whatever order the chunks finish in. */
  lemma BackfillExactlyOnce(log: seq<Entry>, start: real, end: real, n: Count, order: seq<nat>, decode: Bytes -> string)
    requires start < end
    requires IsPermutation(order, |CoveringPlan(start, end, n)|)
    ensures SeekIndex(log, start) <= SeekIndex(log, end + EndExtension)
    ensures multiset(Backfill(log, CoveringPlan(start, end, n), AllSucceed(|CoveringPlan(start, end, n)|), order, true, decode))
         == multiset(TranslateAll(log[SeekIndex(log, start)..SeekIndex(log, end + EndExtension)], decode))
  {
    var cs := CoveringPlan(start, end, n);
    if end - start > MinChunkedDuration {
      PlanLong(start, end, n);
    }
    ContiguousScan(log, cs, decode);
    AllSeeksSucceed(log, cs, true, decode);
    CompletionOrderIrrelevant(ChunkResults(log, cs, true, decode), order);
  }

  /** Every entry carries a timestamp and the timestamps never decrease. */
  ghost predicate Sorted(log: seq<Entry>) {
    && (forall i :: 0 <= i < |log| ==> TimeOf(log[i]).Some?)
    && (forall i, j :: 0 <= i <= j < |log| ==> TimeOf(log[i]).value <= TimeOf(log[j]).value)
  }

  /** In a journal whose timestamps are in order, the entries between the seek
      to `s` and the seek to `e` are exactly those stamped in [s, e). */
  lemma SortedWindow(log: seq<Entry>, s: real, e: real, i: nat)
    requires Sorted(log) && s <= e && i < |log|
    ensures SeekIndex(log, s) <= i < SeekIndex(log, e) <==> s <= TimeOf(log[i]).value < e
  {
    var a, b := SeekIndex(log, s), SeekIndex(log, e);
    if a <= i {
      assert a < |log| && TimeOf(log[a]).value <= TimeOf(log[i]).value;
    }
    if i >= b && b < |log| {
      assert TimeOf(log[b]).value <= TimeOf(log[i]).value;
    }
  }

  /** Three entries stamped at 0, 5 and 10 seconds. */
  const EntryAt0: Entry := map[MessageField := VStr("started"), TimestampField := VTime(0.0)]
  const EntryAt5: Entry := map[MessageField := VStr("booted"), TimestampField := VTime(5.0)]
  const EntryAt10: Entry := map[MessageField := VStr("stopped"), TimestampField := VTime(10.0)]
  const BoundaryLog: seq<Entry> := [EntryAt0, EntryAt5, EntryAt10]

  /** Entry `e` is stamped `t` and produces an event. */
  ghost predicate StampedEvent(e: Entry, t: real, decode: Bytes -> string) {
    TimeOf(e) == Some(t) && EntryToEvent(e, decode).Some?
  }

  /** Two entries that both produce events give those two events. */
  lemma TranslatePair(a: Entry, b: Entry, decode: Bytes -> string)
    requires EntryToEvent(a, decode).Some? && EntryToEvent(b, decode).Some?
    ensures TranslateAll([a, b], decode) == [EntryToEvent(a, decode).value, EntryToEvent(b, decode).value]
  {
    TranslateAllSingle(a, decode);
    TranslateAllStep([a, b], 1, decode);
    assert [a, b][..1] == [a];
    assert [a, b][..2] == [a, b];
  }

  /** The as-written scan of [0, 5] over entries stamped 0, 5 and 10: the
      first two. */
  lemma FirstChunkScan(a: Entry, b: Entry, c: Entry, decode: Bytes -> string)
    requires StampedEvent(a, 0.0, decode) && StampedEvent(b, 5.0, decode) && StampedEvent(c, 10.0, decode)
    ensures ChunkResult([a, b, c], (0.0, 5.0), false, decode)
         == [EntryToEvent(a, decode).value, EntryToEvent(b, decode).value]
  {
    var log := [a, b, c];
    assert SeekIndex(log, 0.0) == 0;
    assert Cut(log, 5.0, false) == 2 by {
      assert !Stops(log[0], 5.0, false) && !Stops(log[1], 5.0, false) && Stops(log[2], 5.0, false);
    }
    assert log[..2] == [a, b];
    TranslatePair(a, b, decode);
  }

  /** The as-written scan of [5, 11] over the same entries: the last two. */
  lemma SecondChunkScan(a: Entry, b: Entry, c: Entry, decode: Bytes -> string)
    requires StampedEvent(a, 0.0, decode) && StampedEvent(b, 5.0, decode) && StampedEvent(c, 10.0, decode)
    ensures ChunkResult([a, b, c], (5.0, 11.0), false, decode)
         == [EntryToEvent(b, decode).value, EntryToEvent(c, decode).value]
  {
    var log := [a, b, c];
    assert SeekIndex(log, 5.0) == 1 by {
      assert !AtOrAfter(log[0], 5.0) && AtOrAfter(log[1], 5.0);
    }
    var second := log[1..];
    assert second == [b, c];
    assert Cut(second, 11.0, false) == 2 by {
      assert !Stops(second[0], 11.0, false) && !Stops(second[1], 11.0, false);
    }
    assert second[..2] == second;
    TranslatePair(b, c, decode);
  }

  /** Two workers on [0, 10] get the chunks [0, 5] and [5, 11]. */
  lemma TwoWorkerPlan()
    ensures Plan(0.0, 10.0, 2) == [(0.0, 5.0), (5.0, 11.0)]
  {
    var cs := Plan(0.0, 10.0, 2);
    assert Boundary(0.0, 5.0, 1) == 5.0;
    assert cs[0] == PlanChunk(0.0, 10.0, 2, 0);
    assert cs[1] == PlanChunk(0.0, 10.0, 2, 1);
  }

  /** Two chunks finishing in chunk order push the first result, then the
      second. */
  lemma InChunkOrder<T>(rs: seq<seq<T>>)
    requires |rs| == 2
    ensures Flatten(Reorder(rs, [0, 1])) == rs[0] + rs[1]
  {
    assert Reorder(rs, [0, 1]) == rs;
    assert rs[1..][1..] == [];
    assert Flatten(rs[1..]) == rs[1] + Flatten(rs[1..][1..]);
    assert rs[1] + [] == rs[1];
  }

  /** A backfill of two chunks, both seeks succeeding, finishing in chunk
      order pushes the first chunk's scan, then the second's. */
  lemma TwoChunksInOrder(log: seq<Entry>, cs: seq<Chunk>, halfOpen: bool, decode: Bytes -> string)
    requires |cs| == 2
    ensures Backfill(log, cs, AllSucceed(2), [0, 1], halfOpen, decode)
         == ChunkResult(log, cs[0], halfOpen, decode) + ChunkResult(log, cs[1], halfOpen, decode)
  {
    var rs := WorkerResults(log, cs, AllSucceed(2), halfOpen, decode);
    assert rs[0] == ChunkResult(log, cs[0], halfOpen, decode);
    assert rs[1] == ChunkResult(log, cs[1], halfOpen, decode);
    InChunkOrder(rs);
  }

  /** The as-written backfill of [0, 10] with two workers over entries
      stamped 0, 5 and 10 delivers the middle entry twice. */
  lemma BoundaryScannedTwice(a: Entry, b: Entry, c: Entry, decode: Bytes -> string)
    requires StampedEvent(a, 0.0, decode) && StampedEvent(b, 5.0, decode) && StampedEvent(c, 10.0, decode)
    ensures var ea, eb, ec := EntryToEvent(a, decode).value, EntryToEvent(b, decode).value, EntryToEvent(c, decode).value;
      Backfill([a, b, c], Plan(0.0, 10.0, 2), AllSucceed(2), [0, 1], false, decode) == [ea, eb, eb, ec]
  {
    TwoWorkerPlan();
    TwoChunksInOrder([a, b, c], Plan(0.0, 10.0, 2), false, decode);
    FirstChunkScan(a, b, c, decode);
    SecondChunkScan(a, b, c, decode);
  }

  /** As written, the scan of a chunk includes its end, while the next chunk's
      seek includes its start: with two workers on [0, 10] (the range ALL
      mode picks for `BoundaryLog`) the chunks are [0, 5] and [5, 11], and
      the entry stamped 5 is delivered twice. */
  lemma BoundaryEntryScannedTwice(decode: Bytes -> string)
    ensures Plan(0.0, 10.0, 2) == [(0.0, 5.0), (5.0, 11.0)]
    ensures var e0, e5, e10 := EntryToEvent(EntryAt0, decode), EntryToEvent(EntryAt5, decode), EntryToEvent(EntryAt10, decode);
      && e0.Some? && e5.Some? && e10.Some?
      && Backfill(BoundaryLog, Plan(0.0, 10.0, 2), AllSucceed(2), [0, 1], false, decode)
         == [e0.value, e5.value, e5.value, e10.value]
  {
    TwoWorkerPlan();
    assert StampedEvent(EntryAt0, 0.0, decode);
    assert StampedEvent(EntryAt5, 5.0, decode);
    assert StampedEvent(EntryAt10, 10.0, decode);
    BoundaryScannedTwice(EntryAt0, EntryAt5, EntryAt10, decode);
  }
}
