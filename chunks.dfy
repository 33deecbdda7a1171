/** The chunk planner: how a backfill time range is cut into one contiguous
    chunk per worker. Times are seconds; the planner's float arithmetic is
    taken as exact real arithmetic. */
module Chunks {

  /** The parallelism degree: at least one worker. */
  type Count = n: int | n >= 1 witness 1

  type Chunk = (real, real)

  /** Ranges no longer than this are scanned as a single chunk. */
  const MinChunkedDuration: real := 5.0

  /** The extension of the last chunk past the true end, in seconds. */
  const EndExtension: real := 1.0

  /** The start of chunk `i` when each chunk is `size` long: the planner's
      `current`, advanced by `size` once per chunk. */
  function Boundary(start: real, size: real, i: nat): real {
    if i == 0 then start else Boundary(start, size, i - 1) + size
  }

  lemma {:induction false} BoundaryIsLinear(start: real, size: real, i: nat)
    ensures Boundary(start, size, i) == start + (i as real) * size
  {
    if i > 0 {
      BoundaryIsLinear(start, size, i - 1);
    }
  }

  function ChunkSize(start: real, end: real, n: Count): real {
    (end - start) / (n as real)
  }

  /** Chunk `i` of a range longer than the minimum: the last one runs to one
      second past the end. */
  function PlanChunk(start: real, end: real, n: Count, i: nat): Chunk {
    var size := ChunkSize(start, end, n);
    (Boundary(start, size, i), if i == n - 1 then end + EndExtension else Boundary(start, size, i + 1))
  }

  /** The chunks of [start, end] for `n` workers. */
  function Plan(start: real, end: real, n: Count): (chunks: seq<Chunk>)
    ensures |chunks| >= 1 && chunks[0].0 == start
  {
    if end - start <= MinChunkedDuration then [(start, end)]
    else seq(n, i requires 0 <= i < n => PlanChunk(start, end, n, i))
  }

  /** Each chunk ends where the next one starts. */
  ghost predicate Contiguous(cs: seq<Chunk>) {
    forall i :: 0 <= i < |cs| - 1 ==> cs[i].1 == cs[i + 1].0
  }

  /** Every chunk has a positive length. */
  ghost predicate Proper(cs: seq<Chunk>) {
    forall i :: 0 <= i < |cs| ==> cs[i].0 < cs[i].1
  }

  /** A short range gives exactly the one chunk that is the range itself. */
  lemma PlanShort(start: real, end: real, n: Count)
    requires end - start <= MinChunkedDuration
    ensures Plan(start, end, n) == [(start, end)]
  {
  }

  /** The last chunk starts one share before the end. */
  lemma LastBoundary(start: real, end: real, n: Count)
    ensures Boundary(start, ChunkSize(start, end, n), n - 1) == end - ChunkSize(start, end, n)
  {
    var size := ChunkSize(start, end, n);
    BoundaryIsLinear(start, size, n - 1);
    assert (n as real) * size == end - start;
    assert ((n - 1) as real) * size == (n as real) * size - size;
  }

  /** A long range gives one chunk per worker: contiguous, each of positive
      length, from `start` to one second past `end`; every chunk is an equal
      share of the range, the last one stretched by the extra second. */
  lemma PlanLong(start: real, end: real, n: Count)
    requires end - start > MinChunkedDuration
    ensures var cs := Plan(start, end, n);
      && |cs| == n
      && cs[0].0 == start
      && cs[n - 1].1 == end + EndExtension
      && cs[n - 1].1 > end
      && Contiguous(cs)
      && Proper(cs)
      && (forall i :: 0 <= i < n - 1 ==> cs[i].1 - cs[i].0 == (end - start) / (n as real))
      && cs[n - 1].1 - cs[n - 1].0 == (end - start) / (n as real) + EndExtension
  {
    var cs := Plan(start, end, n);
    var size := ChunkSize(start, end, n);
    assert size > 0.0;
    forall i | 0 <= i < n - 1 ensures cs[i].1 == cs[i + 1].0 {
    }
    LastBoundary(start, end, n);
    forall i | 0 <= i < n ensures cs[i].0 < cs[i].1 {
      if i < n - 1 {
        assert cs[i].1 == Boundary(start, size, i) + size;
      }
    }
  }

  /** Every time in a contiguous chunk list's span falls in some chunk. */
  lemma {:induction false} ContiguousCovers(cs: seq<Chunk>, t: real) returns (i: nat)
    requires Contiguous(cs) && |cs| > 0
    requires cs[0].0 <= t < cs[|cs| - 1].1
    ensures i < |cs| && cs[i].0 <= t < cs[i].1
  {
    if t < cs[0].1 {
      i := 0;
    } else {
      var j := ContiguousCovers(cs[1..], t);
      i := j + 1;
    }
  }

  /** In a contiguous list of proper chunks, an earlier chunk ends no later
      than a later one starts: the chunks never overlap. */
  lemma {:induction false} ContiguousOrdered(cs: seq<Chunk>, i: nat, j: nat)
    requires Contiguous(cs) && Proper(cs)
    requires i < j < |cs|
    ensures cs[i].1 <= cs[j].0
    decreases j - i
  {
    if j > i + 1 {
      ContiguousOrdered(cs, i + 1, j);
    }
  }

  /** For a long range, every time from `start` through `end` lies in exactly
      one chunk, taking chunks as half-open intervals. */
  lemma PlanCoversOnce(start: real, end: real, n: Count, t: real) returns (i: nat)
    requires end - start > MinChunkedDuration
    requires start <= t <= end
    ensures var cs := Plan(start, end, n);
      && i < |cs| && cs[i].0 <= t < cs[i].1
      && forall j :: 0 <= j < |cs| && j != i ==> !(cs[j].0 <= t < cs[j].1)
  {
    var cs := Plan(start, end, n);
    PlanLong(start, end, n);
    i := ContiguousCovers(cs, t);
    forall j | 0 <= j < |cs| && j != i ensures !(cs[j].0 <= t < cs[j].1) {
      if j < i {
        ContiguousOrdered(cs, j, i);
      } else {
        ContiguousOrdered(cs, i, j);
      }
    }
  }
}
