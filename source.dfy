/** The systemd journal source: scan-range selection, live-tail positioning
    and cursor tracking, the bounded history queue drained by `Poll`, and
    cursor persistence across a stop and a later start. */
module Source {
  import opened Events
  import opened Translation
  import opened Journal
  import opened Chunks
  import opened Checkpoint
  import ChunkScan

  /** How far back the backfill reaches. */
  datatype TimePeriod = All | Boot | Now | Custom

  /** The bound of the history queue; the backfill's push blocks when full. */
  const HistoryCapacity: nat := 200

  /** At most this many history events are handed out per poll. */
  const HistoryBatchSize: nat := 100

  /** The backfill range a scan mode resolves to, and the reader afterwards. */
  datatype ScanRange = ScanRange(start: Option<real>, end: Option<real>, reader: Reader)

  /** `scan_start and scan_end and scan_start < scan_end`: the backfill runs.
      Whenever it does, the supervisor's own early exit
      (`not start or not end or start >= end`) does not fire. */
  function LaunchesBackfill(start: Option<real>, end: Option<real>): (b: bool)
    ensures b <==> !(start.None? || end.None? || start.value >= end.value)
  {
    start.Some? && end.Some? && start.value < end.value
  }

  /** The live reader's position in its view and the cursor after positioning:
      resume at the entry the stored cursor names, or else go to the tail and
      take the cursor of the last entry, if there is one. */
  function Position(view: seq<Entry>, cursor: Option<string>): (p: (nat, Option<string>))
    ensures p.0 <= |view|
    ensures p.0 < |view| ==> cursor.Some? && CursorOf(view[p.0]) == cursor && p.1 == cursor
    ensures cursor.Some? && cursor.value != [] && FindCursor(view, cursor.value).Some?
            ==> p == (FindCursor(view, cursor.value).value, cursor)
    ensures !(cursor.Some? && cursor.value != [] && FindCursor(view, cursor.value).Some?)
            ==> p.0 == |view|
                && p.1 == if view != [] && view[|view| - 1] != map[] then CursorOf(view[|view| - 1]) else cursor
  {
    if cursor.Some? && cursor.value != [] && FindCursor(view, cursor.value).Some? then
      (FindCursor(view, cursor.value).value, cursor)
    else
      var last := LastEntry(view);
      (|view|, if last != map[] then CursorOf(last) else cursor)
  }

  /** The cursor after the live loop has read `es`: the cursor of the last
      entry that produced an event. */
  function AdvanceCursor(es: seq<Entry>, cursor: Option<string>, decode: Bytes -> string): Option<string>
  {
    if es == [] then cursor
    else
      var last := es[|es| - 1];
      if EntryToEvent(last, decode).Some? then CursorOf(last)
      else AdvanceCursor(es[..|es| - 1], cursor, decode)
  }

  /** A cursor that moved was taken from an entry that produced an event:
      the cursor is never set from an entry that was skipped. */
  lemma {:induction false} AdvanceCursorOrigin(es: seq<Entry>, cursor: Option<string>, decode: Bytes -> string) returns (i: nat)
    requires AdvanceCursor(es, cursor, decode) != cursor
    ensures i < |es| && EntryToEvent(es[i], decode).Some? && AdvanceCursor(es, cursor, decode) == CursorOf(es[i])
  {
    if EntryToEvent(es[|es| - 1], decode).Some? {
      i := |es| - 1;
    } else {
      var es' := es[..|es| - 1];
      i := AdvanceCursorOrigin(es', cursor, decode);
      assert es[i] == es'[i];
    }
  }

  /** While no entry produces an event the cursor stays put. */
  lemma {:induction false} AdvanceCursorUnmoved(es: seq<Entry>, cursor: Option<string>, decode: Bytes -> string)
    requires forall i :: 0 <= i < |es| ==> EntryToEvent(es[i], decode).None?
    ensures AdvanceCursor(es, cursor, decode) == cursor
  {
    if es != [] {
      var es' := es[..|es| - 1];
      assert forall i :: 0 <= i < |es'| ==> es'[i] == es[i];
      AdvanceCursorUnmoved(es', cursor, decode);
    }
  }

  /** The cursor ends at that of the last entry that produced an event;
      entries without an event after it do not move it. */
  lemma {:induction false} AdvanceCursorLastProducer(es: seq<Entry>, cursor: Option<string>, decode: Bytes -> string, k: nat)
    requires k < |es| && EntryToEvent(es[k], decode).Some?
    requires forall j :: k < j < |es| ==> EntryToEvent(es[j], decode).None?
    ensures AdvanceCursor(es, cursor, decode) == CursorOf(es[k])
  {
    if k < |es| - 1 {
      var es' := es[..|es| - 1];
      assert forall j :: k < j < |es'| ==> es'[j] == es[j];
      AdvanceCursorLastProducer(es', cursor, decode, k);
    }
  }

  /** Reading one more entry moves the cursor to it iff it produces an event. */
  lemma AdvanceCursorStep(es: seq<Entry>, i: nat, cursor: Option<string>, decode: Bytes -> string)
    requires i < |es|
    ensures AdvanceCursor(es[..i + 1], cursor, decode)
         == if EntryToEvent(es[i], decode).Some? then CursorOf(es[i]) else AdvanceCursor(es[..i], cursor, decode)
  {
    assert es[..i + 1][..i] == es[..i];
  }

  /** How many history events one poll drains from a queue of `n`. */
  function DrainCount(n: nat): nat {
    if n < HistoryBatchSize then n else HistoryBatchSize
  }

  /** Entry `k` is the first entry of the view that carries its cursor. */
  ghost predicate FirstWithCursor(view: seq<Entry>, k: nat)
    requires k < |view|
  {
    forall j :: 0 <= j < k ==> CursorOf(view[j]) != CursorOf(view[k])
  }

  /** A start without a usable cursor tails the journal: the live path then
      yields exactly the entries appended afterwards, never the history. */
  lemma StartTailsOnlyNewEntries(log: seq<Entry>, more: seq<Entry>, boot: Option<Value>, cursor: Option<string>)
    requires cursor.None? || cursor.value == []
    ensures Available(log + more, Reader(boot, Position(View(log, boot), cursor).0)) == View(more, boot)
  {
    ViewAppend(log, more, boot);
    var v := View(log, boot);
    assert (v + View(more, boot))[|v|..] == View(more, boot);
  }

  /** Seeking to an entry's cursor lands on that entry when no earlier
      entry carries the same cursor. */
  lemma SeekOwnCursor(view: seq<Entry>, k: nat)
    requires k < |view| && CursorOf(view[k]).Some?
    requires FirstWithCursor(view, k)
    ensures FindCursor(view, CursorOf(view[k]).value) == Some(k)
  {
  }

  /** Reading on from the last entry that produced an event yields that
      entry's event once and then only the events of what follows. */
  lemma ResumeAtLastProducer(view: seq<Entry>, more: seq<Entry>, k: nat, decode: Bytes -> string)
    requires k < |view| && EntryToEvent(view[k], decode).Some?
    requires forall j :: k < j < |view| ==> EntryToEvent(view[j], decode).None?
    ensures TranslateAll((view + more)[k..], decode)
            == [EntryToEvent(view[k], decode).value] + TranslateAll(more, decode)
  {
    var rest := view[k + 1..];
    forall j | 0 <= j < |rest| ensures EntryToEvent(rest[j], decode).None? {
      assert rest[j] == view[k + 1 + j];
    }
    TranslateAllEmpty(rest, decode);
    assert (view + more)[k..] == [view[k]] + (rest + more);
    SilentRunSkipped(view[k], rest, more, decode);
    assert OptionToSeq(EntryToEvent(view[k], decode)) == [EntryToEvent(view[k], decode).value];
  }

  /** A start after saving the cursor of entry `k` positions the live reader
      on entry `k` and keeps that cursor, when no earlier entry shares it. */
  lemma ResumePosition(view: seq<Entry>, k: nat, file: Option<string>)
    requires k < |view| && CursorOf(view[k]).Some? && CursorOf(view[k]).value != [] && IsStripped(CursorOf(view[k]).value)
    requires FirstWithCursor(view, k)
    ensures var c := CursorOf(view[k]);
      Position(view, LoadCursor(SavedCursor(file, c, true))) == (k, c)
  {
    var c := CursorOf(view[k]);
    SaveThenLoad(file, c.value);
    SeekOwnCursor(view, k);
  }

  /** The restart round trip within one reader's view: the journal grew
      from `view` to `view + newer`, and the cursor saved at stop is that of
      entry `k`, the last entry of `view` that produced an event. */
  lemma ResumeInView(view: seq<Entry>, newer: seq<Entry>, k: nat, file: Option<string>, decode: Bytes -> string)
    requires k < |view|
    requires EntryToEvent(view[k], decode).Some?
    requires forall j :: k < j < |view| ==> EntryToEvent(view[j], decode).None?
    requires CursorOf(view[k]).Some? && CursorOf(view[k]).value != [] && IsStripped(CursorOf(view[k]).value)
    requires FirstWithCursor(view, k)
    ensures var c := CursorOf(view[k]);
      && Position(view + newer, LoadCursor(SavedCursor(file, c, true))) == (k, c)
      && TranslateAll((view + newer)[k..], decode) == [EntryToEvent(view[k], decode).value] + TranslateAll(newer, decode)
  {
    assert forall j :: 0 <= j <= k ==> (view + newer)[j] == view[j];
    ResumePosition(view + newer, k, file);
    ResumeAtLastProducer(view, newer, k, decode);
  }

  /** The resume the cursor round trip intends: the saved cursor names the
      last entry already delivered, so the reader resumes just past it
      (`seek_cursor` followed by one `get_next`). The tail fallback and the
      cursor are those of `Position`. */
  function PositionAfterCursor(view: seq<Entry>, cursor: Option<string>): (p: (nat, Option<string>))
    ensures p.0 <= |view|
    ensures p.1 == Position(view, cursor).1
    ensures cursor.Some? && cursor.value != [] && FindCursor(view, cursor.value).Some?
            ==> p.0 == Position(view, cursor).0 + 1
    ensures !(cursor.Some? && cursor.value != [] && FindCursor(view, cursor.value).Some?)
            ==> p == Position(view, cursor)
  {
    var q := Position(view, cursor);
    if cursor.Some? && cursor.value != [] && FindCursor(view, cursor.value).Some? then (q.0 + 1, q.1) else q
  }

  /** Past the last entry that produced an event, only what follows yields
      events. */
  lemma SilentAfterLastProducer(view: seq<Entry>, more: seq<Entry>, k: nat, decode: Bytes -> string)
    requires k < |view|
    requires forall j :: k < j < |view| ==> EntryToEvent(view[j], decode).None?
    ensures TranslateAll((view + more)[k + 1..], decode) == TranslateAll(more, decode)
  {
    var rest := view[k + 1..];
    assert TranslateAll(rest, decode) == [] by {
      forall j | 0 <= j < |rest| ensures EntryToEvent(rest[j], decode).None? {
        assert rest[j] == view[k + 1 + j];
      }
      TranslateAllEmpty(rest, decode);
    }
    assert (view + more)[k + 1..] == rest + more;
    TranslateAllConcat(rest, more, decode);
  }

  /** The corrected resume within one reader's view grown by `newer`: the
      reader lands just past the saved entry, which keeps its cursor. */
  lemma ResumePastInView(view: seq<Entry>, newer: seq<Entry>, k: nat, file: Option<string>)
    requires k < |view|
    requires CursorOf(view[k]).Some? && CursorOf(view[k]).value != [] && IsStripped(CursorOf(view[k]).value)
    requires FirstWithCursor(view, k)
    ensures var c := CursorOf(view[k]);
      PositionAfterCursor(view + newer, LoadCursor(SavedCursor(file, c, true))) == (k + 1, c)
  {
    assert forall j :: 0 <= j <= k ==> (view + newer)[j] == view[j];
    ResumePosition(view + newer, k, file);
    SeekOwnCursor(view + newer, k);
  }

  /** Cursor round trip with the corrected resume: under the same history as
      `ResumeAfterRestart`, the second lifetime resumes just past entry `k`,
      and its first poll delivers exactly the events of the new entries,
      nothing read before the stop. */
  lemma ResumeExactlyNew(log: seq<Entry>, more: seq<Entry>, boot: Option<Value>, k: nat,
                         file: Option<string>, decode: Bytes -> string)
    requires k < |View(log, boot)|
    requires var view := View(log, boot);
      && EntryToEvent(view[k], decode).Some?
      && (forall j :: k < j < |view| ==> EntryToEvent(view[j], decode).None?)
      && CursorOf(view[k]).Some? && CursorOf(view[k]).value != [] && IsStripped(CursorOf(view[k]).value)
    requires FirstWithCursor(View(log, boot), k)
    ensures var view := View(log, boot);
      var c := CursorOf(view[k]);
      var p := PositionAfterCursor(View(log + more, boot), LoadCursor(SavedCursor(file, c, true)));
      && p == (k + 1, c)
      && TranslateAll(Available(log + more, Reader(boot, p.0)), decode) == TranslateAll(View(more, boot), decode)
  {
    ViewAppend(log, more, boot);
    ResumePastInView(View(log, boot), View(more, boot), k, file);
    SilentAfterLastProducer(View(log, boot), View(more, boot), k, decode);
  }

  /** Cursor round trip across a restart. The first lifetime's live tail read
      `log` through to its end, and entry `k` of its view was the last to
      produce an event, so its cursor was saved at stop. The second lifetime
      starts on the journal grown by `more`: it resumes at entry `k` itself,
      and its first poll delivers that entry's event once more followed by
      the events of the new entries, and nothing else read before the stop. */
  lemma ResumeAfterRestart(log: seq<Entry>, more: seq<Entry>, boot: Option<Value>, k: nat,
                           file: Option<string>, decode: Bytes -> string)
    requires k < |View(log, boot)|
    requires var view := View(log, boot);
      && EntryToEvent(view[k], decode).Some?
      && (forall j :: k < j < |view| ==> EntryToEvent(view[j], decode).None?)
      && CursorOf(view[k]).Some? && CursorOf(view[k]).value != [] && IsStripped(CursorOf(view[k]).value)
    requires FirstWithCursor(View(log, boot), k)
    ensures var view := View(log, boot);
      var c := CursorOf(view[k]);
      var p := Position(View(log + more, boot), LoadCursor(SavedCursor(file, c, true)));
      && p == (k, c)
      && TranslateAll(Available(log + more, Reader(boot, p.0)), decode)
         == [EntryToEvent(view[k], decode).value] + TranslateAll(View(more, boot), decode)
  {
    ViewAppend(log, more, boot);
    ResumeInView(View(log, boot), View(more, boot), k, file, decode);
  }

  class SystemdSource {
    const cpuCount: Count
    const timePeriod: TimePeriod
    const customStartTime: Option<real>
    /** The live reader, once started and until stopped. */
    var journal: Option<Reader>
    var cursor: Option<string>
    var historyQueue: seq<LogEvent>
    var historyDone: bool
    /** The range the background backfill was launched on, if it was. */
    ghost var launched: Option<(real, real)>

    ghost predicate Valid()
      reads this
    {
      && |historyQueue| <= HistoryCapacity
      && (launched.None? ==> historyQueue == [])
    }

    constructor (coreAllocation: int, timePeriod: TimePeriod, customStartTime: Option<real>)
      ensures Valid()
      ensures cpuCount as int == (if coreAllocation > 0 then coreAllocation else 1)
      ensures this.timePeriod == timePeriod && this.customStartTime == customStartTime
      ensures journal.None? && cursor.None? && historyQueue == [] && !historyDone && launched.None?
    {
      cpuCount := if coreAllocation > 0 then coreAllocation else 1;
      this.timePeriod := timePeriod;
      this.customStartTime := customStartTime;
      journal := None;
      cursor := None;
      historyQueue := [];
      historyDone := false;
      launched := None;
    }

    /** The backfill range for a scan mode. The end is the timestamp of the
        journal's last entry (the clock's `now` when the journal is empty);
        the start is that of the first entry (of the current boot, for
        `Boot`), of the last entry (`Now`), or the configured start time. */
    function GetScanRange(log: seq<Entry>, reader: Reader, period: TimePeriod, now: real, bootId: Value): (r: ScanRange)
      ensures period == Now ==> !LaunchesBackfill(r.start, r.end)
      ensures log == [] && period != Custom ==> !LaunchesBackfill(r.start, r.end)
      ensures period == Custom && (customStartTime.None? || customStartTime.value == 0.0) ==> r.start.None? && r.end.None?
      ensures r.reader.boot == if period == Boot then Some(bootId) else reader.boot
      ensures var whole := View(log, reader.boot);
        (period != Custom || (customStartTime.Some? && customStartTime.value != 0.0)) ==>
          r.end == if whole != [] && whole[|whole| - 1] != map[] then TimeOf(whole[|whole| - 1]) else Some(now)
      ensures var whole := View(log, reader.boot);
        period == All ==> r.start == if whole != [] && whole[0] != map[] then TimeOf(whole[0]) else None
      ensures var boot := View(log, Some(bootId));
        period == Boot ==> r.start == if boot != [] && boot[0] != map[] then TimeOf(boot[0]) else None
      ensures var whole := View(log, reader.boot);
        period == Now ==> r.start == if whole != [] && whole[|whole| - 1] != map[] then TimeOf(whole[|whole| - 1]) else None
      ensures period == Custom && customStartTime.Some? && customStartTime.value != 0.0 ==> r.start == customStartTime
    {
      var lastEntry := LastEntry(View(log, reader.boot));
      var absEnd := if lastEntry != map[] then TimeOf(lastEntry) else Some(now);
      var atTail := reader.(pos := |View(log, reader.boot)|);
      match period
      case All =>
        var view := View(log, reader.boot);
        var first := FirstEntry(view);
        ScanRange(if first != map[] then TimeOf(first) else None, absEnd, reader.(pos := if view == [] then 0 else 1))
      case Boot =>
        var filtered := reader.(boot := Some(bootId));
        var view := View(log, filtered.boot);
        var first := FirstEntry(view);
        ScanRange(if first != map[] then TimeOf(first) else None, absEnd, filtered.(pos := if view == [] then 0 else 1))
      case Now =>
        ScanRange(if lastEntry != map[] then TimeOf(lastEntry) else None, absEnd, atTail)
      case Custom =>
        if customStartTime.Some? && customStartTime.value != 0.0 then ScanRange(customStartTime, absEnd, atTail)
        else ScanRange(None, None, atTail)
    }

    /** In BOOT mode the range starts at the first entry of the current boot. */
    lemma BootRangeStartsAtBoot(log: seq<Entry>, now: real, bootId: Value, k: nat)
      requires k < |log| && InView(log[k], Some(bootId))
      requires forall j :: 0 <= j < k ==> !InView(log[j], Some(bootId))
      ensures GetScanRange(log, FreshReader, Boot, now, bootId).start == TimeOf(log[k])
    {
      ViewHead(log, Some(bootId), k);
    }

    /** In ALL mode the journal stamped 0, 5 and 10 gives the range [0, 10],
        and the backfill is launched on it: the input of the boundary
        example is one `start` reaches. */
    lemma BoundaryLogRange(now: real, bootId: Value)
      ensures var r := GetScanRange(ChunkScan.BoundaryLog, FreshReader, All, now, bootId);
        r.start == Some(0.0) && r.end == Some(10.0) && LaunchesBackfill(r.start, r.end)
    {
      assert TimeOf(ChunkScan.EntryAt0) == Some(0.0) && TimeOf(ChunkScan.EntryAt10) == Some(10.0);
    }

    /** The backfill chunks for [startTime, endTime], one per worker. */
    method CreateTimeChunks(startTime: real, endTime: real) returns (chunks: seq<Chunk>)
      ensures chunks == Plan(startTime, endTime, cpuCount)
    {
      var totalDuration := endTime - startTime;
      if totalDuration <= MinChunkedDuration {
        return [(startTime, endTime)];
      }
      var chunkSize := totalDuration / (cpuCount as real);
      chunks := [];
      var current := startTime;
      for i := 0 to cpuCount
        invariant |chunks| == i
        invariant forall j :: 0 <= j < i ==> chunks[j] == PlanChunk(startTime, endTime, cpuCount, j)
        invariant i < cpuCount ==> current == Boundary(startTime, chunkSize, i)
      {
        var nextTime;
        if i == cpuCount - 1 {
          nextTime := endTime + EndExtension;
        } else {
          nextTime := current + chunkSize;
        }
        chunks := chunks + [(current, nextTime)];
        current := nextTime;
      }
    }

    /** Positions the live reader: at the entry the cursor names when the
        seek to it succeeds, else at the tail, taking the last entry's cursor. */
    method InitializeJournalPosition(log: seq<Entry>, reader: Reader) returns (r: Reader)
      modifies this`cursor
      ensures r.boot == reader.boot
      ensures (r.pos, cursor) == Position(View(log, reader.boot), old(cursor))
    {
      var view := View(log, reader.boot);
      if cursor.Some? && cursor.value != [] {
        var found := FindCursor(view, cursor.value);
        if found.Some? {
          r := reader.(pos := found.value);
          return;
        }
      }
      r := reader.(pos := |view|);
      var last := LastEntry(view);
      if last != map[] {
        cursor := CursorOf(last);
      }
    }

    /** Loads the cursor, resolves the scan range on the live reader,
        positions that reader, and either launches the backfill or marks the
        history done. */
    method Start(log: seq<Entry>, file: Option<string>, now: real, bootId: Value)
      requires Valid()
      modifies this
      ensures Valid()
      ensures var range := GetScanRange(log, FreshReader, timePeriod, now, bootId);
        var p := Position(View(log, range.reader.boot), LoadCursor(file));
        && journal == Some(Reader(range.reader.boot, p.0))
        && cursor == p.1
        && historyQueue == old(historyQueue)
        && (LaunchesBackfill(range.start, range.end) ==>
              launched == Some((range.start.value, range.end.value)) && historyDone == old(historyDone))
        && (!LaunchesBackfill(range.start, range.end) ==> historyDone && launched == old(launched))
    {
      cursor := LoadCursor(file);
      var range := GetScanRange(log, FreshReader, timePeriod, now, bootId);
      var reader := InitializeJournalPosition(log, range.reader);
      journal := Some(reader);
      if LaunchesBackfill(range.start, range.end) {
        launched := Some((range.start.value, range.end.value));
      } else {
        historyDone := true;
      }
    }

    /** The background supervisor's push of one backfilled event; the
        source's blocking put waits until the queue has room. */
    method PushHistory(ev: LogEvent)
      requires Valid() && launched.Some? && !historyDone
      requires |historyQueue| < HistoryCapacity
      modifies this`historyQueue
      ensures Valid()
      ensures historyQueue == old(historyQueue) + [ev]
    {
      historyQueue := historyQueue + [ev];
    }

    /** The supervisor's last act, whether or not the pool ran to the end. */
    method FinishHistory()
      requires Valid()
      modifies this`historyDone
      ensures Valid() && historyDone
    {
      historyDone := true;
    }

    /** The first half of a poll: takes up to a batch of the oldest history
        events off the queue, in queue order. */
    method DrainHistory() returns (batch: seq<LogEvent>)
      requires Valid()
      modifies this`historyQueue
      ensures Valid()
      ensures var k := DrainCount(|old(historyQueue)|);
        batch == old(historyQueue)[..k] && historyQueue == old(historyQueue)[k..]
    {
      batch := [];
      var count := 0;
      while historyQueue != [] && count < HistoryBatchSize
        invariant count <= HistoryBatchSize && count <= |old(historyQueue)|
        invariant batch == old(historyQueue)[..count]
        invariant historyQueue == old(historyQueue)[count..]
        invariant count < HistoryBatchSize && count < |old(historyQueue)| ==> historyQueue != []
        decreases |historyQueue|
      {
        batch := batch + [historyQueue[0]];
        historyQueue := historyQueue[1..];
        count := count + 1;
      }
    }

    /** The second half of a poll: reads every entry the live reader has
        available, keeping the events and moving the cursor to each entry
        that produced one. */
    method ReadLive(log: seq<Entry>, decode: Bytes -> string) returns (live: seq<LogEvent>)
      requires journal.Some?
      modifies this`cursor, this`journal
      ensures live == TranslateAll(Available(log, old(journal).value), decode)
      ensures cursor == AdvanceCursor(Available(log, old(journal).value), old(cursor), decode)
      ensures journal == Some(Drained(log, old(journal).value))
    {
      var reader := journal.value;
      var entries := Available(log, reader);
      live := [];
      assert entries[..0] == [];
      for i := 0 to |entries|
        invariant live == TranslateAll(entries[..i], decode)
        invariant cursor == AdvanceCursor(entries[..i], old(cursor), decode)
        invariant journal == old(journal)
      {
        var entry := entries[i];
        TranslateAllStep(entries, i, decode);
        AdvanceCursorStep(entries, i, old(cursor), decode);
        var ev := EntryToEvent(entry, decode);
        if ev.Some? {
          live := live + [ev.value];
          cursor := CursorOf(entry);
        }
      }
      assert entries[..|entries|] == entries;
      journal := Some(Drained(log, reader));
    }

    /** Up to a batch of history events, oldest first, followed by the events
        of every live entry available now, in journal order. */
    method Poll(log: seq<Entry>, decode: Bytes -> string) returns (events: seq<LogEvent>)
      requires Valid()
      modifies this`historyQueue, this`cursor, this`journal
      ensures Valid()
      ensures var k := DrainCount(|old(historyQueue)|);
        && historyQueue == old(historyQueue)[k..]
        && events == old(historyQueue)[..k]
             + (if old(journal).Some? then TranslateAll(Available(log, old(journal).value), decode) else [])
      ensures old(journal).None? ==> journal.None? && cursor == old(cursor)
      ensures old(journal).Some? ==>
        && journal == Some(Drained(log, old(journal).value))
        && cursor == AdvanceCursor(Available(log, old(journal).value), old(cursor), decode)
    {
      events := DrainHistory();
      if journal.None? {
        return;
      }
      var live := ReadLive(log, decode);
      events := events + live;
    }

    /** Saves the cursor when there is one and closes the live reader; the
        result is the cursor file afterwards. */
    method Stop(file: Option<string>, writeOk: bool) returns (saved: Option<string>)
      requires Valid()
      modifies this`journal
      ensures Valid()
      ensures saved == SavedCursor(file, cursor, writeOk)
      ensures journal.None?
    {
      saved := file;
      if cursor.Some? && cursor.value != [] {
        if writeOk {
          saved := cursor;
        }
      }
      if journal.Some? {
        journal := None;
      }
    }
  }
}
