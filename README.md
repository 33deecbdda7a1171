# systemd journal source — a verified model

This project models the systemd log source of the *neighbor* log watcher in Dafny.
The source reads the systemd journal and turns each entry into a `LogEvent`.
It does two jobs at once:

- a **live tail** that `poll` reads from, remembering a cursor;
- a **backfill** of older entries. It cuts the chosen time range into one chunk per worker, scans the chunks in parallel, and feeds the results through a bounded history queue (200 events) that `poll` drains at most 100 at a time, before the live events.

On `stop` the cursor is written to a checkpoint file. The next `start` loads it and resumes the live tail from that point.

The model is split by concern:

| module | file | what it holds |
|---|---|---|
| `Events` | events.dfy | journal field values, Python truthiness, entries, severities, `LogEvent` |
| `Translation` | translation.dfy | the priority-to-severity mapping and the entry-to-event translation |
| `Chunks` | chunks.dfy | the chunk planner and its shape |
| `Journal` | journal.dfy | the journal as an append-only sequence seen through a reader (boot filter, position) |
| `ChunkScan` | scan.dfy | one worker's chunk scan, the backfill as a whole, and the boundary finding |
| `Checkpoint` | checkpoint.dfy | the cursor file: load (stripped) and save |
| `Source` | source.dfy | the `SystemdSource` class: scan range, positioning, start, poll, stop |

Modelling choices:

- **Times** are `real` seconds. Float and `datetime` arithmetic is taken as exact.
- **The journal** is a sequence of entries, passed in as it stands at each call. A reader is a boot filter plus a position in the entries that filter lets through. `this_boot()` becomes a filter on `_BOOT_ID`. The current boot id is a parameter.
- **`seek_cursor(c)`** lands on the first entry of the reader's view that carries cursor `c`. The next read returns that entry. A cursor that names no such entry is modelled as a seek that fails.
- **`seek_realtime(t)`** lands on the first entry stamped at or after `t`.
- **The UTF-8 decoding** of a bytes `MESSAGE` is a function parameter `decode`.
- **The clock** (`datetime.now()`) is a parameter `now`.
- **The checkpoint file** is its contents, `None` when it does not exist. Whether a write succeeds is a parameter.
- **Resume re-delivers one entry.** `seek_cursor` lands *on* the named entry, so a resumed live tail yields the entry whose cursor was saved once more, before any new entry. `Source.ResumeAfterRestart` states this for the code as written: one repeated event, then the new entries. It departs from the intended cursor round trip, in which a restart re-delivers nothing consumed before the stop. "## Findings" records it. `Source.PositionAfterCursor` is the corrected resume, and `Source.ResumeExactlyNew` proves the round trip for it. `Start` keeps the resume as written.

## Model

| member | source | states |
|---|---|---|
| `Translation.MapPriorityToSeverity` | neighbor/data/sources/systemd/systemd_source.py:17-28 | a missing priority gives INFO; no priority ever gives CRITICAL |
| `Translation.SeverityBands` | neighbor/data/sources/systemd/systemd_source.py:17-28 | priorities 0-3 give ERROR, 4 WARNING, 5-6 INFO, 7 DEBUG; below 0 ERROR, above 7 DEBUG |
| `Translation.SeverityMonotone` | neighbor/data/sources/systemd/systemd_source.py:17-28 | for integer priorities, a more urgent (smaller) priority never gives a less severe event |
| `Translation.Subsystem` | neighbor/data/sources/systemd/systemd_source.py:43 | the subsystem is SYSLOG_IDENTIFIER when that is truthy, else _SYSTEMD_UNIT when that is truthy, else "unknown"; it is always truthy |
| `Translation.StructuredData` | neighbor/data/sources/systemd/systemd_source.py:45 | the structured data holds exactly the entry's str/int/float/bool fields, unchanged |
| `Translation.MessageText` | neighbor/data/sources/systemd/systemd_source.py:36-37 | a bytes message becomes the text `decode` gives for its bytes; any other message is kept as it is |
| `Translation.EntryToEvent` | neighbor/data/sources/systemd/systemd_source.py:30-46 | no event iff MESSAGE is missing or falsy; otherwise source "systemd", the severity mapped from PRIORITY, the entry's timestamp, the subsystem by identifier/unit/"unknown" precedence (`Subsystem`), the message decoded when bytes (`MessageText`), and exactly the entry's scalar fields (`StructuredData`) |
| `Translation.TranslateAll` | neighbor/data/sources/systemd/systemd_source.py:65-72 | a run of entries gives at most one event per entry |
| `Translation.TranslateAllFromEntries` | neighbor/data/sources/systemd/systemd_source.py:70-72 | every event of a run is the translation of one of its entries |
| `Translation.TranslateAllStep` | neighbor/data/sources/systemd/systemd_source.py:224-227 | reading one more entry adds exactly that entry's event, if it has one |
| `Translation.TranslateAllConcat` | neighbor/data/sources/systemd/systemd_source.py:224-228 | translating two runs one after the other gives the two event lists concatenated |
| `Translation.TranslateAllEmpty` | neighbor/data/sources/systemd/systemd_source.py:30-34 | a run yields no events iff no entry of it has a usable message |
| `Chunks.Plan` | neighbor/data/sources/systemd/systemd_source.py:120-140 | the plan is never empty and its first chunk starts at the range start |
| `Chunks.PlanShort` | neighbor/data/sources/systemd/systemd_source.py:124-125 | a range of at most 5 seconds is the single chunk (start, end) |
| `Chunks.PlanLong` | neighbor/data/sources/systemd/systemd_source.py:127-140 | a longer range gives one chunk per worker: contiguous, each of positive length, from the start to one second past the end; every chunk but the last is (end - start) / n wide and the last is one second wider |
| `Chunks.BoundaryIsLinear` | neighbor/data/sources/systemd/systemd_source.py:129-138 | after i chunks the running boundary is start + i * chunk size |
| `Chunks.LastBoundary` | neighbor/data/sources/systemd/systemd_source.py:129-138 | the boundary before the last chunk is one chunk size before the range end |
| `Chunks.ContiguousCovers` | neighbor/data/sources/systemd/systemd_source.py:137-138 | every time in the span of contiguous chunks lies in some chunk |
| `Chunks.ContiguousOrdered` | neighbor/data/sources/systemd/systemd_source.py:137-138 | contiguous chunks of positive length never overlap |
| `Chunks.PlanCoversOnce` | neighbor/data/sources/systemd/systemd_source.py:127-140 | for a long range, every time from start through end lies in exactly one half-open chunk |
| `Journal.View` | neighbor/data/sources/systemd/systemd_source.py:105 | a filtered view is no longer than the journal; with no filter it is the whole journal |
| `Journal.ViewKeeps` | neighbor/data/sources/systemd/systemd_source.py:105 | an entry is in the view iff it is in the journal and passes the boot filter |
| `Journal.ViewNone` | neighbor/data/sources/systemd/systemd_source.py:105-107 | a journal with no entry of the boot gives an empty view, so the first read finds nothing |
| `Journal.ViewHead` | neighbor/data/sources/systemd/systemd_source.py:105-107 | the first entry of a filtered view is the journal's first entry that passes the filter |
| `Journal.ViewAppend` | neighbor/data/sources/systemd/systemd_source.py:224 | entries appended to the journal are appended to every view of it |
| `Journal.Available` | neighbor/data/sources/systemd/systemd_source.py:224 | a reader reads next exactly the rest of its view after its position, and nothing once at or past the end |
| `Journal.Drained` | neighbor/data/sources/systemd/systemd_source.py:224-228 | after everything is read nothing is left, and the entries appended later are exactly what the reader reads next, through its boot filter |
| `Journal.FindCursor` | neighbor/data/sources/systemd/systemd_source.py:174 | the cursor seek lands on the first entry carrying the cursor, and fails iff no entry carries it |
| `Journal.FindCursorExtend` | neighbor/data/sources/systemd/systemd_source.py:172-177 | entries appended later do not move a successful cursor seek |
| `ChunkScan.SeekIndex` | neighbor/data/sources/systemd/systemd_source.py:61 | the realtime seek lands on the first entry stamped at or after the time |
| `ChunkScan.Cut` | neighbor/data/sources/systemd/systemd_source.py:65-68 | the scan stops at the first entry stamped after the chunk end, and at no entry before it |
| `ChunkScan.ProcessLogChunk` | neighbor/data/sources/systemd/systemd_source.py:48-74 | a failed seek gives no events; otherwise the events of the entries from the chunk start up to the first entry past the chunk end, in journal order |
| `ChunkScan.FlattenConcat` | neighbor/data/sources/systemd/systemd_source.py:152-153 | the results of two lists of chunks, pushed one list after the other, are the two pushes concatenated |
| `ChunkScan.CompletionOrderIrrelevant` | neighbor/data/sources/systemd/systemd_source.py:152-155 | whatever order the chunks complete in, the same events are pushed, each as often |
| `ChunkScan.Backfill` | neighbor/data/sources/systemd/systemd_source.py:148-155 | for any completion order of the chunks, the events pushed are, each as often, those the workers return: a chunk's scan when its realtime seek succeeds, nothing when it fails (lines 60-63) |
| `ChunkScan.AllSeeksSucceed` | neighbor/data/sources/systemd/systemd_source.py:59-63 | when every worker's seek succeeds, each worker returns the scan of its chunk |
| `ChunkScan.HalfOpenScanIsWindow` | neighbor/data/sources/systemd/systemd_source.py:61-68 | a scan that stops at its end exclusively returns the entries between the seeks to its start and its end |
| `ChunkScan.ContiguousScan` | neighbor/data/sources/systemd/systemd_source.py:148-155 | exclusive-end scans of contiguous chunks together return every entry of the whole span exactly once |
| `ChunkScan.CoveringPlan` | neighbor/data/sources/systemd/systemd_source.py:120-140 | the corrected plan starts at the range start and always ends one second past the end |
| `ChunkScan.BackfillExactlyOnce` | neighbor/data/sources/systemd/systemd_source.py:142-161 | with exclusive-end scans over the covering plan and every seek succeeding, the backfill pushes each entry of the range exactly once, in any completion order |
| `ChunkScan.SortedWindow` | neighbor/data/sources/systemd/systemd_source.py:61-68 | in a time-ordered journal, the entries between two seeks are exactly those stamped in [s, e) |
| `ChunkScan.TranslatePair` | neighbor/data/sources/systemd/systemd_source.py:65-72 | two entries that both produce events give exactly those two events, in order |
| `ChunkScan.TwoWorkerPlan` | neighbor/data/sources/systemd/systemd_source.py:127-140 | two workers on [0, 10] get the chunks [0, 5] and [5, 11] |
| `ChunkScan.InChunkOrder` | neighbor/data/sources/systemd/systemd_source.py:152-155 | two chunk results finishing in chunk order are pushed first, then second |
| `ChunkScan.TwoChunksInOrder` | neighbor/data/sources/systemd/systemd_source.py:148-155 | a two-chunk backfill with both seeks succeeding, in chunk order, pushes the first chunk's scan and then the second's |
| `ChunkScan.FirstChunkScan` | neighbor/data/sources/systemd/systemd_source.py:59-74 | as written, the scan of [0, 5] over any three entries stamped 0, 5 and 10 that produce events yields the events of the first two |
| `ChunkScan.SecondChunkScan` | neighbor/data/sources/systemd/systemd_source.py:59-74 | as written, the scan of [5, 11] over the same entries yields the events of the last two |
| `ChunkScan.BoundaryScannedTwice` | neighbor/data/sources/systemd/systemd_source.py:61-68 | as written, for any three entries stamped 0, 5 and 10 that produce events, the two-worker backfill of [0, 10] pushes the middle entry's event twice |
| `ChunkScan.BoundaryEntryScannedTwice` | neighbor/data/sources/systemd/systemd_source.py:61-68 | as written, two workers on [0, 10] get chunks [0, 5] and [5, 11], and for a journal stamped 0, 5 and 10 the entry stamped 5 is delivered twice |
| `Checkpoint.LeadingSpaces` | neighbor/data/sources/systemd/systemd_source.py:167 | counts exactly the whitespace the text starts with |
| `Checkpoint.TrailingSpaces` | neighbor/data/sources/systemd/systemd_source.py:167 | counts exactly the whitespace the text ends with |
| `Checkpoint.Strip` | neighbor/data/sources/systemd/systemd_source.py:167 | the result has no whitespace at either end; it is empty only for all-whitespace text |
| `Checkpoint.StripKeepsMiddle` | neighbor/data/sources/systemd/systemd_source.py:167 | stripping only removes whitespace from the two ends |
| `Checkpoint.StripStripped` | neighbor/data/sources/systemd/systemd_source.py:167 | text without whitespace at its ends strips to itself |
| `Checkpoint.StripIdempotent` | neighbor/data/sources/systemd/systemd_source.py:167 | stripping twice is stripping once |
| `Checkpoint.LoadCursor` | neighbor/data/sources/systemd/systemd_source.py:163-168 | a cursor is loaded iff the file exists, and it comes back stripped |
| `Checkpoint.SavedCursor` | neighbor/data/sources/systemd/systemd_source.py:232-238 | the file changes only when the cursor is a non-empty string, and then holds that cursor; a non-empty cursor whose write succeeds is always written |
| `Checkpoint.SaveThenLoad` | neighbor/data/sources/systemd/systemd_source.py:232-238 | loading after a successful save gives the stripped cursor back, and an already stripped cursor unchanged |
| `Source.Position` | neighbor/data/sources/systemd/systemd_source.py:170-186 | when the stored cursor is non-empty and names an entry of the view, the reader sits on the first such entry and keeps the cursor; otherwise it sits at the tail and takes the last entry's cursor, keeping the stored one when the view is empty |
| `Source.LaunchesBackfill` | neighbor/data/sources/systemd/systemd_source.py:144-146 | the launch test of `start` (line 200) holds exactly when the supervisor's early exit does not fire, so a launched backfill always scans |
| `Source.AdvanceCursorStep` | neighbor/data/sources/systemd/systemd_source.py:224-228 | reading one more entry moves the cursor to it iff it produces an event |
| `Source.AdvanceCursorOrigin` | neighbor/data/sources/systemd/systemd_source.py:224-228 | a cursor that moved during a live read is the cursor of an entry that produced an event |
| `Source.AdvanceCursorUnmoved` | neighbor/data/sources/systemd/systemd_source.py:224-228 | entries that produce no event leave the cursor where it was |
| `Source.AdvanceCursorLastProducer` | neighbor/data/sources/systemd/systemd_source.py:224-228 | after a live read the cursor is that of the last entry that produced an event |
| `Source.SeekOwnCursor` | neighbor/data/sources/systemd/systemd_source.py:174 | seeking to an entry's cursor lands on that entry when no earlier entry carries the same cursor |
| `Translation.TranslateAllSingle` | neighbor/data/sources/systemd/systemd_source.py:225-227 | one entry gives its own event, or nothing |
| `Translation.SilentRunSkipped` | neighbor/data/sources/systemd/systemd_source.py:224-228 | a run of entries without events adds nothing between an entry and what follows it |
| `Source.ResumeAtLastProducer` | neighbor/data/sources/systemd/systemd_source.py:224-228 | reading on from the last producing entry yields its event once, then only the events of what follows |
| `Source.StartTailsOnlyNewEntries` | neighbor/data/sources/systemd/systemd_source.py:172-186 | with no stored cursor or an empty one, the live path yields exactly the entries appended after start, never the history |
| `Source.ResumePosition` | neighbor/data/sources/systemd/systemd_source.py:170-177 | a start after saving an entry's cursor positions the reader on that entry and keeps the cursor, when no earlier entry shares it |
| `Source.ResumeInView` | neighbor/data/sources/systemd/systemd_source.py:170-177 | within one view grown by new entries, the resumed reader yields the saved entry's event once more, then exactly the new entries' events |
| `Source.ResumeAfterRestart` | neighbor/data/sources/systemd/systemd_source.py:172-177 | after stop and a later start on the grown journal, the live tail resumes at the saved entry: its event once more, then exactly the new entries, when no earlier entry shares the saved cursor. This is the re-delivery recorded under Findings |
| `Source.PositionAfterCursor` | neighbor/data/sources/systemd/systemd_source.py:172-177 | the corrected resume: one entry past where `Position` puts the reader when the cursor seek succeeds, and otherwise the same position and cursor as `Position` |
| `Source.SilentAfterLastProducer` | neighbor/data/sources/systemd/systemd_source.py:224-228 | past the last entry that produced an event, a read yields only the events of what was appended |
| `Source.ResumePastInView` | neighbor/data/sources/systemd/systemd_source.py:172-177 | with the corrected resume, a view grown by new entries puts the reader just past the saved entry, and the cursor is kept |
| `Source.ResumeExactlyNew` | neighbor/data/sources/systemd/systemd_source.py:172-177 | with the corrected resume, the first poll after a restart yields exactly the events of the entries appended since the stop, and nothing consumed before it |
| `Source.SystemdSource.constructor` | neighbor/data/sources/systemd/systemd_source.py:77-91 | the worker count is the allocation when positive, else 1; no reader, no cursor, an empty history, not done |
| `Source.SystemdSource.GetScanRange` | neighbor/data/sources/systemd/systemd_source.py:93-118 | the end is the timestamp of the view's last entry, or `now` when it is empty (CUSTOM without a non-zero start: no range at all); the start is the first entry's timestamp (ALL), the first entry of the current boot's (BOOT, and the reader is filtered to that boot), the last entry's (NOW, so never a backfill), or the configured start (CUSTOM); an empty journal launches no backfill except in CUSTOM |
| `Source.SystemdSource.BootRangeStartsAtBoot` | neighbor/data/sources/systemd/systemd_source.py:104-108 | in BOOT mode the range starts at the timestamp of the journal's first entry of the current boot |
| `Source.SystemdSource.BoundaryLogRange` | neighbor/data/sources/systemd/systemd_source.py:93-102 | in ALL mode, a journal stamped 0, 5 and 10 gives the range [0, 10], and the backfill is launched on it |
| `Source.SystemdSource.CreateTimeChunks` | neighbor/data/sources/systemd/systemd_source.py:120-140 | the loop builds exactly the planned chunks |
| `Source.SystemdSource.InitializeJournalPosition` | neighbor/data/sources/systemd/systemd_source.py:170-186 | the reader resumes at the cursor's entry when the seek succeeds; otherwise it sits at the tail with the last entry's cursor |
| `Source.SystemdSource.Start` | neighbor/data/sources/systemd/systemd_source.py:188-205 | the cursor is loaded, the reader is positioned on the scan range's reader, and the backfill is launched iff start < end, otherwise the history is marked done |
| `Source.SystemdSource.PushHistory` | neighbor/data/sources/systemd/systemd_source.py:153-155 | a backfilled event joins the end of the history queue, which stays within 200 |
| `Source.SystemdSource.FinishHistory` | neighbor/data/sources/systemd/systemd_source.py:160-161 | the history is marked done |
| `Source.SystemdSource.DrainHistory` | neighbor/data/sources/systemd/systemd_source.py:210-218 | the oldest min(queue, 100) history events leave the queue, in order, and the rest stays |
| `Source.SystemdSource.ReadLive` | neighbor/data/sources/systemd/systemd_source.py:224-228 | every available live entry is read: the events in journal order, the reader at the end of its view, the cursor that of the last producing entry |
| `Source.SystemdSource.Poll` | neighbor/data/sources/systemd/systemd_source.py:207-230 | the oldest min(queue, 100) history events leave the queue first, in order, then the events of every live entry available; the reader reaches the end of its view and the cursor that of the last producing entry; without a reader only history is returned |
| `Source.SystemdSource.Stop` | neighbor/data/sources/systemd/systemd_source.py:232-244 | the cursor is saved iff it is non-empty and the write succeeds; the reader is closed |

## Left out

- The directory creation in `start` and the cursor path under the home directory are not modelled. The file is modelled only as its contents.
- The background thread and the process pool are not modelled as concurrent code. The backfill is the function `ChunkScan.Backfill`: the workers' results concatenated in completion order. The supervisor's queue pushes and final flag are `PushHistory` and `FinishHistory`, which the model does not interleave with `Poll`.
- `os.nice(10)` in the worker is left out; it only changes scheduling.
- `Source.SystemdSource.PushHistory`: the blocking `put` on a full queue is a precondition (room in the queue), not a wait.
- The error printed for an event that cannot be built is left out: `LogEvent(**ev_dict)` on a translated entry cannot fail.
- Exceptions are not modelled. An exception inside a chunk scan (such as the `TypeError` of an uncomparable PRIORITY, below) ends the whole backfill early through the handler at neighbor/data/sources/systemd/systemd_source.py:158-159, and one in the live read escapes `poll`. The model has no such path.
- `Source.Position`: a non-empty stored cursor that names no entry of the reader's view is treated as a failed seek, so the reader goes to the tail and takes the last entry's cursor. In the source, `seek_cursor` (line 174) fails only on a malformed cursor. For a well-formed cursor it lands near the position the cursor denotes, the cursor is kept, and the live read goes on from there. The model has no order on cursors, so it cannot say where that is. In BOOT mode after a reboot, for example, the saved cursor names an entry of the previous boot: the source's first poll then reads the entries of the current boot, which the BOOT backfill delivers as well, and the model does not show this.
- `Source.SystemdSource.InitializeJournalPosition`: inherits the stale-cursor behaviour of `Source.Position`.
- `Source.StartTailsOnlyNewEntries`: covers only a missing or empty stored cursor. With a stale cursor the source does not go to the tail; see `Source.Position`.
- `ChunkScan.ProcessLogChunk`: a worker whose realtime seek fails returns nothing (`seekOk` false), and `ChunkScan.Backfill` takes one such flag per chunk; why a seek fails is not modelled.
- `Translation.PriorityOf`: an int, float or bool PRIORITY is compared as a number. Any other value (bytes or a string) is treated as absent and gives INFO. In the source, `priority <= 3` (neighbor/data/sources/systemd/systemd_source.py:21) raises `TypeError` on such a value instead.
- `Journal.CursorOf` and `Journal.TimeOf`: a `__CURSOR` that is not a string, or a timestamp that is not a datetime, is treated as absent.
- Float rounding in the chunk planner is not modelled. Times are exact reals.
- The UTF-8 decoding of a bytes message is a parameter. Its replacement-character behaviour is not modelled.
- `Source.SystemdSource.Stop`: a failed or partial write is modelled as a write that leaves the file unchanged.
- The `LogSource` interface, the source registry and the watcher loop that calls `poll` are not part of this model.
- The live tail and the backfill can deliver the same entries; the model states both deliveries separately and proves nothing about their overlap. In ALL, BOOT and CUSTOM mode, a resumed cursor puts the live reader on the saved entry, which lies inside the backfill range. Every entry from there to the tail at start is then delivered by both the first `poll` and the backfill. For example, a journal [E0 stamped 0 with cursor "c0", E1 stamped 10] and a saved cursor "c0" give the position (0, "c0"), the live entries [E0, E1], and the backfill range [0, 10]. Live entries stamped in (end, end + 1 second] can also be scanned by the last backfill chunk.

## Findings

| source | as written | input that shows it | evidently intended | confidence | as-written member | corrected member |
|---|---|---|---|---|---|---|
| neighbor/data/sources/systemd/systemd_source.py:67 | each chunk scan stops only at an entry stamped strictly after the chunk end, while the next chunk's realtime seek starts at that same instant; an entry stamped exactly on an inner boundary is scanned by both neighbouring chunks and queued twice | ALL mode, two workers, a journal stamped 0, 5 and 10: the range is [0, 10] (`Source.SystemdSource.BoundaryLogRange`), the chunks are [0, 5] and [5, 11], and the entry stamped 5 is delivered twice | each backfilled entry is queued once: chunks as half-open intervals, with the last chunk ending past the end for short ranges too | not executed | `ChunkScan.BoundaryEntryScannedTwice` | `ChunkScan.BackfillExactlyOnce` |
| neighbor/data/sources/systemd/systemd_source.py:174 | `seek_cursor` puts the reader on the entry the saved cursor names, and the live loop (line 224) reads that entry first; the cursor only moves to an entry that produced an event (line 228), so that entry's event was delivered before the stop and is delivered again | the last entry to produce an event carries cursor c; `stop` saves c; `start` on the grown journal; the first `poll` yields that entry's event again before the new ones, even when nothing new was appended | a restart resumes just past the saved entry and re-delivers nothing consumed before the stop | not executed | `Source.ResumeAfterRestart` | `Source.ResumeExactlyNew` |
