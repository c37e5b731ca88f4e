# Verification of log-collector

A Dafny model of log-collector: a daemon that tails log files by inode, merges lines into records,
persists read offsets and ships the records in batches through a byte-bounded queue.
`dafny verify dfyconfig.toml` checks everything.

## What is modelled

The parts of the program that keep state and the promises they rest on.

**Tailing** (`Lines`, `Utf8`, `LineReader`, `Cri`, `Multiline`, `LineGroups`, `Polling`, `Refinement`, `Tailers`,
`Workers`, `WorkerRounds`, `TraceId`). A file is a growing sequence of bytes and a buffered reader cuts it into slices wherever it likes.
`emit` is an oracle that may fail on any call, the start pattern and the level filter are arbitrary predicates, and
time is a number. `Utf8` is Go's own decoder, in which a byte that starts no well-formed sequence (section 4 of
RFC 3629) is one U+FFFD. `Multiline` has the steps of one file as functions, `Polling` whole read rounds and
sequences of polls, `LineGroups` the greedy grouping and `Refinement` what all this comes to from end to end,
`Tailers.Tailer` the class whose methods carry it out, and `Workers` the same steps cut at every lock and every call of
`emit` and interleaved with those of other files; `WorkerRounds` puts these steps together to whole polls. Two traces make the claims precise: what left the tailer, and which
lines were accepted and whether they were kept.

**Positions** (`PositionStore`, `SaveProtocol`, `Recovery`). The position table with its dirty flag and generation,
the three phases of a save, and a world of growing files, read rounds, cleanups, saves, crashes and restarts.

**Exporting** (`ExportQueue`, `Batcher`, `Pipeline`, `Retry`, `Records`, `ResourceKey`, `OtlpRequest`,
`Discovery`). Producers and the consumer of the queue as interleaved steps, where the notify channel is a generation
number that is closed once it is older than the current one; the batching loop with its shutdown drain, as a method and,
in `Pipeline`, as steps among those of the producers; backoff; the canonical resource key as discovery and the exporter
each compute it; and the grouping of a batch by resource.

**Alerts** (`Markdown`). The writer that fits an escaped Markdown text into a number of runes.

## Where the naive statement is false

- Whether something is buffered is decided by the length of the body, so an empty line accepted while nothing is buffered
  vanishes, though it counts towards the line limit. `LogExactly` says by position which lines those are, over every run,
  and no line with anything in it is ever among them.
- The multiline cut is in runes although the limit is in bytes, so a one-line body may exceed `maxMultilineSize` bytes:
  `ShapeExceedsLimit` says exactly when, `OneRuneExceedsLimit` gives the smallest case. Bodies of two or more lines never
  do (`RunWithinLimits`).
- With `start_at = end` an empty file gets no stored position and the next poll starts at the end again:
  `StartAtEndStores` has the exact condition, `StartAtEndOfEmptyFileSkips` the consequence. The theorems about polls start
  from the beginning of the file or from a stored position.
- In multiline mode the offset is stored while its last lines are only buffered. `ReleasedButPending` says what a
  crash would lose; crash recovery is claimed for single-line mode, and for multiline mode the graceful stop.
- Cleanup recognises a file by its recorded path, so a quiet file that was renamed loses its position although it still
  exists under its identity (`CleanupKeeps`, `CleanupForgetsRenamedFile`), against the comment in
  `internal/state/store.go:74-75`. Files read from their beginning survive this; for a file read from its end
  `CleanupIsSafeExactly` shows that a line may be skipped exactly when the cleanup did not spare the file.
- The save protocol needs one saver at a time, which is how `internal/app/app.go:220-229` wires it; two overlapping savers
  lose an update (`OverlappingSavesLoseAnUpdate`).
- The exporter drains its queue on shutdown only while sends succeed; a failed send returns at once, from the main loop as
  well, and the comment in `internal/exporter/otlphttp.go:80-81` says more than the code does. `Batching.Run` has the exact
  condition.
- A nil return of the exporter's loop does not mean that the queue is empty: a record sent while the last batch is on its
  way is left behind (`LateRecordIsLeftBehind`). `NilMeansDrained` says exactly what was delivered, and
  `QuietStopDeliversAll` that nothing is left in the order in which the collector stops.
- Handing a record to `emit` is not delivery: `submitRecord` (`internal/app/app.go:41-54`) swallows the errors of both
  outputs, although the repository's README says that a failing webhook returns an error when it is the only output.
  Everything below speaks of records handed to `emit` or dropped by their level.
- The first retry delay and a delay the server asks for are not cut to the maximum interval (`CeilingHolds`).
- Resources with NUL bytes may share a key; `KeyIsUniqueExactly` says which resource's key belongs to it alone.

## Model

| member | source | states |
|---|---|---|
| Lines.JoinSplit | internal/webhook/wechat.go:207-211 | Joining the pieces of a split at line feeds gives the string back. |
| Lines.SplitJoin | internal/tailer/tailer.go:244-250 | Splitting undoes joining when no piece holds a line feed. |
| Lines.CompleteLinesConcat | internal/tailer/tailer.go:157-178 | The complete lines of a file are those before any line start followed by those behind it. |
| Utf8.DecodeEncoded | internal/tailer/tailer.go:258-266 | Encoding scalar values and decoding gives them back; encoded text is valid UTF-8. |
| Utf8.TruncateRunesKeeps | internal/tailer/tailer.go:258-266 | A truncated string is valid UTF-8 with exactly the leading runes, and a valid string that fits is unchanged. |
| Utf8.TruncateOfPrefix | internal/tailer/tailer.go:181-183 | Truncating to n runes depends on the first 4n bytes only, wherever the cut falls in a UTF-8 sequence. |
| Utf8.TruncateOfShortPrefix | internal/tailer/tailer.go:181-197 | One byte fewer is enough when the byte cut off continues no sequence, as a CR does not. |
| Utf8.CutExceedsBytes | internal/tailer/tailer.go:221-223 | A string of more bytes than a limit stays longer than it when cut to as many runes exactly if one of the runes kept is not ASCII. |
| LineReader.CleanTakesOneCarriageReturn | internal/tailer/tailer.go:197-197 | Cleaning takes one carriage return off the end of a line and nothing else but what exceeds the size in runes. |
| LineReader.KeptBytesSuffice | internal/tailer/tailer.go:181-207 | Keeping 4·maxSize bytes of a line is lossless: the string recovered is that of cleaning and truncating the whole line, also when the cut exposes a CR in mid-line. |
| LineReader.Reader.ReadSlice | internal/tailer/tailer.go:186-187 | A slice is the next bytes up to and including a line feed, a full buffer without one, or the rest of the input; slice boundaries are otherwise arbitrary. |
| LineReader.ReadBoundedLine | internal/tailer/tailer.go:181-207 | However the reader cuts the input, a complete call consumes exactly the line and its line feed and returns the cleaned line; an incomplete one consumes the rest. |
| LineReader.LineEndings | internal/tailer/tailer.go:181-207 | Text ended by LF and by CR LF is read as the same line, with one and two more bytes consumed; text that no line feed ends is no complete line. |
| Cri.StreamsAndFlags | internal/tailer/tailer.go:413-413 | The streams are `stdout` and `stderr`, the flags `P` and `F`. |
| Cri.ParseFormat | internal/tailer/tailer.go:411-421 | Parsing a line in the container format gives back its parts, or nothing when the timestamp does not parse. |
| Cri.ParsedIsFormatted | internal/tailer/tailer.go:411-421 | Only a line in that format parses. |
| Multiline.ContainerLine | internal/tailer/tailer.go:211-223 | A line in the container format of such a target is accepted as its message, cut in multiline mode, with its time, stream and flag. |
| Multiline.OtherLine | internal/tailer/tailer.go:211-223 | Every other line, and every line of a target in another format, is accepted as it is, cut in multiline mode. |
| Multiline.CutKeepsFirstRunes | internal/tailer/tailer.go:221-223 | The multiline cut leaves a message within the limit in bytes alone, and keeps exactly the first runes of any other. |
| Multiline.ShapeIsProper | internal/tailer/tailer.go:209-223 | An entry holds no line feed and, in multiline mode, at most maxMultilineSize runes. |
| Multiline.ShapeExceedsLimit | internal/tailer/tailer.go:221-223 | A line exceeds maxMultilineSize bytes after the multiline cut exactly when it did before and one of its first maxMultilineSize runes is not ASCII. |
| Multiline.OneRuneExceedsLimit | internal/tailer/tailer.go:221-253 | The smallest such line: one rune of two bytes and a limit of one byte leave a buffer of two. |
| Multiline.AcceptConserves | internal/tailer/tailer.go:209-256 | Accepting a line, or failing to, keeps the law: released bodies and the pending body, split at line feeds, are the kept lines in order. |
| Multiline.ExpireConserves | internal/tailer/tailer.go:268-297 | So does releasing an expired buffer. |
| Multiline.ShutConserves | internal/tailer/tailer.go:102-122 | The graceful stop keeps every line exactly when nothing is buffered or its record is released; then the released bodies are all kept lines. |
| Multiline.RunConserves | internal/tailer/tailer.go:209-297 | After every sequence of lines, expiries and failures, for every start predicate and every limit: the law holds, no line that is not empty is missing, no body starts with a line feed, and in single-line mode the output is exactly the accepted entries. |
| Multiline.LogExactly | internal/tailer/tailer.go:231-253 | Over every run, by position: the log is the entries of the events that accepted their line, in order, and a position is not kept exactly when multiline mode is on, its line is empty, and the buffer it is written to is empty. |
| Multiline.KeptLinesAreNonEmptyLines | internal/tailer/tailer.go:231-253 | So the kept lines and the accepted lines have the same lines with anything in them, in the same order. |
| Multiline.RunWithinLimits | internal/tailer/tailer.go:218-255 | In every reachable state the tracked size is the body's, a body has at most maxLines lines, fits in bytes if it has two or more and in runes if it has one, and no line after its first matches the start predicate. |
| LineGroups.LongestFitIsMaximal | internal/tailer/tailer.go:231-243 | No longer prefix than the longest fit can be one record, so the reference grouping is the greedy one. |
| LineGroups.BufferComputesGroups | internal/tailer/tailer.go:209-297 | Whatever `emit` refuses and whenever buffers expire: the released records are the greedy groups of each segment between two flushes, in order, with body, first-line metadata and the right drop mark, and the last group of the open segment is in the buffer. The grouping itself mentions no buffer. |
| LineGroups.SegmentsAreLog | internal/tailer/tailer.go:209-297 | The segments together are the accepted entries, each once and in order. |
| LineGroups.AcceptedExactly | internal/tailer/tailer.go:231-243 | A line is accepted exactly when it opens a segment, fits the last group, or that group is dropped by level or taken by `emit`. |
| LineGroups.FlushedExactly | internal/tailer/tailer.go:268-297 | A tick cuts a segment exactly when its last group has text, no line was accepted for the flush interval, and the group is dropped by level or taken by `emit`. |
| LineGroups.ShutReleasesGroups | internal/tailer/tailer.go:102-122 | After the graceful stop every group with text is one record, with the right drop mark, exactly when nothing was pending or its record was released. |
| Polling.EntryOfText | internal/tailer/tailer.go:160-170 | What is accepted for a line depends on its text alone, whichever way the line ends. |
| Polling.RoundAcceptsLines | internal/tailer/tailer.go:157-178 | A round consumes whole lines and accepts exactly the complete lines of the bytes it consumed, each once and in order. |
| Polling.FailedRoundStopsBefore | internal/tailer/tailer.go:168-173 | A round in which `emit` fails leaves buffer, output and offset as if the file ended before the line that triggered it. |
| Polling.RoundProgress | internal/tailer/tailer.go:157-178 | Unless `emit` fails a round reads its byte budget or every complete line there is. |
| Polling.RoundStaysNearBudget | internal/tailer/tailer.go:159-169 | A round reads less than its budget plus one line: its last line starts inside the budget. |
| Polling.PollAcceptsFrom | internal/tailer/tailer.go:138-178 | A poll accepts exactly the complete lines between where it reads from (the stored offset, the end or the beginning of the file at its first sight, the beginning of a file that became shorter) and the offset that counts afterwards. |
| Polling.TruncatedFileIsReadFromStart | internal/tailer/tailer.go:143-145 | A file cut below its stored offset and rewritten is read from its beginning: the lines accepted are those up to the new stored offset. |
| Polling.PollBehindEnd | internal/tailer/tailer.go:146-163 | An offset behind what can be read accepts nothing and stays. |
| Polling.PollCalls | internal/tailer/tailer.go:302-311 | `emit` is called once for every record that leaves with a level that is not dropped, and once for every refusal. |
| Polling.PollsAcceptEachLineOnce | internal/tailer/tailer.go:124-179 | Over any polls of a growing file with arbitrary failures, the accepted entries are exactly the complete lines between the starting and the stored offset, cleaned and cut, each once and in order; conservation holds, nothing but empty lines is missing from it, and the limits hold. |
| Polling.SingleLineRecords | internal/tailer/tailer.go:218-220 | In single-line mode the output is one record for each of those lines, with its metadata and its drop mark, and nothing else. |
| Polling.ReleasedButPending | internal/tailer/tailer.go:168-173 | In multiline mode the released bodies followed by the pending one hold every line of the file that is not empty, in order, and the released ones alone do exactly when nothing is pending. |
| Polling.RoundsCatchUp | internal/tailer/tailer.go:157-178 | While the file goes on growing: after n failure-free rounds every line that was complete at the start is behind the offset, or the offset has advanced by n·maxReadBytes. |
| Polling.BacklogIsAccepted | internal/tailer/tailer.go:157-178 | So B bytes of complete lines present at the start are behind the offset once n·maxReadBytes reaches B. |
| Polling.StartAtEndStores | internal/tailer/tailer.go:138-155 | With `start_at = end` a first poll stores a position exactly when the file was not empty, or the byte budget is positive and the first line appended since is complete and not refused by `emit`. |
| Polling.StartAtEndOfEmptyFileSkips | internal/tailer/tailer.go:138-155 | What is appended between the first two polls of an empty file is skipped. |
| Refinement.PollsAreRun | internal/tailer/tailer.go:124-179 | Any sequence of polls is the run of the lines its rounds offer and the flushes behind them. |
| Refinement.PollsComputeGroups | internal/tailer/tailer.go:124-297 | End to end, multiline: over any polls of a growing file, with failures and expiry, the segments are the complete lines between the start and the stored offset, split, cleaned and cut; the records handed to `emit` or dropped by level and the buffer are their groups, each once and in order. |
| Refinement.PollsEmitEachLine | internal/tailer/tailer.go:124-220 | End to end, single-line: the output is one record for each of those lines, in order. |
| Refinement.SessionsReleaseEverything | internal/tailer/tailer.go:102-179 | Over any number of sessions that end in a successful stop: every line with text before the stored offset is in a released body, once and in order; in single-line mode the output is one record for each line. |
| Tailers.Tailer.EmitPrepared | internal/tailer/tailer.go:302-311 | A dropped record takes no call and always leaves, any other one call and leaves if that succeeds; the output carries the record and its drop mark. |
| Tailers.Tailer.MakeRoom | internal/tailer/tailer.go:231-243 | The buffer is released and cleared exactly when the line must not join it and `emit` takes the record; otherwise nothing changes. |
| Tailers.Tailer.Write | internal/tailer/tailer.go:244-253 | Body, size, line count, metadata and time of the buffer after a line is written, and no other buffer. |
| Tailers.Tailer.Accept | internal/tailer/tailer.go:209-256 | The file's state becomes that of the atomic acceptance, and no other file changes; a refused line changes nothing. |
| Tailers.Tailer.ReadRound | internal/tailer/tailer.go:157-178 | The loop is one reading round as `Polling` defines it: same outcome, bytes, state and calls of `emit`. |
| Tailers.Tailer.Commit | internal/tailer/tailer.go:149-155 | The offset is stored exactly when it differs from the one found, a missing one counting as 0; nothing else of the table changes otherwise. |
| Tailers.Tailer.Read | internal/tailer/tailer.go:124-179 | Where the round starts (stored offset, end of file, or zero after truncation), its result, and the position that is stored, also when `emit` fails or the file is cut after it was examined; other files and the saved file are untouched. |
| Tailers.Tailer.FlushExpired | internal/tailer/tailer.go:268-297 | Every file is flushed whole or left alone; without a failure exactly the expired ones are flushed. |
| Tailers.Tailer.Close | internal/tailer/tailer.go:102-122 | On success every buffered record was released and the saved file holds the positions; in any case the buffers are gone. |
| Workers.StepIsLocal | internal/tailer/tailer.go:224-255 | A critical section or a call of `emit` acts on its own file as if that file were alone. |
| Workers.RunsAlone | internal/tailer/tailer.go:84-99 | In any interleaving of workers, what is released, buffered and in progress for one file is what its own steps give. |
| Workers.StepsAreAtomic | internal/tailer/tailer.go:224-255 | The unlocked window during `emit` is harmless: a file passes through the states of the run of its atomic events. |
| Workers.EventsAreOperations | internal/tailer/tailer.go:224-297 | Each atomic event is an acceptance or a flush that one step of the file began and a later one completed, with that step's entry or time, in the order in which they began; refused ones leave none. |
| Workers.InterleavingsConserve | internal/tailer/tailer.go:84-99 | In every interleaving a file with no operation in progress is in the state of that run: conservation holds and nothing but empty lines is missing. |
| Workers.InterleavingsComputeGroups | internal/tailer/tailer.go:84-99 | Its records and its buffer are the groups of the entries whose acceptance was completed, in the order in which it began. |
| Workers.OvertakenFlushLosesLine | internal/tailer/tailer.go:76-81 | Why the flush waits for the workers: a line written between the look at an expired buffer and its removal would be lost. |
| WorkerRounds.InterleavedPolls | internal/tailer/tailer.go:64-99 | Whatever other workers do in between, a file whose own steps are those of its rounds and flushes ends up in the state of these polls taken one after the other. |
| WorkerRounds.InterleavedPollsComputeGroups | internal/tailer/tailer.go:64-297 | So in every interleaving its records and its buffer are the groups of the complete lines between the start and the stored offset. |
| WorkerRounds.InterleavedPollsEmitEachLine | internal/tailer/tailer.go:64-220 | And in single-line mode its output is one record for each of those lines. |
| TraceId.Digits | internal/tailer/tailer.go:365-365 | The digits are 0 to 9 and a to f in either case, with their usual values. |
| TraceId.ParsedExactly | internal/tailer/tailer.go:354-374 | With completion on, a value is an identifier exactly when it has 16 or 32 hexadecimal digits, not all zero; the result is 16 bytes with the same big-endian number. |
| TraceId.UnparsedWithoutCompletion | internal/tailer/tailer.go:355-357 | With completion off the bytes of the value are the identifier. |
| PositionStore.Store.Load | internal/state/store.go:31-46 | A loaded table has the saved positions and nothing to save. |
| PositionStore.Store.Set | internal/state/store.go:57-66 | The table after a change; a position with the same offset and path changes nothing, not even the generation. |
| PositionStore.PositionIsRecorded | internal/state/store.go:57-66 | Offset and path are recorded always, the whole position on a change, which makes the table dirty and counts a generation; no other file's position is touched. |
| PositionStore.Store.Cleanup | internal/state/store.go:69-84 | In whatever order the map is gone through, exactly the stale entries go, one generation each. |
| PositionStore.Store.Save | internal/state/store.go:100-141 | An undisturbed save succeeds exactly when there is nothing to do or the write succeeds; only then is the flag cleared. |
| PositionStore.CleanupKeeps | internal/state/store.go:72-77 | An entry is kept exactly when it is recent or its file is found at the recorded path, and kept entries are unchanged. |
| PositionStore.CleanupForgetsRenamedFile | internal/state/store.go:72-77 | A quiet file that was renamed and replaced loses its entry although it exists under its identity. |
| SaveProtocol.CleanMeansSaved | internal/state/store.go:100-141 | With serial saves and any sets, cleanups, failed writes and restarts in between: when nothing is dirty the saved file holds the positions in memory. |
| SaveProtocol.DirtyClearedOnlyBySave | internal/state/store.go:135-139 | The flag is cleared only by the end of a successful save with no change since its snapshot. |
| SaveProtocol.SavedPositionSurvives | internal/state/store.go:31-141 | A position that is set and saved without a change in between is there after a restart, and nothing is dirty after the save. |
| SaveProtocol.CleanupRemovesStale | internal/state/store.go:69-84 | A cleanup takes effect at once, whatever a save is doing: exactly the recent entries and those found at their paths stay. |
| SaveProtocol.FailedWriteChangesNothing | internal/state/store.go:117-134 | A save whose write fails leaves file, table and flag as they were. |
| SaveProtocol.OverlappingSavesLoseAnUpdate | internal/app/app.go:220-229 | Two overlapping savers can leave an old file and a clean flag. |
| Recovery.ApplyKeepsSafe | internal/tailer/tailer.go:138-178 | Growth, rounds, cleanups that spare the file, phases of a save and crashes each keep: the handled lines are exactly those up to a frontier, and every position in memory, in a snapshot or on disk is a line start at or before it. A file read from its beginning needs no sparing. |
| Recovery.RoundHandlesEveryLine | internal/tailer/tailer.go:138-178 | A round in which `emit` takes every line handles every complete line of the file, and the stored offset has no line end behind it. |
| Recovery.CrashStartsFromFile | internal/state/store.go:31-46 | After a crash the process has what the file holds, nothing is dirty, and no round or save is in progress. |
| Recovery.RestartLeavesNoGap | internal/state/store.go:31-141 | From any start with or without a saved position, in every reachable state: a restart begins at a line start, and every complete line before it was handed to `emit` or dropped by level; lines may repeat, none is skipped. |
| Recovery.NextRoundLeavesNoGap | internal/tailer/tailer.go:138-155 | The same of the position in memory, where the next round begins. |
| Recovery.CleanupIsSafeExactly | internal/state/store.go:69-84 | A cleanup leaves no gap before the next round of a file read from its end, whatever is appended, exactly when its entry is recent or the file is found at its recorded path. |
| Recovery.SavedCleanupIsSafeExactly | internal/state/store.go:69-141 | The same of a cleanup that is saved before the process crashes and restarts. |
| ExportQueue.ByteBudget.TryReserve | internal/exporter/otlphttp.go:271-287 | Bytes are reserved exactly when they fit; otherwise the caller gets the generation to wait for. |
| ExportQueue.ByteBudget.Release | internal/exporter/otlphttp.go:289-295 | Bytes are returned and every waiter of the old generation is woken. |
| ExportQueue.ReachableIsConsistent | internal/exporter/otlphttp.go:63-78 | In every reachable interleaving the counter is the bytes in the channel, reserved but not sent, and received but not released, within 0 and the limit; a producer waiting on an open channel does not fit; and what was received followed by the channel is what was sent, in order. |
| ExportQueue.OfferedIsAccountedFor | internal/exporter/otlphttp.go:63-78 | In every run the records offered and not refused for their size are those sent, those withdrawn by cancelled producers and those still with their producers, each exactly once. |
| ExportQueue.RunningIsNeverStuck | internal/exporter/otlphttp.go:271-287 | No deadlock: while the consumer runs and a producer waits or the channel is not empty, a step other than a cancellation is enabled. |
| ExportQueue.StepsGetSmaller | internal/exporter/otlphttp.go:271-295 | Every step but a new record decreases a measure. |
| ExportQueue.EveryRunEnds | internal/exporter/otlphttp.go:271-295 | So under every schedule a run without new records ends: no producer wakes and waits forever. |
| ExportQueue.EveryFullRunDrains | internal/exporter/otlphttp.go:63-78 | Under every schedule a run that goes on as long as it can with a running consumer ends with every producer through, everything sent received, and the counter at zero. |
| ExportQueue.EveryOfferedRecordIsReceived | internal/exporter/otlphttp.go:63-78 | Without cancellations, under every schedule that goes on as long as it can with a running consumer, exactly the records offered and not refused for their size are received. |
| ExportQueue.EveryFullRunReturns | internal/app/app.go:87-103 | Under every schedule a run that goes on as long as it can after the exporter stopped ends with every producer returned and the counter at the bytes left in the channel. |
| ExportQueue.OrdinaryStepsFinish | internal/exporter/otlphttp.go:63-78 | From every reachable state with a running consumer there is such a run, of ordinary steps only. |
| ExportQueue.StoppedProducersReturn | internal/app/app.go:87-103 | Once the exporter has stopped every producer can return, and then the counter is exactly the bytes left in the channel. |
| Batcher.Batching.Flush | internal/exporter/otlphttp.go:87-97 | A non-empty batch is handed over once; it is dropped from memory only if that succeeds. |
| Batcher.Batching.AppendRecord | internal/exporter/otlphttp.go:98-108 | The batch is sent first exactly when it is full or the record does not fit; if that fails, the record in hand is the only one in neither a batch nor a delivery. |
| Batcher.Batching.TakeRecord | internal/exporter/otlphttp.go:111-120 | After a record the batch is empty or below both limits. |
| Batcher.Batching.Collect | internal/exporter/otlphttp.go:109-124 | Before the cancellation everything received is delivered or batched in order, everything received before a tick is delivered by then, the batch stays below both limits between events, and the first failed send ends the loop. |
| Batcher.Batching.Drain | internal/exporter/otlphttp.go:125-140 | The drain ends when a look finds the queue empty or a send fails; received records and what is left in the queue are what was in it and what came in since. |
| Batcher.Batching.Run | internal/exporter/otlphttp.go:82-143 | At every point received records are the delivered batches followed by the current one; every batch is non-empty, within the count, and within the bytes unless a singleton. The loop returns nil exactly when every send succeeded; then a look found the queue empty and everything that had come in was delivered in order. |
| Batcher.BatchesCannotGrow | internal/exporter/otlphttp.go:100-116 | A batch closed by no timer had no place for the first record of the next one. |
| Pipeline.SentIsAccountedFor | internal/exporter/otlphttp.go:63-143 | From producer to delivery, in every reachable interleaving of producers with the loop: what was sent to the queue is what was delivered, what is batched, the record in hand and what the queue holds, in that order; every delivered batch was proper and had to be closed where it was. |
| Pipeline.TickDelivers | internal/exporter/otlphttp.go:121-124 | A tick with something collected starts a send, and once that succeeds everything received is delivered; with nothing collected everything was. |
| Pipeline.FailedSendReturns | internal/exporter/otlphttp.go:87-108 | A failed send ends the loop at once with the batch and the record in hand undelivered and the queue left alone. |
| Pipeline.NilMeansDrained | internal/exporter/otlphttp.go:125-140 | When the loop returned nil, exactly what had been sent when the drain found the queue empty was delivered; everything was delivered exactly when the queue is empty. |
| Pipeline.QuietStopDeliversAll | internal/app/app.go:225-240 | When no producer is inside `Enqueue` and no record can come any more, as the collector stops, a nil return means that everything ever sent was delivered, in order. |
| Pipeline.LateRecordIsLeftBehind | internal/exporter/otlphttp.go:125-140 | Without that order, a record sent while the last batch is on its way stays in the queue although both calls return nil. |
| Pipeline.CancelledLoopReturns | internal/exporter/otlphttp.go:125-140 | From every waiting state the cancelled loop can return nil by its own steps when its sends succeed, with everything sent delivered. |
| Retry.SendWithRetry | internal/exporter/otlphttp.go:145-182 | How many sends, which outcome, how many waits and every delay, for any replies, durations and cancellations: it ends at the first send that succeeds, must not be tried again, does not fit the time limit, or is cancelled. |
| Retry.TriedAgainExactly | internal/exporter/otlphttp.go:157-175 | A failed send is tried again exactly for 408, 429, statuses from 500 and errors that are no status, if retries are on, the wait ends within the limit and is not cancelled; otherwise, the cancellation aside, it is given up. |
| Retry.RetriesAreBounded | internal/exporter/otlphttp.go:165-167 | With a time limit, retries number at most the limit divided by the smaller of initial delay and ceiling, and every send starts within the limit. |
| Retry.ConfiguredDelays | internal/exporter/otlphttp.go:148-179 | The first delay is the configured one or a second, the ceiling the configured one or thirty seconds. |
| Retry.DelayFollowsServer | internal/exporter/otlphttp.go:161-180 | A wait is the longer of the backoff and what the server asks for with a status; the next backoff is twice the wait, up to the ceiling. |
| Retry.DelayDoubles | internal/exporter/otlphttp.go:148-180 | Without Retry-After the k-th delay is min(max, initial·2^k), and the first is the initial delay. |
| Retry.UncappedDelaysSum | internal/exporter/otlphttp.go:176-180 | n delays below the ceiling add up to initial·(2^n − 1). |
| Retry.CeilingHolds | internal/exporter/otlphttp.go:161-180 | A delay exceeds the ceiling exactly when the server asked for it or it is the first. |
| Records.RecordSize | internal/exporter/otlphttp.go:297-307 | The estimate is the same for every order in which the maps are gone through, so what is released is what was reserved. |
| Records.SizeExactly | internal/exporter/otlphttp.go:297-307 | A record counts 128 bytes, its body and its trace identifier, and each attribute 32 more than its bytes. |
| Records.AnyEntryFirst | internal/exporter/otlphttp.go:300-305 | The sum over a map's entries may start with any of them. |
| ResourceKey.LessExactly | internal/exporter/otlphttp.go:343-343 | Byte order: the first difference decides, and a prefix comes first. |
| ResourceKey.IncreasingIsUnique | internal/exporter/otlphttp.go:338-343 | A set of names has one enumeration in byte order. |
| ResourceKey.AnyOrderGivesTheKey | internal/exporter/otlphttp.go:338-352 | The key does not depend on the order in which the map hands out its names. |
| ResourceKey.AttributeKey | internal/exporter/otlphttp.go:338-352 | The exporter's loop computes the canonical key. |
| ResourceKey.KeyTellsApart | internal/exporter/otlphttp.go:338-352 | Resources without NUL bytes have equal keys only if they are equal. |
| ResourceKey.KeyIsUniqueExactly | internal/exporter/otlphttp.go:338-352 | Among all resources a key belongs to one alone exactly when that has at most one entry and no NUL byte. |
| Discovery.CanonicalKey | internal/discovery/discovery.go:235-247 | Discovery's own loop computes the same canonical key as the exporter's. |
| Discovery.ResourceExactly | internal/discovery/discovery.go:226-234 | The resource holds the reported path, or the path itself, the source type and the rule under their names, whatever the attributes say, and every other attribute. |
| Discovery.PrepareResource | internal/discovery/discovery.go:226-248 | The prepared resource, and a key equal to the one the exporter would compute; nothing else of the target changes. |
| Discovery.Deduplicate | internal/discovery/discovery.go:200-224 | The result is the first target of each path, in order, prepared. |
| Discovery.KeptIsTarget | internal/discovery/discovery.go:206-212 | What is kept is the first target of its path. |
| Discovery.PathIsKept | internal/discovery/discovery.go:206-212 | Every path is kept. |
| Discovery.PathsAreDistinct | internal/discovery/discovery.go:206-212 | No path is kept twice. |
| OtlpRequest.BuildRequest | internal/exporter/otlphttp.go:245-269 | One group per key that occurs, each with exactly the records of that key in order, listed in any order. |
| OtlpRequest.RequestHoldsBatch | internal/exporter/otlphttp.go:252-267 | A request holds exactly the records of its batch, each as often as the batch does. |
| OtlpRequest.GroupKeepsOrder | internal/exporter/otlphttp.go:263-263 | A group's records stand at increasing positions of the batch. |
| OtlpRequest.PositionsAreAll | internal/exporter/otlphttp.go:254-263 | Those are all positions whose record carries that key, or carries none and has a resource with that key. |
| OtlpRequest.OneEntryPerResource | internal/exporter/otlphttp.go:254-266 | For records keyed as discovery and the exporter key them, an entry's resource is that of all its records, and no two entries have the same one. |
| Markdown.EscapeByteByByte | internal/webhook/wechat.go:47-52 | Escaping goes byte by byte and puts a backslash before backslashes, backticks and angle brackets only. |
| Markdown.UnescapeEscape | internal/webhook/wechat.go:47-52 | Unescaping an escaped value gives it back, whatever bytes it has. |
| Markdown.EscapedIsInert | internal/webhook/wechat.go:263-266 | A string is an escaped value exactly when every delimiter in it has a backslash of its own. |
| Markdown.TruncateKeeps | internal/webhook/wechat.go:279-290 | A value that fits is unchanged; any other is cut to exactly the limit, first runes first, with the marker if there is room for it. |
| Markdown.LineKeepsLimit | internal/webhook/wechat.go:236-252 | Runes written plus runes left stay the limit, and what is left never goes below zero. |
| Markdown.BlankLineKeepsLimit | internal/webhook/wechat.go:254-259 | So too for a blank line. |
| Markdown.MarkdownWriter.Line | internal/webhook/wechat.go:236-252 | A line is written whole but for its value, or refused with nothing changed, and it is refused exactly when its fixed parts do not fit. |
| Markdown.MarkdownWriter.WriteField | internal/webhook/wechat.go:224-234 | A field without a value takes no line; one that does not fit is left out. |
| Markdown.EveryFieldHasItsChance | internal/webhook/wechat.go:202-204 | A field there is room for is written, whatever became of the fields before it. |
| Markdown.Render | internal/webhook/wechat.go:199-213 | The text is the writer's after title, fields, blank line, heading and the body's lines up to the first refused one. |
| Markdown.RenderedWithinLimit | internal/webhook/wechat.go:199-259 | The text never exceeds the limit, and it is the complete alert, nothing cut and nothing left out, exactly when that fits. |
| Markdown.CompleteReads | internal/webhook/wechat.go:199-213 | The complete alert is the title, a line for each field with a value, an empty line, the heading and the quoted lines of the body. |
| Markdown.LinesRead | internal/webhook/wechat.go:207-234 | The frames of a field, highlighted or not, and of a body line. |
| Markdown.BodySurvives | internal/webhook/wechat.go:205-212 | The body section of the complete alert, stripped of its frame, unescaped and joined, is the original body. |

## Left out

- HTTP, gzip, protobuf, JSON and YAML: a send succeeds, fails for good or fails for now, and a save writes its snapshot by an atomic rename or not at all; syncing the directory is not modelled.
- Process enumeration, globbing, `/proc`, stat calls and file watching: a file's identity is a pair of numbers, and cleanup is given what is found at each path.
- The meaning of regular expressions, severities and timestamps: the start pattern, the level filter and the timestamp parser are arbitrary functions.
- A file that is cut and grown past the stored offset between two polls cannot be noticed by the program, and the theorems over several polls are about files that only grow; a file shorter than the stored offset is read from zero (`Polling.StartOffset`).
- Two paths with one inode in the same round, and a target whose rules change while its file is tailed: rules belong to the identity.
- Tailers.Tailer.Accept: buffers are values in a map, where the program mutates a shared buffer through a pointer, so aliasing of a buffer is not modelled; `Workers` models the window in which the lock is released.
- Workers.RunsAlone: handing targets to a fixed number of workers through a channel is an arbitrary interleaving of their steps, so the number of workers and the cancellation of a poll that is still handing out targets do not appear.
- Tailers.Tailer.Read: a file that cannot be opened, examined or positioned ends the round before it begins, with nothing changed; such a round does not appear.
- PositionStore.Store.Load: a state file that cannot be read or decoded stops the program at start-up; a missing one is the empty table.
- Recovery.RestartLeavesNoGap: for single-line mode; for a file with `start_at = end`, over runs whose cleanups spare that file, which `CleanupIsSafeExactly` shows to be necessary.
- Retry.SendWithRetry: durations are unbounded integers with exact timers, so rounding in floating point and overflow of 64-bit durations are not modelled; without a time limit the loop may never end, so it is watched for an arbitrary number of sends.
- SaveProtocol.CleanMeansSaved: the generation is unbounded, where the program's wraps around after 2^64 changes.
- Batcher.Batching.Run: the flush timer and the cancellation are events in an arbitrary order, and a cancellation that interrupts a send is one of the failures of that send; records that come in while the last batch is being sent are in `Pipeline` only.
- Markdown.BodySurvives: an alert that does not fit is cut after escaping, which may separate a backslash from the delimiter it escapes, so decoding is claimed only of a complete alert.
- The fields an alert is made of (host name, environment, keyword lists) and JSON around it: lookups and defaults.
- The rate limiter in front of the exporter, configuration checks and hot reload, logging, and the cache of paths already logged by discovery: validated limits appear as preconditions, the rest changes no record.
- Observed timestamps and the clock substituted for a missing timestamp: added when a record is handed over, after everything modelled here.
