# rowforge, verified

rowforge reads the rows of an input file, sends them through a pool of handler
processes, records every outcome as a line of an append-only log, and later
derives what became of each row from the logs of all attempts. This project
models those four stages in Dafny and proves what they keep:

- **The dispatch pipeline** as a transition system over all interleavings
  (`Pipeline*.dfy`, `Pool.dfy`, `Batching.dfy`, `WorkerLines.dfy`): conservation
  of rows, at most one outcome per row, exactly when a finished run is complete
  and when its report is flagged, termination, exactly which inputs can block it,
  cancel safety, a backpressure bound, schedule-independent and minimal batching,
  one log line per batch taken, and outcomes in input order for stateful handlers.
  One action is one stretch of a task between two points where it can be
  suspended; a `biased` select is one action, its cancel arm whenever cancel is
  set. The class `Pool.StreamingPool` performs the same actions in place.
- **One worker and its handler** (`Worker.dfy`, `Handler.dfy`, `Lockstep.dfy`):
  the host throws the reply's `seq` away, so attribution rests on both sides
  staying in step over two FIFO pipes. `Joint.dfy` puts W such sessions under
  the pool and follows every outcome of an attempt's log back to its origin, and
  `EndToEnd.dfy` follows the lines of the exported files back to the handlers.
- **Row resolution** (`Resolution.dfy`, `ResolutionLaws.dfy`, `Histories.dfy`,
  `Store.dfy`): the mutable fold equals a declarative reading of each row's
  events; it ignores completion order; retry policies give at most one success
  per row over whole histories.
- **Readers of the log** (`Export.dfy`, `ExportLines.dfy`, `ExportFiles.dfy`,
  `RowHistory.dfy`, `FailedPage.dfy`, `LogTail.dfy`, `Lines.dfy`,
  `JsonlInput.dfy`), which must agree with it.
- **Timing** (`StallMonitor.dfy`, `TokenBucket.dfy`, `Aggregator.dfy`), over the
  reals.

`dafny verify dfyconfig.toml` checks everything.

The main results are stated over what is configured, what was done and what was
logged: the fields of the runtime, the actions of the schedule, the outcomes of the
log and the characters of a cell, with the source's constants written out, not over
the functions that compute the answer.

## What the proofs found

- `aborted == false` does not mean that the log is complete.
  `PipelineReport.DeadWorkersLookComplete` and
  `PipelineReport.SoftCancelLooksComplete` are two such runs. Which inputs can
  come to this is known before the run (`PipelineForecast.UnflaggedIncompleteIff`):
  without a caller's token exactly those that make more batches than there are
  workers (every worker can lose its stdin on a batch of its own, and what is left
  stays in the queue; a pool of no workers needs its batches, at least one and at
  most 64, to fit the queue), with a token exactly those that select any row. And
  for a run at hand: one whose accumulator reached the end of input, without a
  failed append, is complete iff the job queue is empty
  (`PipelineComplete.DrainedCompleteIff`); without a token the only way to be
  unflagged and incomplete is that every worker left after a failed write
  (`PipelineComplete.IncompleteMeansWritesFailed`); and a cancelled run in which no
  append failed is complete iff at the moment of the cancel no selected row was
  queued, pending, held or unread (`PipelineComplete.CancelledCompleteIff`).
- The report of a finished run is flagged iff the run stalled, an append to the log
  failed, a hard cancel came, or the accumulator got to a flush only after a cancel
  (`PipelineFlag.FlaggedIff`). With a token any unfinished run can be killed, and is
  then flagged (`PipelineFlag.KilledIsFlagged`); an attempt flagged on any of these
  grounds blocks a strict export (`EndToEnd.FlaggedAttemptBlocksExport`).
- The pipeline can block without a cancel, but only in one way: every worker has
  left its loop, after a failed write to its handler's stdin or a failed append to
  the log, and a full job queue faces the accumulator
  (`PipelineLive.BlockedIffWedged`). An input can lead there iff it makes at least
  65 + W batches, W being the number of workers (`PipelineForecast.CanWedgeIff`):
  one for each worker to die on, 64 in the queue, one in the accumulator's hands.
  66 rows and one worker whose first write fails are an instance
  (`PipelineReport.WedgedIsReachable`). The stall monitor ends that wait.
- When nothing goes wrong all is well: with at least one worker, handlers that
  answer with results, and no cancel or failed write or append, no run blocks and
  every finished one holds exactly one outcome per selected row, a success iff the
  row is not oversized (`PipelineSmooth.SmoothRunsSucceed`).
- Attribution of replies to rows holds in every run if and only if every line on
  the handler's stdout is valid UTF-8, no line but the SDK's own parses as a
  message, and reading the pipe never fails (`Lockstep.AttributedIffClean`); each
  of the three is needed. Then every outcome in a log is a ROW_TOO_LARGE for a row
  over 4 MiB, a crash under the code that the declared idempotence demands, or what
  the handler given that row made of it (`Joint.EveryOutcomeIsExplained`). After a line that is not UTF-8, or a failed read,
  `Worker::recv` returns an error, the worker loop records a crash for the row it
  was waiting for and goes on, and the next row is logged with the previous row's
  answer (`Lockstep.GarbageMisattributes`, `Lockstep.FailedReadMisattributes`). A
  debug print of a result object is taken for the answer itself
  (`Lockstep.SpoofMisattributes`).
- `--retry-failed` derives its skip set from the recorded row count, so retrying
  is safe for an input iff all its rows, oversized ones apart, are numbered below
  that count (`Histories.RetrySafeIff`); otherwise a default attempt followed by a
  retry logs two successes for one row (`Histories.RetryRepeatsSuccess`). For JSONL inputs
  that cannot happen (`JsonlInput.NumbersBelowCount`). It can for CSV: the count
  is of newlines only, so a file such as `id<CR>1<CR>2<CR>`, whose records end in
  bare carriage returns, counts as no row at all
  (`Lines.BareReturnsAreOneLine`), while the default CSV reader opened at
  crates/rowforge-core/src/input_stream.rs:93-96 takes a bare carriage return as
  the end of a record and yields rows 0 and 1.
- `completion_percent` reads 100 exactly when the row count is 0 or the rows never
  attempted and the rows logged beyond the row count are equally many
  (`Export.CompletionIff`). The CSV file `id,x<LF>1<CR>2,y<LF>` counts one row and
  holds two, the first of which does not parse: once row 1 has succeeded the export
  claims 100 percent although row 0 was never attempted
  (`Export.HundredPercentWithARowMissing`). For `id<CR>1<CR>2<CR>`, which counts no
  row, it claims 100 percent whatever has become of the two rows.
- A key the handler left out is null in a JSONL export, and a null it answered with
  is the empty string there; a CSV export makes both the empty cell
  (`ExportFiles.NullIffLeftOut`, `ExportFiles.JsonlSaysAsCsv`).
- `row_history` names the resolving attempt iff the first attempt that logs a
  success for the row logs it before anything else about that row
  (`RowHistory.ResolvedAtIff`). The pool's own logs never repeat a row and so
  always agree (`RowHistory.RowHistoryAgreesForRuns`); a log from elsewhere that
  holds a failure and then a success resolves the row without a `resolved_at`
  (`RowHistory.RepeatedRowDisagrees`).
- A failure is sampled for the live view iff even with it no stretch of t seconds
  ending now holds more than 18 + 18 t samples (`TokenBucket.SampledIff`).
- The columns of failed.csv include keys that only came with failures of rows that
  have succeeded since (`Export.FailureColumnsIff`).
- With `limit` 0 the next page starts where this one did
  (`FailedPage.PagingAdvancesIff`).

Where code and comments differ, the model follows the code:
`hash_and_count_rows` is described as counting the non-empty lines of a JSONL
file but counts every line, and JSONL row numbers are described as aligned with
the file's line numbers although blank lines before the first row use up none.

## Model

| member | source | states |
|---|---|---|
| Batching.GreedyIsLegal | crates/rowforge-core/src/accumulator.rs:85-199 | the reference cut is in order, loses no row, respects the count cap, and every batch of two or more rows stays within the smaller byte cap |
| Batching.GreedyIsOptimal | crates/rowforge-core/src/accumulator.rs:85-199 | no in-order partition that meets the same caps has fewer batches |
| Batching.StreamIsGreedy | crates/rowforge-core/src/accumulator.rs:123-172 | deciding row by row, with flushes before and after each row, cuts exactly where the longest-prefix reference cuts |
| Batching.Accumulator.Flush | crates/rowforge-core/src/accumulator.rs:224-250 | the pending rows become one job and nothing stays pending |
| Batching.Accumulator.Receive | crates/rowforge-core/src/accumulator.rs:113-172 | one received row changes neither the jobs sent nor those still to come, for any rows that follow; an oversized row becomes its own log line instead |
| Batching.Accumulator.Run | crates/rowforge-core/src/accumulator.rs:99-199 | without a cancel the jobs cut the rows of at most 4 MiB, in order, into batches within the configured size and byte caps, each but the last full; the lines are the other rows, in order |
| Batching.WithinMaxBytes | crates/rowforge-core/src/runtime.rs:70-104 | a validated batch runtime's cap on single rows keeps every legal batch within `max_batch_bytes` |
| Batching.GreedyIsPacked | crates/rowforge-core/src/accumulator.rs:85-172 | on the runtime's own fields: batches of one row in row mode, else of at most `batch_size` rows (100 without one) within both byte caps unless a single row, and no batch but the last could have taken the next row |
| Batching.ValidatesIff | crates/rowforge-core/src/runtime.rs:70-104 | row mode, or a batch size within 1 to 10000, idempotence declared, and room for every row that may be dispatched |
| WorkerLines.LostRowsAreCrashed | crates/rowforge-core/src/worker_loop.rs:272-285 | however a worker is lost, each row it held is reported under WORKER_CRASH_UNSAFE if the runtime declares `idempotent: false`, and under WORKER_CRASH otherwise |
| PipelineLines.LoggedLinesAreSound | crates/rowforge-core/src/pool.rs:70-81 | in every reachable state each logged line has outcomes, names their seqs in order and the first of them as its first seq; batches leave the queue in the order they were sent |
| Protocol.RowReplyOutcome | crates/rowforge-core/src/worker_loop.rs:141-158 | whatever `seq` the reply carried the outcome is the dispatched row's: a success with the data exactly for a result, the handler's own code, message and data for an error, a crash without a message |
| Protocol.BatchReplyOutcomes | crates/rowforge-core/src/worker.rs:274-328 | one outcome per dispatched row in order; for a batch result of equal length entry i is row i's, anything else fails every row |
| Protocol.ReplyOutcomes | crates/rowforge-core/src/worker_loop.rs:100-206 | the outcomes cover exactly the rows the worker holds: in row mode the result's data or the error's own code, message and data under the dispatched seq, in batch mode entry i under the i-th seq when the lengths agree; all crashed without a message, and no success without a result |
| WorkerLines.LostIsCrash | crates/rowforge-core/src/worker_loop.rs:154-206 | an end of stream or a read error is logged like a lost worker: a crash of every row held |
| Pipeline.SelectIsFilteredPrefix | crates/rowforge-core/src/reader.rs:136-173 | the reader picks the first `row_limit` of the rows that parse and pass `only_row_ids` or `skip_seqs` |
| PipelineAccount.SelectedIff | crates/rowforge-core/src/reader.rs:158-167 | without a limit a row of the input is selected iff `only_row_ids` holds it or, when that is absent, `skip_seqs` does not |
| PipelineAccount.WorkersAsAsked | crates/rowforge-core/src/pool_streaming.rs:188-198 | in every reachable state there are as many workers as asked for, and one for a stateful handler |
| PipelineOrder.StatefulInOrder | crates/rowforge-core/src/pool_streaming.rs:188-198 | with a stateful handler, of two lines about dispatched rows the later one is about later rows of the input |
| PipelineSafety.InvStep | crates/rowforge-core/src/pool_streaming.rs:203-378 | every action of every task keeps the bounds of both queues, the shape of each task's hands, and the reasons for which a task may have ended or a row been dropped |
| PipelineAccount.AccountStep | crates/rowforge-core/src/worker_loop.rs:79-214 | every action keeps, for each seq, the sum over log, workers, job queue, accumulator, row queue, reader, unread input and dropped rows |
| PipelineAccount.Conservation | crates/rowforge-core/src/pool_streaming.rs:133-518 | in every reachable state the selected rows are the disjoint sum of those places, and nothing was dropped unless a cancel or a failed append happened |
| PipelineAccount.AtMostOnceInLog | crates/rowforge-core/src/worker_loop.rs:79-214 | no seq occurs twice in one attempt's log, and only selected rows occur |
| PipelineAccount.CompleteIffNothingMissed | crates/rowforge-core/src/pool_streaming.rs:381-518 | a joined run's log covers its selection exactly when no batch stayed queued, no row was dropped and none stayed unread |
| PipelineAccount.CompleteIffJobsDrained | crates/rowforge-core/src/pool_streaming.rs:381-518 | without a caller's token, a report with `aborted == false` means a complete log exactly when the job queue was emptied |
| PipelineAccount.NormalRunIsComplete | crates/rowforge-core/src/pool_streaming.rs:381-518 | one worker that left on the closed and drained queue suffices: one outcome for each selected row and nothing else |
| PipelineComplete.DrainedCompleteIff | crates/rowforge-core/src/accumulator.rs:174-199 | with or without a token, cancelled or not: when the accumulator reached the end of input and no append failed, the log is complete iff the job queue is empty |
| PipelineComplete.IncompleteMeansWritesFailed | crates/rowforge-core/src/worker_loop.rs:111-119 | without a token, an unflagged incomplete run has batches queued and every worker left after a failed write |
| PipelineComplete.CancelledCompleteIff | crates/rowforge-core/src/accumulator.rs:101-107 | a run cancelled from outside or by the monitor, without a failed append, ends complete iff at the cancel nothing selected was queued, pending, held or unread |
| PipelineComplete.SoftCancelCompleteIff | crates/rowforge-core/src/pool_streaming.rs:480-518 | the same condition decides for every soft cancel that the report does not flag |
| PipelineReport.DeadWorkersLookComplete | crates/rowforge-core/src/worker_loop.rs:113-119 | a reachable finished run with `aborted == false` and a missing row: the only worker lost its stdin |
| PipelineReport.SoftCancelLooksComplete | crates/rowforge-core/src/accumulator.rs:101-107 | the same after a soft cancel that the accumulator sees in its receive |
| PipelineReport.WedgedIsReachable | crates/rowforge-core/src/accumulator.rs:252-278 | 66 rows and one worker whose first write fails: a reachable state in which no task can move |
| PipelineSmooth.SmoothRunsSucceed | crates/rowforge-core/src/worker_loop.rs:79-214 | in every finished run of at least one worker in which handlers answer with results, writes and appends succeed and nobody cancels, the log is complete and unflagged, a selected row succeeds iff it is not oversized, and any other outcome is a ROW_TOO_LARGE |
| PipelineSmooth.SmoothGoesOn | crates/rowforge-core/src/pool_streaming.rs:381-400 | such a run never blocks: until it has joined it can go on in the same way |
| PipelineForecast.CanWedgeIff | crates/rowforge-core/src/accumulator.rs:252-278 | some run over an input blocks without a cancel iff the input makes at least 65 + W batches |
| PipelineForecast.UnflaggedIncompleteIff | crates/rowforge-core/src/pool_streaming.rs:413-518 | some run over an input ends with `aborted == false` and rows missing iff there is a caller's token and anything is selected, or there is none and the batches outnumber the workers (and fit the queue if there are no workers) |
| PipelineForecast.ReadAheadIff | crates/rowforge-core/src/reader.rs:136-204 | the reader can get k rows ahead of the accumulator, of those selected, exactly for k up to 65 |
| PipelineFlag.FlaggedIff | crates/rowforge-core/src/pool_streaming.rs:413-518 | for every schedule that ends joined: the report is flagged iff a stall, a failed append, a hard cancel, or a flush reached after a cancel is among its actions |
| PipelineFlag.KilledIsFlagged | crates/rowforge-core/src/pool_streaming.rs:459-481 | with a token every unfinished run, even after a soft cancel, can be brought to an end that is flagged |
| PipelineFlag.EndedBy | crates/rowforge-core/src/pool_streaming.rs:381-400 | any run not yet cancelled can be ended by a stall verdict, or with a token by a cancel |
| PipelineOrigins.OriginHolds | crates/rowforge-core/src/accumulator.rs:113-121 | in every reachable state the rows under way are selected ones, and those rejected as too large are selected and oversized |
| PipelineLive.MeasureDrops | crates/rowforge-core/src/worker_loop.rs:79-214 | every enabled action of any task lowers one natural number |
| PipelineLive.RunsTerminate | crates/rowforge-core/src/pool_streaming.rs:133-518 | no run has more than 20 actions per input item plus 4 per worker plus 8 |
| PipelineLive.BlockedIffWedged | crates/rowforge-core/src/accumulator.rs:252-278 | before the join some task can move, except exactly when all workers have left and the full job queue holds up the accumulator |
| PipelineLive.CancelAlwaysUnblocks | crates/rowforge-core/src/reader.rs:189-204 | once cancel has fired every unfinished task has an enabled step, even with both queues full |
| PipelineLive.MaximalRunsJoin | crates/rowforge-core/src/pool_streaming.rs:381-400 | a run no task can extend has joined, or is wedged and can still be cancelled by the monitor |
| PipelineLive.Backpressure | crates/rowforge-core/src/pool_streaming.rs:203-206 | rows read but neither recorded nor dropped number at most 65 + (65 + W) * max_count in every reachable state |
| PipelineLive.CancelSafety | crates/rowforge-core/src/worker_loop.rs:83-96 | after the cancel nothing is enqueued or pulled, and at most W + 1 lines are appended |
| PipelineBatches.BatchesIndependentOfSchedule | crates/rowforge-core/src/accumulator.rs:85-199 | in every interleaving the batches sent so far are a prefix of one list fixed by the input, and all of it at end of input |
| PipelineBatches.SentIsPacked | crates/rowforge-core/src/accumulator.rs:123-172 | in every run each batch sent obeys the configured size and byte caps, and each but the last is full |
| PipelineBatches.BatchesAreFewest | crates/rowforge-core/src/accumulator.rs:85-199 | of all ways to cut the selected rows of at most 4 MiB within the configured caps none has fewer batches than a run that reaches end of input |
| PipelineBatches.SentWithinMaxBytes | crates/rowforge-core/src/accumulator.rs:123-151 | in batch mode no batch sent in any run exceeds `max_batch_bytes` |
| PipelineBatches.OneLinePerBatch | crates/rowforge-core/src/worker_loop.rs:126-213 | when all workers have left, any list of seqs heads as many lines and queued batches as batches sent and oversized rows, at most so many after a failed append |
| PipelineLines.OneLineEach | crates/rowforge-core/src/worker_loop.rs:126-213 | when all workers have left and no append failed, each batch ever taken from the queue has exactly one line, naming its seqs in order |
| Pool.StreamingPool.constructor | crates/rowforge-core/src/pool_streaming.rs:186-206 | the pool starts with empty queues and as many idle workers as asked for, one when the handler is stateful |
| Pool.StreamingPool.ReadNext | crates/rowforge-core/src/reader.rs:136-173 | one turn of the reader's loop up to its send |
| Pool.StreamingPool.SendRow | crates/rowforge-core/src/reader.rs:187-204 | the cancel-aware send, a closed receiver included |
| Pool.StreamingPool.ReceiveRow | crates/rowforge-core/src/accumulator.rs:99-172 | the cancel-aware receive and the decision about the row |
| Pool.StreamingPool.FlushPending | crates/rowforge-core/src/accumulator.rs:246-278 | the cancel-aware send of a batch, which on cancel drops the batch and the row just received |
| Pool.StreamingPool.RejectRow | crates/rowforge-core/src/accumulator.rs:113-121 | an oversized row is appended to the log, or the accumulator ends when that fails |
| Pool.StreamingPool.PullBatch | crates/rowforge-core/src/worker_loop.rs:83-96 | a worker holding the lock takes the next batch, or leaves on cancel or on the closed empty queue |
| Pool.StreamingPool.WriteBatch | crates/rowforge-core/src/worker_loop.rs:111-119 | a failed write leads to crash outcomes for the batch and the end of the loop |
| Pool.StreamingPool.TakeReply | crates/rowforge-core/src/worker_loop.rs:141-160 | a reply, an end of stream or a read error is turned into outcomes and the loop goes on |
| Pool.StreamingPool.CutOffWorker | crates/rowforge-core/src/worker_loop.rs:126-140 | a cancel while waiting leads to crash outcomes and the end of the loop |
| Pool.StreamingPool.AppendLine | crates/rowforge-core/src/worker_loop.rs:208-213 | the line lands in the log, or the worker ends with an error |
| Pool.StreamingPool.Run | crates/rowforge-core/src/pool_streaming.rs:133-400 | running any schedule in place ends in the state the transition system gives, a reachable one |
| Pool.StreamingPool.RunToReport | crates/rowforge-core/src/pool_streaming.rs:133-518 | a whole run in place, and its report flagged iff it stalled, lost an append, was cancelled hard, or came to a flush after a cancel |
| Pool.ComputeRunStats | crates/rowforge-core/src/pool_streaming.rs:541-581 | successes and failures add up to the outcomes, and each code is counted as often as it occurs |
| Pool.CodesAreCounted | crates/rowforge-core/src/pool_streaming.rs:541-581 | each code is counted as often as errors came under it, a crash counting as one of WORKER_CRASH |
| Pool.CompleteRunCounts | crates/rowforge-core/src/pool_streaming.rs:527-581 | of a complete run `success` and `failed` add up to the rows selected, and `failed` is 0 iff each of them succeeded |
| Worker.Worker.Recv | crates/rowforge-core/src/worker.rs:338-391 | the first line that is neither blank nor noise decides, and exactly the lines up to it are consumed |
| Worker.WhatIsRead | crates/rowforge-core/src/worker.rs:338-391 | behind blank and noise lines a message is that message, a line that is not UTF-8 a read error, and nothing more the end |
| Worker.Worker.RecvBatchResult | crates/rowforge-core/src/worker.rs:274-328 | entries are aligned with the expected seqs by position; any mismatch makes every row a protocol error |
| Handler.Run | sdks/go/protocol.go:68-143 | up to a shutdown, a malformed line or a failed emit, one reply per row in order, carrying that row's seq and verdict; it exits exactly on a malformed line, a failed emit or a scanner error |
| Handler.RowReply | sdks/go/protocol.go:97-122 | reading the envelope back gives the handler's own verdict for the row |
| Handler.ReplyToBatch | sdks/go/batch.go:117-140 | an entry for every result in place, or exit exactly when the lengths differ or the emit fails |
| Handler.BatchRoundTrip | sdks/go/batch.go:118-131 | the host reads back each row's own verdict from the positional entries |
| Lockstep.EnvelopeRoundTrip | crates/rowforge-core/src/worker_loop.rs:141-153 | in either mode the line logged for a reply reports every row of the call under its own number with its own verdict |
| Lockstep.InvStep | sdks/go/protocol.go:68-123 | every step of host and handler keeps them in step while stdout is clean |
| Lockstep.CleanIsAttributed | crates/rowforge-core/src/worker_loop.rs:79-214 | with a clean stdout the k-th line is a crash of the k-th batch or the handler's own answers for exactly those rows, and at most one request is outstanding |
| Lockstep.SuccessIsHandlers | crates/rowforge-core/src/worker_loop.rs:141-147 | a success logged for a row carries the data the handler returned for that very row |
| Lockstep.AnswerGetsThrough | crates/rowforge-core/src/worker_loop.rs:126-153 | from every reachable waiting state, whatever the handler makes of the batch can be read and is logged as it was |
| Lockstep.SilenceIsCrash | crates/rowforge-core/src/worker_loop.rs:154-206 | a handler gone without an answer leaves a crash of the batch |
| Lockstep.GarbageMisattributes | crates/rowforge-core/src/worker.rs:342-350 | one unreadable line before the reply: row 0 is logged as crashed and row 1 with row 0's answer |
| Lockstep.SpoofMisattributes | crates/rowforge-core/src/worker.rs:355-372 | one foreign line that parses as a result: row 0 is logged as a success although the handler was never called |
| Lockstep.FailedReadMisattributes | crates/rowforge-core/src/worker_loop.rs:156-157 | one failed read: row 0 is logged as crashed and row 1 with row 0's answer |
| Lockstep.AttributedIffClean | crates/rowforge-core/src/worker.rs:338-391 | attribution holds in every run iff stdout is UTF-8, carries no foreign message and can be read |
| Joint.InvStep | crates/rowforge-core/src/worker_loop.rs:79-214 | every step of the pool, of a pipe or of a handler keeps each worker paired with its session, and every logged line derived in one |
| Joint.EveryOutcomeIsExplained | crates/rowforge-core/src/worker_loop.rs:79-214 | end to end, over all runs of the pool with W handlers: an outcome in the log is about the one selected row of its number; it is ROW_TOO_LARGE if that row is over 4 MiB, else a crash under the declared code or what the handler given the row made of it |
| Joint.PoolCanBeFollowed | crates/rowforge-core/src/worker_loop.rs:79-214 | whatever action short of an answer the pool can take, pool and handlers together can |
| Joint.SessionsCanBeFollowed | crates/rowforge-core/src/worker_loop.rs:126-160 | whatever the handlers can do, and before a cancel whatever a waiting worker can read, can happen in the whole |
| Joint.EverySuccessIsTheHandlers | crates/rowforge-core/src/worker_loop.rs:141-153 | in particular a success carries the data the handler returned for that row |
| Resolution.RowSpecSnoc | crates/rowforge-core/src/row_resolution.rs:255-319 | the source's update of a row equals reading its whole history anew: first success, else last failure |
| Resolution.ResolutionSnoc | crates/rowforge-core/src/row_resolution.rs:255-319 | one more outcome changes its own row's entry and no other |
| Resolution.Resolver.constructor | crates/rowforge-core/src/row_resolution.rs:123-148 | every row below the input row count starts as never attempted |
| Resolution.Resolver.ApplyRowOutcome | crates/rowforge-core/src/row_resolution.rs:255-319 | the map stays the declarative resolution of all outcomes applied so far |
| Resolution.Resolver.IngestLog | crates/rowforge-core/src/row_resolution.rs:215-253 | a log adds all its outcomes, line by line in order |
| Resolution.Resolver.WalkAttempts | crates/rowforge-core/src/row_resolution.rs:140-160 | the result is the declarative resolution of all attempts that are not running; merged and skipped ids are listed in order |
| ResolutionLaws.StateIff | crates/rowforge-core/src/row_resolution.rs:85-120 | a row is Resolved iff some counted outcome of it succeeded, attempted iff it has one, failed iff it has one and none succeeded |
| ResolutionLaws.CanonicalIsEarliest | crates/rowforge-core/src/row_resolution.rs:262-281 | the canonical success is the record of the earliest success |
| ResolutionLaws.UnresolvedIsLast | crates/rowforge-core/src/row_resolution.rs:282-318 | an unresolved row's record is that of its last outcome |
| ResolutionLaws.StateByLast | crates/rowforge-core/src/row_resolution.rs:394-402 | an unresolved row is crashed iff its last outcome is a crash or an error under a crash code, cancelled iff under CANCELLED, too large iff under ROW_TOO_LARGE, and failed iff under any other code |
| ResolutionLaws.RecordSays | crates/rowforge-core/src/row_resolution.rs:325-392 | a record names the outcome's attempt, row, kind and code |
| ResolutionLaws.SynthesizedStates | crates/rowforge-core/src/row_resolution.rs:394-402 | rows last touched by a synthesised failure end as crashed, too large or failed, as their code says |
| ResolutionLaws.HistoryMembers | crates/rowforge-core/src/row_resolution.rs:140-160 | what counts is exactly what attempts that are not running have logged |
| ResolutionLaws.OrderIndependence | crates/rowforge-core/src/row_resolution.rs:215-319 | permuting the lines of logs that hold each row at most once leaves the whole per-row map unchanged |
| ResolutionLaws.ReingestIsIdempotent | crates/rowforge-core/src/row_resolution.rs:215-319 | ingesting a log again right after itself changes nothing, whatever precedes or follows |
| ResolutionLaws.ResolutionOnlyGrows | crates/rowforge-core/src/row_resolution.rs:85-120 | adding or finishing attempts only grows the resolved and the attempted sets |
| Store.ExecutionStore.CreateAttempt | crates/rowforge-core/src/execution_store.rs:525-598 | a new running attempt at the end, refused exactly without the execution, for a closed or abandoned one, or for an unknown handler instance |
| Store.ExecutionStore.DeleteExecution | crates/rowforge-core/src/execution_store.rs:732-740 | the execution and all its attempts go together |
| Store.ExecutionStore.FinishAttempt | crates/rowforge-core/src/execution_store.rs:603-643 | only a running attempt is finished, and nothing else changes but an open execution moving on |
| Store.FinishSays | crates/rowforge-core/src/execution_store.rs:603-643 | the finished attempt is aborted or completed as told and keeps its log, no other attempt changes, and an open execution becomes iterating |
| Store.AttemptRoundTrip | crates/rowforge-core/src/execution_store.rs:525-643 | an attempt created, given its lines and finished stands in the store with exactly these lines and the state told |
| Store.FinishedIsFinal | crates/rowforge-core/src/execution_store.rs:603-643 | over any further operations finished attempts stay as they are, iff the execution is not deleted or had no attempts |
| Store.StoreOnlyGrows | crates/rowforge-core/src/execution_store.rs:525-643 | over any further operations but a deletion a resolved row stays resolved and an attempted row attempted |
| Store.DeletionForgets | crates/rowforge-core/src/execution_store.rs:732-740 | after a deletion no row counts as attempted |
| Histories.DispatchedIff | crates/rowforge-cli/src/exec_cmd.rs:325-355 | which rows each policy dispatches, in terms of what the logs hold |
| Histories.RedispatchIff | crates/rowforge-cli/src/exec_cmd.rs:325-355 | a succeeded row is dispatched again only by `--force`, or by `--retry-failed` when numbered beyond the row count |
| Histories.AtMostOneSuccess | crates/rowforge-cli/src/exec_cmd.rs:325-355 | over any sequence of finished default and `--retry-failed` attempts, with any sampling, cancels and crashes, nothing about a row is logged after its success |
| Histories.RetryRepeatsSuccess | crates/rowforge-cli/src/exec_cmd.rs:325-345 | for any row of proper size numbered at or beyond the count: a finished default attempt and a finished retry that log two successes for it |
| PipelineLines.SuccessIsOfProperSize | crates/rowforge-core/src/accumulator.rs:113-121 | a success in any reachable log is about a selected row within the hard cap |
| Histories.RetrySafeIff | crates/rowforge-cli/src/exec_cmd.rs:325-355 | over a given input, no history without `--force` repeats a success iff every row of proper size is numbered below the count |
| Histories.AtMostOneOutcome | crates/rowforge-cli/src/exec_cmd.rs:325-355 | with default attempts only each row gets at most one outcome |
| Histories.AtMostOneSuccessForJsonl | crates/rowforge-core/src/input_stream.rs:276-326 | for a JSONL file the bound on row numbers is proved from the file, not assumed |
| JsonlInput.Open | crates/rowforge-core/src/input_stream.rs:193-250 | opening skips leading blank lines and fails exactly on a malformed first row or one without the required keys |
| JsonlInput.JsonlIter.Next | crates/rowforge-core/src/input_stream.rs:276-326 | each call yields the next specified item, and none only at the end |
| JsonlInput.ReadJsonl | crates/rowforge-core/src/input_stream.rs:179-326 | opening and draining the stream yields exactly the specified items |
| JsonlInput.NumbersBelowCount | crates/rowforge-core/src/input_stream.rs:276-326 | row numbers increase strictly and stay below the number of lines |
| JsonlInput.RowsAreLines | crates/rowforge-core/src/input_stream.rs:193-326 | row k is the line k after the first that is not blank: blank and malformed lines behind it use up a number, blank ones before it none; opening fails iff that first line is malformed or lacks a key |
| Lines.CountRows | crates/rowforge-core/src/execution_store.rs:924-960 | one pass over the bytes counts the lines, less the header for CSV |
| Lines.SplitJoins | crates/rowforge-core/src/execution_store.rs:924-960 | the lines put together again are the text, and no line holds a newline |
| Lines.BareReturnsAreOneLine | crates/rowforge-core/src/execution_store.rs:924-960 | without a newline the whole text is at most one line, so a CSV file counts no rows |
| RowHistory.ReadOutcomeForSeq | crates/rowforge-studio-core/src/lib.rs:1463-1509 | the first outcome for the row in the log, in file order |
| RowHistory.ReadRowHistory | crates/rowforge-studio-core/src/lib.rs:1039-1087 | the first matches of the attempts up to the first that is a success, and that attempt |
| RowHistory.EntriesReport | crates/rowforge-studio-core/src/lib.rs:1039-1087 | each entry names its attempt and says whether it was a crash, or the error's code; they end before the first success |
| RowHistory.RowHistoryAgrees | crates/rowforge-studio-core/src/lib.rs:1039-1087 | if no log repeats a row, `resolved_at` is the canonical success's attempt and the last failure entry names the attempt and code of the latest failure, with running attempts counted as finished |
| RowHistory.RowHistoryAgreesForRuns | crates/rowforge-studio-core/src/lib.rs:1039-1087 | over histories of pool runs both halves of that agreement need no assumption |
| RowHistory.ResolvedAtIff | crates/rowforge-studio-core/src/lib.rs:1039-1087 | whatever the logs hold, `resolved_at` names the resolving attempt iff that attempt's first outcome for the row is its success |
| RowHistory.RepeatedRowDisagrees | crates/rowforge-studio-core/src/lib.rs:1463-1509 | a failure followed by a success within one log resolves the row without a `resolved_at` |
| Export.ComputeResolution | crates/rowforge-core/src/row_resolution.rs:123-180 | over the logs of all attempts: the counts are the rows with a success, those whose last outcome is of each kind, and those without an outcome; a code is counted once per row that ended failed under it |
| Export.CountsCover | crates/rowforge-core/src/row_resolution.rs:161-180 | the six counts add up to the rows of the map |
| Export.RecordCell | crates/rowforge-core/src/row_resolution.rs:325-392 | looking a non-reserved key up in a record gives the handler's value for it, or the empty cell |
| Export.FixedCells | crates/rowforge-core/src/row_resolution.rs:353-384 | the errcode and errmessage cells are the failure's own, even if the handler used these keys |
| Export.DiscoverSuccessKeys | crates/rowforge-core/src/export.rs:184-196 | the columns are the headers of all canonical successes but `seqid` |
| Export.DiscoverFailureDataKeys | crates/rowforge-core/src/export.rs:200-212 | the columns are the headers of all latest failures but the three reserved ones |
| Export.WriteSuccessCsv | crates/rowforge-core/src/export.rs:218-250 | one line per canonical success in ascending order |
| Export.WriteFailedCsv | crates/rowforge-core/src/export.rs:252-326 | one line per unresolved row in ascending order |
| Export.ExportIsPartition | crates/rowforge-core/src/export.rs:218-326 | the two files hold each row of the resolution exactly once, ascending, as many as the report says |
| Text.DecimalIsNumeral | crates/rowforge-core/src/export.rs:232-234 | a row number is written in digits, without leading zeros, that read from left to right as that number |
| Text.LeqIff | crates/rowforge-core/src/export.rs:184-212 | columns are ordered by the first character in which they differ, a prefix first |
| ExportLines.SuccessLineReads | crates/rowforge-core/src/export.rs:230-246 | the first cell reads as the row's number, the others are the first success's own values as text or empty, and no key lacks a column |
| Export.EveryAnswerHasItsColumn | crates/rowforge-core/src/export.rs:184-196 | no key of an exported success is left without a column |
| Export.EveryDetailHasItsColumn | crates/rowforge-core/src/export.rs:200-212 | no data key of an exported failure is left without a column, the three reserved names apart |
| Export.SuccessColumnsIff | crates/rowforge-core/src/export.rs:184-196 | the columns are exactly the keys some first success answered, `seqid` apart |
| Export.FailureColumnsIff | crates/rowforge-core/src/export.rs:200-212 | the columns are exactly the keys that came with some row's last failure before any success, the three reserved names apart |
| ExportLines.FailedLineReads | crates/rowforge-core/src/export.rs:267-322 | the first cell reads as the row's number, then the last failure's own code, message and values, or that the row was never attempted |
| Export.CompletionIff | crates/rowforge-core/src/export.rs:90-102 | the percentage is 100 times the rows logged over the row count, and 100 for a count of 0; so when it is at most 100, and when it is 100 |
| Export.HundredPercentWithARowMissing | crates/rowforge-core/src/export.rs:90-102 | one row on record, row 1 succeeded, row 0 never attempted: 100 percent |
| ExportFiles.WriteSuccessJsonl | crates/rowforge-core/src/export.rs:349-376 | one object per canonical success in ascending order, under the success columns |
| ExportFiles.WriteFailedJsonl | crates/rowforge-core/src/export.rs:378-449 | one object per unresolved row in ascending order, under the failure columns |
| ExportFiles.JsonlSaysAsCsv | crates/rowforge-core/src/export.rs:218-449 | reading null as the empty cell, each JSONL line is the CSV line of the same row under the same names |
| ExportFiles.NullIffLeftOut | crates/rowforge-core/src/export.rs:349-376 | a value is null iff the handler left the key out, and otherwise the cell's text |
| ExportFiles.SuccessObjectReads | crates/rowforge-core/src/export.rs:349-376 | an object holds the row's number and, key by key, the first success's own values as strings, or null |
| ExportFiles.FailedObjectReads | crates/rowforge-core/src/export.rs:378-449 | an object holds the row's number, the last failure's code, message and values, or says that the row was never attempted |
| ExportFiles.ExportExecution | crates/rowforge-core/src/export.rs:491-580 | for each format: strict mode refuses exactly when some row has no outcome or some attempt was aborted; otherwise exactly the files asked for, and as many lines as reported |
| EndToEnd.SuccessCsvIsTheHandlers | crates/rowforge-core/src/export.rs:218-250 | over any attempts at one input with clean handlers: each line of success.csv is its row's number and, column by column with none missing, the values returned by a handler that was given exactly that row, in the first attempt with a success for it |
| EndToEnd.FailedCsvIsExplained | crates/rowforge-core/src/export.rs:252-326 | each line of failed.csv about an attempted row is the last outcome any attempt logged for it: ROW_TOO_LARGE if the row is oversized, else a crash or what a handler given that row made of it |
| EndToEnd.StrictExportIff | crates/rowforge-core/src/export.rs:491-510 | a strict export over a history is let through iff every row has an outcome and no run was flagged |
| EndToEnd.FlaggedAttemptBlocksExport | crates/rowforge-core/src/export.rs:491-510 | one run that stalled, lost an append, was killed or came to a flush after a cancel blocks it |
| FailedPage.ReadFailedPage | crates/rowforge-studio-core/src/failed.rs:124-194 | a page is a slice of the filtered failures in log order, at most 500 long, and the next offset is given exactly when more follow |
| FailedPage.PageSays | crates/rowforge-studio-core/src/failed.rs:124-194 | a page has at most 500 entries, full unless the failures end, each with the seq, code, message, data and duration logged; the next offset follows it iff more remain |
| FailedPage.FailuresIff | crates/rowforge-studio-core/src/failed.rs:136-160 | what is paged through are the errors and crashes, under the code asked for, a crash counting as the empty code |
| FailedPage.PagingAdvancesIff | crates/rowforge-studio-core/src/failed.rs:131-170 | the next offset lies further on exactly when the limit is at least 1 |
| FailedPage.ReadAllPages | crates/rowforge-studio-core/src/failed.rs:124-194 | following the offsets terminates and yields every failure exactly once, in log order |
| FailedPage.AttemptFailedRowIds | crates/rowforge-studio-core/src/lib.rs:958-992 | the failures' seqs, sorted and without repetition |
| FailedPage.PagesNameTheFailedRows | crates/rowforge-studio-core/src/lib.rs:958-992 | unfiltered pages and the id list name the same rows |
| LogTail.CutAnywhere | crates/rowforge-studio-core/src/lib.rs:1431-1452 | cutting a file anywhere and dropping the first piece leaves a suffix of its lines |
| LogTail.ReadTailLines | crates/rowforge-studio-core/src/lib.rs:1431-1452 | always a suffix of the lines, at most N long; exactly min(N, total) when every line is under 1000 bytes |
| StallMonitor.GrowthIff | crates/rowforge-core/src/jsonl_writer.rs:90-123 | the byte counter grows between two readings exactly when a line was appended between them |
| StallMonitor.Watch | crates/rowforge-core/src/jsonl_writer.rs:149-203 | the monitor reports a stall at the first tick that ends a silence longer than the timeout, unless a cancel came first |
| StallMonitor.CancelStopsIt | crates/rowforge-core/src/jsonl_writer.rs:149-203 | the monitor stops of itself exactly at the first tick that finds the cancel, and reports no stall from then on |
| StallMonitor.StallIsFirst | crates/rowforge-core/src/jsonl_writer.rs:149-203 | no tick that ends a silence longer than the timeout is passed over |
| StallMonitor.StallMeansGap | crates/rowforge-core/src/jsonl_writer.rs:149-203 | a stall verdict means a gap of more than T + p up to the moment of firing |
| StallMonitor.NeverWhileGrowing | crates/rowforge-core/src/jsonl_writer.rs:149-203 | no stall while every stretch longer than T + p holds an append |
| StallMonitor.FiringWindow | crates/rowforge-core/src/jsonl_writer.rs:149-203 | after the last growth the first silent tick past the timeout lies strictly between T + p and T + 3p |
| StallMonitor.VerdictInWindow | crates/rowforge-core/src/jsonl_writer.rs:149-203 | the monitor, not cancelled, reports the stall inside that window |
| TokenBucket.SampleBound | crates/rowforge-studio-core/src/aggregator.rs:115-170 | over any t seconds at most 18 + 18 t samples are sent |
| TokenBucket.SparseAllShown | crates/rowforge-studio-core/src/aggregator.rs:160-169 | failures at least 1/18 s apart are all sampled |
| TokenBucket.SampledIff | crates/rowforge-studio-core/src/aggregator.rs:115-170 | a failure is sampled iff even with it no stretch of t seconds ending now holds more than 18 + 18 t samples |
| Aggregator.RotateLeft | crates/rowforge-studio-core/src/aggregator.rs:201-208 | the buffer shifted by one in place |
| Aggregator.WindowSum | crates/rowforge-studio-core/src/aggregator.rs:193-210 | a buffer's slots add up to the progress over as many ticks as it has slots |
| Aggregator.ProgressAggregator.OnOutcome | crates/rowforge-studio-core/src/aggregator.rs:115-145 | every failure is counted, and broadcast exactly when the bucket affords it |
| Aggregator.ProgressAggregator.OnOutcomeSuccess | crates/rowforge-studio-core/src/aggregator.rs:152-158 | a success is counted and never sampled |
| Aggregator.ProgressAggregator.ComposeTick | crates/rowforge-studio-core/src/aggregator.rs:193-211 | the rates are the rows processed since 4 and 40 ticks ago, the latter per second |
| Aggregator.ProgressAggregator.Snapshot | crates/rowforge-studio-core/src/aggregator.rs:84-91 | between ticks the rate is that of the last tick |

## Left out

- Process spawning, signals, shutdown grace and hard kill: a worker is its sends, which succeed or fail, and its replies, which arrive, end or are cut off. A hard cancel shows in the report's decision only.
- Startup: a worker that fails to spawn makes the pool return before any task starts, and the init and ready handshake precedes every session; both come before the modelled part.
- `PipelineLive.BlockedIffWedged`: that stdin writes return and that handlers answer is an assumption, since `send_row` and `send_batch_envelopes` have no cancel arm.
- Waking order and fairness of channels and of the receiver's mutex: any enabled task may move. A failed append is taken to write nothing.
- The fields `sent`, `rejected` and `lost` of the pipeline's state, and the ghost fields of the classes, are history for stating properties.
- JSON, CSV and YAML text, field-map renaming, SHA-256 and SQLite: rows are a number, a data map and a size, log lines are whole values, malformed lines are not considered. JSON numbers, lists and objects are their rendered text.
- CSV record iteration: a CSV input is any stream of items with strictly increasing numbers. That the reader ends a record at a bare carriage return is taken from its default settings. `JsonlInput` takes the JSON parser as a parameter.
- Decoding and carriage returns in `LogTail` and `Lines`: lines end at newlines and characters stand for bytes.
- Lockstep.CleanIsAttributed: what the handler prints besides its replies comes in whole lines; a handler that prints half a line before a reply makes that reply unreadable as a message, and the host waits.
- The texts of error messages, warnings, tracing, handler-log teeing and progress callbacks.
- `resolution.json` beyond its counts and percentage, export warnings and output directories. A JSONL line is its keys and values in order; its text is not modelled.
- Integer widths: counters and sequence numbers are unbounded; the rate arithmetic of `TokenBucket` and `Aggregator` is exact where the source uses f32.
- StallMonitor.Watch: ticks are exactly one poll interval apart and reading the counter takes no time.
- The estimated time of arrival in ticks, phase and in-flight setters, and the broadcast channel's capacity: single expressions or plumbing.
- The studio's user interface, sessions, scaffolding, packing and orphan scan, and `rerun.rs`.
