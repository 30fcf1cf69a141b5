# Watcher batching and upload — a Dafny model

This project models the core of the performance supervisor's watcher
(`supervisor/watch/watcher.go`). The watcher lists the systemd units of a host
and samples the CPU usage of each unit's main process. It turns every sample
into a BigQuery row stamped with the host name and buffers the rows. The
buffer is offered to the configured backends when a sample result arrives
and the buffer then holds `FlagBufferSize` rows or `UploadInterval` has
passed since the last reset.

The Go code runs as goroutines joined by channels and a wait group. The model
is sequential and functional:

- `Aggregator.Process` is one iteration of the `processResult` select loop.
  The input is a sample result, an external event or shutdown. The clock
  reading and the backends' answers come in with the input.
- `Aggregator.Run` folds `Process` over a sequence of inputs. It stops at the
  first shutdown, which drops the pending rows.
- `Uploader.Upload` is `upload`. It calls the backends in order and stops at
  the first `Put` that fails. The error names that backend's ID.
  `Uploader.UploadLoop` is the same loop written as a method, and it is proved
  equal to the function.
- `Schema.ToBigQuerySchema` is the field mapping. As in the source, the system
  CPU figure is filled from the user figure. `Decimal.Itoa` models
  `strconv.Itoa` for the `Instance` field, and its inverse `Decimal.Atoi` is
  used to state the round trip.
- `Poll.ProcessUnits` / `Poll.HandleUnit` model one poll tick. The tick yields
  a multiset of statuses, because arrival order is not fixed. A unit whose
  sampling failed contributes nothing. A listing failure yields no results and
  an error.

Modules: `Wrappers` (Option), `Decimal`, `Schema`, `Uploader`, `Aggregator`,
`Poll`; one file each.

Behaviour worth knowing:

- A failed periodic flush does not lose its batch. The `continue` at
  `watcher.go:133` skips the reset, so the rows stay buffered and are offered
  again with the next sample. `Aggregator.RowsConserved` proves that every row is
  in exactly one successful batch, still pending, or dropped at shutdown.
  `Aggregator.FailedFlushRetriedOnNextSample` shows the consequence: the
  retry's batch starts with the failed batch, and the first backend is called
  in both attempts, so it can receive those rows twice.
- While flushes keep failing, the buffer grows without bound
  (`Aggregator.RowsAccumulateWhileFlushesFail`). The `FlagBufferSize` bound
  holds only while flushes succeed (`Aggregator.BufferStaysBelowSize`).
- On shutdown the pending rows are dropped, not flushed.
- The age trigger fires only on a sample result. `processResult` has no
  timer, and an external event never flushes the buffer
  (`Aggregator.AgeAloneNeverFlushes`). With no further sample, for instance
  while the unit listing keeps failing, buffered rows stay pending however
  old they get.
- The system CPU figure is the user figure (`watcher.go:74`), and the sampled
  system figure is ignored (`Schema.SystemFigureIgnored`).

## Model

| member | source | states |
|---|---|---|
| `Decimal.Itoa` | supervisor/watch/watcher.go:76 | the PID renders as a canonical decimal numeral: only digits, non-empty, no leading zero, one digit exactly for values below ten |
| `Decimal.AtoiItoa` | supervisor/watch/watcher.go:76 | parsing the rendered `Instance` string gives back the PID |
| `Decimal.ItoaAtoi` | supervisor/watch/watcher.go:76 | every canonical numeral is the rendering of its value, so the rendering is onto the canonical numerals |
| `Decimal.ItoaInjective` | supervisor/watch/watcher.go:76 | two PIDs give the same `Instance` string iff they are equal |
| `Schema.ToRow` | supervisor/watch/watcher.go:129 | `ToBigQueryRow` loses nothing: the schema can be read back from the row |
| `Schema.ToBigQuerySchema` | supervisor/watch/watcher.go:69-77 | copies `Name`, stamps the current instant, takes user and system figures both from `User` and total from `Total`, leaves the host name empty, and sets `Instance` to a numeral that parses back to `Pid` |
| `Schema.SystemFigureIgnored` | supervisor/watch/watcher.go:73-74 | changing the sample's system figure does not change the schema row |
| `Schema.ToBigQuerySchemaDeterminesSample` | supervisor/watch/watcher.go:69-77 | equal schema rows at one instant come from samples with the same name, PID, user and total figures |
| `Schema.ResolveHostname` | supervisor/watch/watcher.go:105-109 | the host name is the looked-up name, or `"<undefined>"` when the lookup failed |
| `Schema.SampleRow` | supervisor/watch/watcher.go:126-129 | a sample's row carries the cached host name, the sample's name, the current instant, the user figure as both user and system CPU, the total figure, and an `Instance` numeral that parses back to the PID |
| `Uploader.ErrorMessage` | supervisor/watch/watcher.go:145 | the error text is the fixed prefix, then the backend ID, then `": "`, then the backend's own reason, and nothing else |
| `Uploader.UploadFrom` | supervisor/watch/watcher.go:143-149 | from backend `i` on: calls go to consecutive backends with the same items; nil iff every remaining backend stores; otherwise the last call is the first refusing backend and the error names it |
| `Uploader.Upload` | supervisor/watch/watcher.go:142-150 | backends are called in list order with the same items; nil iff all store, and then every backend was called; on error the last call is the first refusing backend, all earlier ones stored, and the error carries that backend's ID and reason |
| `Uploader.FirstRefusal` | supervisor/watch/watcher.go:143-146 | finds the first backend whose `Put` fails, or none iff all store |
| `Uploader.UploadMatchesFirstRefusal` | supervisor/watch/watcher.go:142-150 | `Upload` equals the reference description built from the first refusing backend: all backends and nil, or the backends up to and including it and an error naming it |
| `Uploader.StopsAtFirstRefusal` | supervisor/watch/watcher.go:143-146 | when backend `k` is the first to fail, exactly backends `0..k` are called and no later backend receives the items |
| `Uploader.AllStoredDeliversOnceEach` | supervisor/watch/watcher.go:143-149 | when every `Put` succeeds, each backend is called exactly once, in order, with exactly the items, and nil is returned |
| `Uploader.DeliveryDetermined` | supervisor/watch/watcher.go:142-150 | any delivery meeting the order, stop-at-first-failure and error-naming description is the one `Upload` computes |
| `Uploader.UploadLoop` | supervisor/watch/watcher.go:142-150 | the loop as written meets the description and returns the same delivery as `Upload` |
| `Aggregator.Start` | supervisor/watch/watcher.go:103-109 | the loop starts with an empty buffer, `updateTime` at the start instant, and the host name or its sentinel |
| `Aggregator.Process` | supervisor/watch/watcher.go:111-138 | shutdown stops and drops exactly the buffer; an event is uploaded as a one-row batch and leaves buffer and `updateTime` unchanged whatever the outcome; a sample is appended after the earlier rows; a flush is attempted iff the new length reaches `FlagBufferSize` or `UploadInterval` has elapsed, and otherwise nothing is sent; the flushed batch is the whole buffer; success empties it and resets `updateTime`, failure keeps both; the host name never changes |
| `Aggregator.Run` | supervisor/watch/watcher.go:111-139 | the loop yields at most one outcome per input, a non-empty input sequence yields at least one, every outcome but the last is still running, and the trace ends early only at a stop |
| `Aggregator.RunIsStepwise` | supervisor/watch/watcher.go:111-139 | the loop handles inputs in order: each outcome is one `Process` step from the state the previous one left, an outcome is a stop iff its input is a shutdown, and nothing after the first shutdown is handled |
| `Aggregator.StepConservesRows` | supervisor/watch/watcher.go:126-137 | after one input, old buffer plus new row equals what a successful flush delivered plus the new buffer |
| `Aggregator.RowsConserved` | supervisor/watch/watcher.go:126-137 | over any input sequence and any backend answers, the old buffer plus every sample row equals the successfully flushed batches, in order, followed by the rows still pending or dropped at shutdown |
| `Aggregator.BufferStaysBelowSize` | supervisor/watch/watcher.go:129-136 | with `FlagBufferSize` at least one and every flush succeeding, the buffer is strictly below `FlagBufferSize` after every input |
| `Aggregator.FailedFlushRetriedOnNextSample` | supervisor/watch/watcher.go:130-134 | after a failed flush, the next sample (clock not going back) triggers another flush whose batch starts with the whole failed batch, and the first backend is called with both batches |
| `Aggregator.AgeAloneNeverFlushes` | supervisor/watch/watcher.go:111-120 | an external event or a shutdown never flushes, whatever the age of the buffer: a running outcome has no flush and keeps the buffered rows, and a stop drops exactly them |
| `Aggregator.RunWithoutShutdown` | supervisor/watch/watcher.go:111-115 | without a shutdown input the loop handles every input and keeps running |
| `Aggregator.RowsAccumulateWhileFlushesFail` | supervisor/watch/watcher.go:129-134 | while no flush succeeds, over any mix of sample results and external events, the buffer is the old rows followed by every new sample row |
| `Poll.HandleUnit` | supervisor/watch/watcher.go:80-99 | a unit sends a status iff its sampling succeeded and the context was not cancelled; the status carries the unit's name and PID and the sampled usage |
| `Poll.ProcessUnits` | supervisor/watch/watcher.go:46-60 | a listing failure gives no results and an error carrying the reason; a successful listing gives no error and at most one result per unit |
| `Poll.CollectMembership` | supervisor/watch/watcher.go:53-58 | a status is among the results iff some unit whose sampling succeeded, and was not cancelled, produced it |
| `Poll.ResultsAreSampledUnits` | supervisor/watch/watcher.go:46-60 | a status reaches the aggregator iff the listing succeeded and some successfully sampled, uncancelled unit produced it |
| `Poll.Contribution` | supervisor/watch/watcher.go:83-97 | each unit adds at most one status to the tick's results |
| `Poll.FailureIsolated` | supervisor/watch/watcher.go:83-87 | making one unit's sampling fail removes exactly that unit's status and leaves every other unit's result in place |

## Left out

- The `StartWatcher` loop (`watcher.go:21-44`) is not modelled. It is a non-terminating tick loop over goroutines. After cancellation its `select` takes the `ctx.Done()` branch on every pass, so the second pass closes `resultChan` a second time (`watcher.go:39`), which makes Go panic. Between that close and its own return, a `processResult` that is still looping (for instance just back from an upload) can take the closed `results` case, receive nil and dereference it (`watcher.go:123`); the model's `Input` has no closed-channel case. Also, once `processResult` has returned, a `handleUnit` goroutine that got past its cancellation check blocks on its send (`watcher.go:93`), and `wg.Wait()` (`watcher.go:58`) never returns. `Poll.ProcessUnits` models one tick.
- Goroutines, the wait group, channels and `select` are replaced by input sequences. When several select cases are ready, Go picks one at random; in the model the input order makes that choice.
- Wall-clock calls (`time.Now`, `time.Since`, `time.After`) become a natural-number clock supplied with each input. The three clock readings of one sample step (`watcher.go:72`, `130`, `136`) are taken to be the same instant.
- `systemd.GetSystemdUnitsProps`, `proc.LoadByPID`, `backend.Backend.Put`/`ID` and `os.Hostname` are oracles passed as parameters: a listing outcome, a per-unit probe outcome, a per-backend answer, an optional host name. Because the sampler is an oracle, the `int32` conversion of the PID passed to `LoadByPID` is not observable and is not modelled.
- The context passed to `Put` is not modelled. Cancellation is a per-unit flag in `Poll.HandleUnit` and a `Shutdown` input in `Aggregator.Process`.
- CPU figures are floating point in the source. Here they are opaque values compared only for equality.
- `BigQuerySchema.ToBigQueryRow` is an opaque injective wrapping. Fields of `BigQuerySchema` that the watcher does not set are omitted.
- Logging through logrus, including the debug line at `watcher.go:123-124` and the success log at `watcher.go:147`, is not modelled.
- Schema.ToBigQuerySchema: assumes Go's `int` is 64 bits wide, so `strconv.Itoa(int(s.Pid))` renders the `uint32` PID unchanged. On a 32-bit platform PIDs of 2^31 and above would render as negative numbers. Linux caps PIDs at 2^22, so this case does not arise there.
- `Uploader.Upload`: the error is kept structured (backend ID and reason). `Uploader.ErrorMessage` gives the text `fmt.Errorf` renders. The processing-error text of `processUnits` (`watcher.go:49`) is kept as the structured `UnableToListUnits` reason.
- `api/cmd/api-server/config.go` is not part of this model. It is flag and environment plumbing.
