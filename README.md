# pipes — a Dafny model of the channel combinators

`pipes` is a small Go library of functional-style helpers over channels, all of
which respect context cancellation:
- `Collect` and `Pour` drain a channel.
- `Filter`, `Map` and `FilterError` transform a channel.
- `FanIn` and `ParMap` merge many channels into one.
- `FanOut` and `RoundRobinFanOut` split one channel into many.

Two small helpers sit beside them:
- `Ring`, a cyclic cursor over a slice. `RoundRobinFanOut` uses it to pick the next output.
- `Result`, a value/error pair.

This project models `ring.go`, `result.go` and `pipes.go` in these files:

| file | module | form |
|---|---|---|
| `errors.dfy` | `Errors` | Go's `error` as a datatype carrying its message, and `Option` for a nilable error. |
| `result.dfy` | `Results` | `Result` as an immutable datatype. `WithError`/`WithValue` return copies, as the Go value receivers do. |
| `ring.dfy` | `Rings` | `Ring` as a class whose `Next` updates the cursor in place. A ghost call counter ties the cursor to `calls mod size`. |
| `streams.dfy` | `Streams` | The channel abstraction shared by the combinators (below), and the `Interleaving` relation that every schedule of a merge satisfies. |
| `pipes.dfy` | `Pipes` | Each combinator as a method whose loop is its worker's `select` loop, proved against a pure specification function with lemmas about it. |

**Channels.** A worker sees its input channel as
`Channel(sent, doneAt)`:
- `sent` is what the producer sends before closing.
- `doneAt = Some(k)` says that the worker's k-th receive `select` picks `ctx.Done()`.

Go chooses at random among ready `select` cases. So even after cancellation a
worker may keep receiving for a while, and every worker has its own `doneAt`.
`Received(c)` is what the worker actually takes: `sent` cut at `doneAt`. A
send `select` that races `ctx.Done()` is modelled in the same way:
- In `Map`, by the set of indices whose send lost.
- In `FanOut`, by each replay worker's own stop index.

`cause` is the value of `ctx.Err()` after cancellation.

Two consequences of those races, read off the code and kept by the model:
- In `Map`, the `return` at pipes.go:43 leaves only the closure opened at pipes.go:33. So a result whose send loses to Done is dropped and the receive loop goes on. The result carrying `cause` is sent only when Done wins a receive (pipes.go:26-28).
- In `FanOut`, each replay's `select` (pipes.go:253-256 and 265-268) can pick Done on its own. So after cancellation each output may stop before the end of the buffer, independently of the other.

## Model

| member | source | states |
|---|---|---|
| Results.Result.WithError | result.go:28-31 | the copy has exactly the given error and the receiver's value |
| Results.Result.WithValue | result.go:33-36 | the copy has exactly the given value and the receiver's error |
| Results.Result.Error | result.go:38-44 | the error's message when there is an error, the empty string otherwise |
| Results.Result.String | result.go:46-52 | `%v` of the error when there is one, otherwise `%v` of the value |
| Results.NewErrResult | result.go:11-18 | error result: the given error and the zero value |
| Results.NewResult | result.go:20-26 | success result: the given value and no error |
| Results.UpdatesCommute | result.go:28-36 | `WithValue` then `WithError` (either order) fixes the whole record |
| Results.UpdatesIdempotent | result.go:28-36 | repeating an update changes nothing more |
| Results.ConstructorsAsUpdates | result.go:11-36 | both constructors are the zero record updated in one field |
| Results.ErrorEmptyIffNoError | result.go:38-44 | `Error()` is empty exactly when there is no error (for non-empty messages) |
| Results.StringOfFailure | result.go:38-52 | on a failed result `String()` and `Error()` agree |
| Rings.Step | ring.go:28-32 | one step of the cursor is `(idx + 1) mod size` |
| Rings.Advance | ring.go:25-35 | the cursor after k successive calls to `Next`; it stays within the slice |
| Rings.Emitted | ring.go:25-35 | the values k successive calls to `Next` return from a cursor; exactly k of them |
| Rings.AdvanceIsMod | ring.go:25-35 | after k calls the cursor sits at `(idx + k) mod size` |
| Rings.FullCyclesRestoreCursor | ring_test.go:50-56 | any whole number of cycles brings the cursor back to where it was |
| Rings.EmittedAt | ring.go:25-35 | the j-th value returned is `elements[(idx + j) mod size]` |
| Rings.TwoCyclesAt | ring_test.go:42-48 | position j of the first two cycles is position j of the elements written twice |
| Rings.TwoCyclesFromStart | ring_test.go:42-48 | from a fresh ring, 2·size calls return the elements twice, in order |
| Rings.NextTwoCycles | ring_test.go:42-48 | a fresh `Ring` whose `Next` is called 2·size times returns `Emitted`, which is the elements twice in order, and leaves the cursor at 0 |
| Rings.Ring.constructor | ring.go:17-21 | a valid ring over the elements with the cursor at 0 |
| Rings.Ring.Next | ring.go:24-35 | returns the element under the cursor and wraps the cursor after the last element; the k-th call returns `elements[k mod size]`; validity is kept |
| Rings.NewRing | ring.go:12-22 | empty slice: no ring and the "array is empty" error; otherwise a fresh valid ring with no error |
| Rings.CursorIsAdvance | ring.go:24-35 | a valid ring's cursor is `calls` steps from 0, and size more calls bring it back |
| Streams.Prefix | pipes.go:249-259 | a send loop cut by Done delivers a prefix of its values, of the stop's length |
| Streams.Received | pipes.go:75-86 | a receive loop takes a prefix of what was sent: all of it when Done does not win, otherwise exactly `doneAt` values |
| Streams.SelectsUntilStop | pipes.go:75-86 | each select before the stop yields the next value; the select at the stop is Done when cancelled and the close otherwise |
| Streams.Select | pipes.go:76-79 | one receive `select` (the same shape at pipes.go:96-98, 122-125, 156-160, 212-215, 238-241, 285-287): Done exactly at the worker's `doneAt`, otherwise the close after the last value, otherwise the next sent value |
| Streams.Cancelled | pipes.go:76-78 | the worker stops on Done: one of the selects it reaches picks Done |
| Streams.ConcatIsInterleaving | pipes.go:118-139 | draining the workers one after another is one of the schedules a merge allows |
| Streams.InterleavingKeepsValues | pipes.go:118-139 | every schedule of a merge delivers exactly the multiset union of the parts |
| Streams.InterleavingKeepsCount | pipes.go:118-139 | every schedule of a merge delivers as many values as the parts hold together |
| Pipes.Collect | pipes.go:72-87 | result is `initial` followed by every received value in order; the error is `cause` exactly when Done won, nil when the input closed |
| Pipes.Pour | pipes.go:10-17 | when cancelled: `cause` and the sink is not called; otherwise the sink gets `initial` + all sent values and its error is returned |
| Pipes.Filtered | pipes.go:102-104 | every kept value satisfies the predicate, and no more values than the input |
| Pipes.FilteredCounts | pipes.go:102-104 | each satisfying value is kept exactly as often as it occurs; every other value is dropped |
| Pipes.FilteredIsSubsequence | pipes.go:94-106 | filtering keeps the relative order |
| Pipes.FilteredRangeThreshold | pipes_test.go:15-44 | filtering lo..hi-1 by `x >= m` yields m..hi-1 (the test's 0..99 with 50 gives 50 values) |
| Pipes.FilteredAllRejected | pipes.go:102-104 | if no value satisfies the predicate, nothing is forwarded |
| Pipes.Filter | pipes.go:89-110 | forwards exactly the received values that satisfy the predicate, in order |
| Pipes.SuccessesAndFailuresPartition | pipes.go:291-295 | every result is forwarded or reported, never both: the counts add up to the input's length, and the reported ones are those with an error |
| Pipes.Successes | pipes.go:291-295 | the forwarded values: no more than the results, each the value of a result without an error |
| Pipes.Failures | pipes.go:291-295 | the errors passed to `onError`: no more than the results, each the error of some result |
| Pipes.SuccessesAppend | pipes.go:291-295 | the forwarded values of a concatenation are those of its parts |
| Pipes.FailuresAppend | pipes.go:291-295 | the reported errors of a concatenation are those of its parts |
| Pipes.FilterErrorScenario | pipes_test.go:277-314 | one failure, ten successes, one failure: ten values forwarded and `onError` called with the two errors in order |
| Pipes.AllSucceeded | pipes.go:291-295 | results that all succeeded are forwarded value for value, and `onError` is never called |
| Pipes.FilterError | pipes.go:278-301 | forwards the values of the received results without an error and passes the errors of the others to `onError`, both in order |
| Pipes.Mapped | pipes.go:39-44 | at most one result per value |
| Pipes.Apply | pipes.go:39-41 | the result sent for one value: `fn`'s value with `fn`'s error, i.e. `NewResult` of the value updated by `WithError` |
| Pipes.MappedOnePerValue | pipes.go:29-45 | without lost sends there is one result per value, position by position `fn`'s value and error |
| Pipes.MappedLossOnlyDrops | pipes.go:40-44 | a send that loses to Done only removes its result: the output is a subsequence of the loss-free output |
| Pipes.Map | pipes.go:19-50 | one result per received value whose send did not lose, in order; one last result carrying `cause` and the zero value exactly when Done wins a receive |
| Pipes.MapUncancelled | pipes_test.go:316-349 | uncancelled and with no lost sends, the output is `fn` of each sent value, in order |
| Pipes.Drain | pipes.go:234-247 | the buffer is exactly what the worker received |
| Pipes.Replay | pipes.go:249-259 | a replay worker sends the buffer in order up to its own stop |
| Pipes.FanOut | pipes.go:229-276 | each output is the received sequence cut at that output's own stop |
| Pipes.FanOutOutputsAgree | pipes.go:249-271 | one output is always a prefix of the other; uncancelled, both are the whole input |
| Pipes.Column | pipes.go:211-219 | an output never holds more values than the input |
| Pipes.Columns | pipes.go:194-219 | one output per channel of the ring, output j being `Column(xs, k, j)` |
| Pipes.ColumnsSnoc | pipes.go:215-219 | a new value goes to output `n mod k` after the n values before it; the other outputs are unchanged |
| Pipes.ColumnLength | pipes.go:206-219 | output j receives `n / k` values, plus one if `j < n mod k`, so the output lengths differ by at most one |
| Pipes.ColumnsBalanced | pipes.go:206-219 | any two outputs differ in length by at most one |
| Pipes.ColumnOfPrefix | pipes.go:211-219 | the outputs only grow as more values arrive |
| Pipes.ValueLandsInOutput | pipes.go:215-219 | the i-th value lands in output `i mod k`, at position `i / k` |
| Pipes.ColumnsKeepValues | pipes.go:211-222 | the outputs together hold exactly the input's values, as a multiset and in number |
| Pipes.RoundRobinScenario | pipes_test.go:162-198 | 100 values over 4 outputs give 25 to each |
| Pipes.RoundRobinFanOut | pipes.go:188-227 | negative count: the `make` panic; zero count: the `NewRing` error panic; otherwise output j is exactly the received values at positions congruent to j mod count, with the outputs chosen by a real `Ring` |
| Pipes.FanIn | pipes.go:112-142 | the output is a merge of what each worker received that keeps each channel's order |
| Pipes.ReceivedAll | pipes.go:118-133 | what each FanIn worker receives: a prefix of what its channel sent, all of it when not cancelled |
| Pipes.FanInDeliversUnion | pipes.go:118-133 | every merge order delivers exactly the multiset union of what the workers received |
| Pipes.TotalLengthUniform | pipes_test.go:226-259 | k channels of m values hold k·m values |
| Pipes.FanInCount | pipes_test.go:226-259 | uncancelled channels of m values each merge into channels·m values |
| Pipes.FirstFailure | pipes.go:164-170 | the first index where `process` fails: none fails before it, and the one at it fails |
| Pipes.Outputs | pipes.go:164-171 | `process`'s value for each item, position by position |
| Pipes.WorkerValues | pipes.go:155-171 | a worker's sends to `out`: prefix-aligned with its received items, each one `process`'s value of an item it did not fail on |
| Pipes.WorkerError | pipes.go:155-171 | a worker posts nothing exactly when it is not cancelled and `process` fails on none of its items; any posted error other than `cause` is `process`'s error on one of its items |
| Pipes.ParMapWorker | pipes.go:153-175 | a worker sends the values before the first failure; it posts that failure, otherwise `cause` when Done wins, otherwise nothing |
| Pipes.ErrorList | pipes.go:158-168 | a worker posts at most one error |
| Pipes.TotalLengthAtMostOneEach | pipes.go:147-170 | one error at most per worker means at most `len(channels)` errors |
| Pipes.AllValues | pipes.go:152-176 | each worker's values, channel by channel, none longer than what that worker received |
| Pipes.AllErrors | pipes.go:152-176 | each worker's errors, channel by channel, at most one per channel |
| Pipes.ParMap | pipes.go:144-186 | `out` merges the workers' values and `errs` their errors, each keeping per-channel order; there are never more errors than channels, so the buffered `errs` never blocks |
| Pipes.ParMapChannelFailure | pipes.go:164-171 | a channel whose k-th item is the first failure contributes k-1 values and that error |
| Pipes.ParMapChannelSuccess | pipes.go:160-171 | an uncancelled channel with no failures contributes all its values and no error |
| Pipes.ParMapCount | pipes_test.go:124-160 | uncancelled, failure-free channels of m values give channels·m values and no error, in any merge order |

## Left out

- Code outside these files is not part of this model: `sender.go` (`SendOrDone`, `SendOrTimeout`), `throttler.go`, and `Materialize` in `pipes.go`. Their behaviour relies on timers or on pointer dereference.
- Map: the `recover` path for a panicking `fn` (pipes.go:34-38) is not modelled. `fn` is a total function.
- Map: `lostSends` is an arbitrary set of indices. The model does not tie a lost send to the context having fired, so it allows more runs than Go can produce.
- Goroutines, `sync.WaitGroup`, channel closing and the blocking of unbuffered sends are not modelled. Each combinator is a worker's loop over finite sequences.
- The Go scheduler's random choice among ready `select` cases becomes the per-worker `doneAt` and stop indices. Those are parameters, not random choices.
- Pipes.FanIn: the method builds one schedule (each worker in turn). Its contract, `Interleaving`, admits every schedule, and the lemmas about merges are stated for all of them.
- Pipes.ParMap: as with `FanIn`, one schedule is built. The relative order of `out` against `errs` is not modelled.
- Pipes.Pour: `sink` is modelled as a function without side effects.
- Pipes.FilterError: `onError` is modelled without side effects. Its calls are returned as the list of their arguments, and their timing relative to the forwarded values is not kept.
- Pipes.Collect: Go may append to the caller's `initial` slice in place (aliasing). The model uses values.
- Rings.Ring.Next: a zero `Ring{}` built without `NewRing` panics on indexing; `Next` requires a valid ring instead. The ring's slice is a value, so aliasing with the caller's slice is not modelled.
- Pipes.RoundRobinFanOut: a panic is reported as `crash` and the outputs as `[]`. The process crash is not modelled.
- Go's zero value of a type is supplied by the caller as a parameter: `zero` in `NewErrResult` and `Map`.
- `%v` formatting is an opaque function `show`. `%v` of an error is its message.
- A Go `error` is modelled by its message only.
- Results.ErrorEmptyIffNoError: requires non-empty error messages. Go allows `errors.New("")`, and with an empty message `Error()` is empty even though there is an error.
