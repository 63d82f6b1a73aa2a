# Payment aggregator: windowing and aggregation core

This project is a Dafny model of the aggregator Lambda in
`lambda-aggregator/index.js`. On each invocation the Lambda gets a batch of
Kinesis records that hold payment events. Each event is placed in a one-minute
tumbling window keyed by the window's start in epoch milliseconds. For each
window the Lambda counts the events and sums their amounts. It then writes one
summary record per window to an output Kinesis stream, in `PutRecords` calls
of at most 500 records, and adds up the failure counts the stream reports.

The model has one module per stage:

- `Window` (`window.dfy`): `floorToMinute`. Dafny's `/` with a positive
  divisor rounds toward negative infinity, like `Math.floor`.
- `Events` (`events.dfy`): what one record decodes to. Also how its timestamp
  is chosen and when it is skipped, and how its amount is coerced.
- `Accumulator` (`accumulator.dfy`): the `windows` Map and the loop that
  fills it. The Map is a value that keeps its entries and the order in which
  its keys were first set, because a JavaScript Map iterates in that order.
  The loop `AggregateRecords` is proved against the function `Aggregate`, and
  the invariants, counts and order independence are proved about that
  function.
- `Flusher` (`flusher.dfy`): the loop that builds `outRecords`, one record
  per window. It is proved against `Summaries`.
- `SinkWriter` (`sink_writer.dfy`): the `i += 500` delivery loop. It is proved
  against `Chunks`, with the failure counts summed by `SumFailed`.
- `Aggregator` (`handler.dfy`): the handler. It covers the configuration
  check, the empty-map early return and the composition of the stages.

External effects are parameters:

- The output stream name is an `Option<string>`.
- Each input record is given already decoded, as a `Payload`.
- The sink is a function from a call's stream name and records to the
  `FailedRecordCount` it reports. `None` means the field is missing.
- The handler returns the list of delivery calls it made, in order.

Five behaviours of the code are kept as they are:

- A record whose resolved timestamp is exactly 0 is skipped, because the code
  tests `!ts`.
- An output stream name that is the empty string counts as missing.
- Summaries come out in the order their windows were first created.
- A record whose `Number(obj.amount)` throws is logged as skipped, but
  `agg.count += 1` has already run. When its window already exists, that
  window keeps the extra count and its total is unchanged. When the window is
  new, nothing is stored. So counts can depend on the order of the batch
  (`Accumulator.ThrowingAmountOrderDependent`).
- `toISOString` throws a RangeError for a window start or end beyond
  8.64e15 ms from the epoch. This happens outside any `try`, so the whole
  invocation fails before any delivery call. The model returns
  `DateOutOfRange` with no calls.

## Model

| member | source | states |
|---|---|---|
| `Window.FloorToMinute` | lambda-aggregator/index.js:6-8 | the window start is a multiple of 60000 and start <= ms < start + 60000, negative timestamps included |
| `Window.SameWindowSameKey` | lambda-aggregator/index.js:6-8 | every timestamp in [k, k + 60000), for a multiple k of 60000, has window start k |
| `Window.SameKeyIff` | lambda-aggregator/index.js:6-8 | two timestamps share a window start if and only if the second lies in the first one's minute |
| `Events.RawTimestamp` | lambda-aggregator/index.js:26 | a numeric `event_timestamp` is used itself, whatever `timestamp` holds; only without one is the parsed `timestamp` used |
| `Events.AcceptedTimestamp` | lambda-aggregator/index.js:26-27 | a timestamp that is used for windowing is never 0: `!ts` rejects 0 along with NaN |
| `Events.CoercedAmount` | lambda-aggregator/index.js:32 | `Number(amount) \|\| 0`: a numeric amount contributes exactly its value, anything else contributes 0, and a non-zero contribution is always the record's numeric amount |
| `Events.EventTimestampPrecedence` | lambda-aggregator/index.js:26-27 | a numeric `event_timestamp` decides alone: whatever the `timestamp` string parses to, the record is windowed by that number itself, or skipped when it is 0 |
| `Events.ParsedTimestampFallback` | lambda-aggregator/index.js:26-27 | without a numeric `event_timestamp`, the outcome depends on the parsed `timestamp` alone; that value is used unless it is NaN or 0 |
| `Events.RejectedIff` | lambda-aggregator/index.js:23-27 | a record is skipped if and only if it fails to decode or its resolved timestamp is NaN or 0; its amount plays no part in that |
| `Accumulator.AggAt` | lambda-aggregator/index.js:30 | `windows.get(k) \|\| { count: 0, total: 0 }`: the stored entry when there is one, otherwise count 0 and total 0 |
| `Accumulator.WindowOf` | lambda-aggregator/index.js:29 | the window of an accepted record is a multiple of 60000 |
| `Accumulator.Accumulate` | lambda-aggregator/index.js:29-33 | one record never removes a window, adds at most one, and appends any new window after the existing ones in the Map's order |
| `Accumulator.AggregateFrom` | lambda-aggregator/index.js:22-37 | a run of records never removes a window, adds at most one per record, and keeps the existing windows first in the Map's order |
| `Accumulator.Aggregate` | lambda-aggregator/index.js:20-37 | the Map after a pass starts empty and lists at most one window per record |
| `Accumulator.Stored` | lambda-aggregator/index.js:27-33 | the records that reach `windows.set` are records of the batch whose timestamp is accepted and whose amount coercion does not throw |
| `Accumulator.AggregateRecords` | lambda-aggregator/index.js:20-37 | the loop ends with the map `Aggregate(records)`, a valid Map whose keys are window starts and whose counts are all at least 1; a count raised before a throwing amount coercion stays in the Map |
| `Accumulator.AccumulateAccepted` | lambda-aggregator/index.js:29-33 | an accepted record whose amount coerces adds its window if it was missing, raises that window's count by exactly 1, adds the coerced amount (0 when not a number) to its total, and leaves every other window unchanged |
| `Accumulator.AccumulateThrowingAmount` | lambda-aggregator/index.js:29-36 | an accepted record whose amount coercion throws adds no window, raises an existing window's count by 1 with its total unchanged, and leaves every other window unchanged |
| `Accumulator.AccumulateRejected` | lambda-aggregator/index.js:26-27 | a skipped record leaves the map unchanged |
| `Accumulator.AccumulateValid` | lambda-aggregator/index.js:29-33 | one record keeps keys unique and listed once in insertion order, keys multiples of 60000 and counts at least 1 |
| `Accumulator.AggregateFromValid` | lambda-aggregator/index.js:22-37 | the same invariant holds after any number of records |
| `Accumulator.AggregateValid` | lambda-aggregator/index.js:20-37 | after the loop the map is valid, and it has at most one window per record |
| `Accumulator.AggregateIgnoresRejected` | lambda-aggregator/index.js:22-37 | the map after a batch equals the map after only its accepted records |
| `Accumulator.RejectedSkipped` | lambda-aggregator/index.js:22-37 | a skipped record anywhere in the batch leaves the final map as if it were absent, with the records after it still counted |
| `Accumulator.NoWindowsIff` | lambda-aggregator/index.js:39 | the map is empty if and only if no record of the batch reached `windows.set` |
| `Accumulator.WindowsOfStored` | lambda-aggregator/index.js:29-33 | the windows of the map are exactly the windows of the records that reached `windows.set` |
| `Accumulator.CountSumStep` | lambda-aggregator/index.js:30-33 | one record adds 1 to the sum of counts when it is stored, 0 when it is skipped, and at most 1 otherwise |
| `Accumulator.TotalCount` | lambda-aggregator/index.js:30-33 | the counts of all windows add up to at least the number of stored records and at most the number of accepted records, and to exactly the number of accepted records when no amount coercion throws |
| `Accumulator.TwoEventsOneWindow` | lambda-aggregator/index.js:22-37 | records at 1000 and 2000 ms with amounts 10 and 20 give window 0 with count 2 and total 30 |
| `Accumulator.ThreeEventWindows` | lambda-aggregator/index.js:22-37 | records at 1000, 2000 and 61000 ms with amounts 10, 20, 5 give window 0 with count 2 and total 30, then window 60000 with count 1 and total 5 |
| `Accumulator.ThrowingAmountAfter` | lambda-aggregator/index.js:30-36 | a record of 10 at 1000 ms, then one at 2000 ms whose amount coercion throws, give window 0 with count 2 and total 10 |
| `Accumulator.ThrowingAmountBefore` | lambda-aggregator/index.js:30-36 | the same two records in the other order give window 0 with count 1 and total 10 |
| `Accumulator.ThrowingAmountOrderDependent` | lambda-aggregator/index.js:22-37 | two orders of the same two records give different counts, so the order independence below needs its no-throw condition |
| `Accumulator.AccumulateCommutes` | lambda-aggregator/index.js:30-33 | two records whose amounts coerce give the same counts and totals in either order |
| `Accumulator.AggregateOrderIndependent` | lambda-aggregator/index.js:22-37 | when no amount coercion throws, any permutation of a batch gives the same count and total for every window |
| `Flusher.Summary` | lambda-aggregator/index.js:47-56 | a summary ends 60000 ms after its start, is keyed by its start, carries its window's count and total, and its average times the count is the total (0 for an empty window) |
| `Flusher.BuildOutput` | lambda-aggregator/index.js:45-57 | the loop ends with a RangeError exactly when some window start or end is beyond the range of `Date`; otherwise it builds `Summaries(windows)`, one record per Map entry in the Map's order |
| `Flusher.SummariesInOrder` | lambda-aggregator/index.js:46-56 | the i-th output record is the summary of the i-th window of the Map |
| `Flusher.OneRecordPerWindow` | lambda-aggregator/index.js:46-56 | there are exactly as many output records as windows, in the Map's order; each window start appears once, and each record has window_end = window_start + 60000, partition key = window start, and its window's count, total and average |
| `Flusher.WindowRenderableIff` | lambda-aggregator/index.js:50-51 | both ends of a timestamp's window render if and only if the timestamp lies in [-8.64e15, 8.64e15) |
| `Flusher.RenderableIff` | lambda-aggregator/index.js:45-57 | the flush has no RangeError if and only if every stored record's timestamp lies in [-8.64e15, 8.64e15) |
| `Flusher.BeyondDateRange` | lambda-aggregator/index.js:50 | a record with `event_timestamp` 9e15 makes the flush throw |
| `Flusher.LastMinuteBeyondRange` | lambda-aggregator/index.js:50-51 | a record at 8.64e15 starts a window whose start renders and whose end does not, so the flush throws |
| `Flusher.ThreeEventExample` | lambda-aggregator/index.js:45-57 | the three records above give the summaries (0, 60000, count 2, total 30, avg 15) and (60000, 120000, count 1, total 5, avg 5) |
| `SinkWriter.Chunks` | lambda-aggregator/index.js:61-62 | the slices are non-empty and hold at most 500 records each; joined in send order they are the records; there are ceil(n/500) of them |
| `SinkWriter.FailedOrZero` | lambda-aggregator/index.js:64 | `res.FailedRecordCount \|\| 0`: the reported count, or 0 when it is missing |
| `SinkWriter.SumFailed` | lambda-aggregator/index.js:64 | the failure total is 0 if and only if no call reported a failure |
| `SinkWriter.Deliver` | lambda-aggregator/index.js:60-69 | the calls made are `Chunks(outRecords)`: none empty, none over 500, joined they are exactly `outRecords`, there are ceil(n/500) of them; `total` is n and `failed` is the sum of the reported counts, a missing count being 0 |
| `SinkWriter.SumFailedAppend` | lambda-aggregator/index.js:64 | one more call adds its reported count, or 0 when missing, to `failed` |
| `SinkWriter.ChunksBounded` | lambda-aggregator/index.js:61-62 | every slice holds between 1 and 500 records |
| `SinkWriter.ChunksFlatten` | lambda-aggregator/index.js:61-62 | the slices concatenated in send order are the records: none sent twice, dropped or reordered |
| `SinkWriter.ChunkCount` | lambda-aggregator/index.js:61 | the number of calls is ceil(n/500) |
| `SinkWriter.TwelveHundredRecords` | lambda-aggregator/index.js:61-62 | 1200 records are sent in three calls of 500, 500 and 200, in order |
| `Aggregator.Handler` | lambda-aggregator/index.js:10-70 | with no usable stream name it makes no call. When no record reached `windows.set` it returns `{emitted: 0}` and makes no call. When a window cannot be rendered it fails before any call. Otherwise it sends the chunks of the window summaries and returns `emitted` equal to the number of windows (at least 1) and `failed` equal to the sum of the reported counts |

## Left out

- Base64 and UTF-8 decoding, `JSON.parse` and `Date.parse`. They become the `Payload` value a record decodes to. Any exception they raise becomes `Undecodable`.
- Non-integer and infinite timestamps. Timestamps are integer milliseconds. A fractional `event_timestamp` and an `Infinity` that passes the NaN check are not modelled.
- Floating-point amounts. Amounts are exact reals, so sums are exact. The `toFixed(2)` rounding of `total_amount` and `avg_amount` is not modelled, and the average is an exact division.
- The ISO-8601 text of `window_start` and `window_end`. They are kept as milliseconds. Whether `toISOString` throws is modelled (`Flusher.BuildOutput`, `Aggregator.Handler`); the text it produces is not.
- `JSON.stringify` of the payload and the `Buffer` around it. The output record carries the fields themselves. `String(windowStart)` is kept as the integer.
- The Kinesis client, `async`/`await` and transport errors. A failing `client.send` propagates out of the handler. The sink is modelled as a function that always answers.
- The sink's own state. The sink is a pure function of the call, so its answers cannot depend on earlier calls.
- `console.log` output and reading `process.env`. The stream name is a parameter.
- `lambda-producer/index.js`. It only generates random events and sends them, so there is nothing deterministic to verify; it is not part of this model.
- Accumulator.AccumulateAccepted: covers only records whose amount coercion does not throw. A record whose coercion throws is described by `Accumulator.AccumulateThrowingAmount` instead.
- Accumulator.AccumulateCommutes: holds only for two records whose amount coercions do not throw. With a throwing one the order matters, as `Accumulator.ThrowingAmountOrderDependent` shows.
- Accumulator.AggregateOrderIndependent: holds only for batches in which no amount coercion throws, for the same reason. In general the counts depend on the order.
- Accumulator.TotalCount: gives the exact count only when no amount coercion throws. Otherwise the sum of counts is only bounded, between the stored and the accepted records, because a throwing record adds 1 only when its window already exists.
