/** One invocation of the aggregator: accumulate the batch, flush the windows
    and deliver the summaries. */
module Aggregator {
  import opened Events
  import opened Accumulator
  import opened Flusher
  import opened SinkWriter

  /** How an invocation ends: returning nothing when no output stream is
      configured, `{ emitted: 0 }` when no window was created, with the
      RangeError of a window that `Date` cannot render, or `{ emitted, failed }`
      after a delivery. */
  datatype Outcome = NotConfigured | NothingToEmit | DateOutOfRange | Emitted(emitted: nat, failed: nat)

  /** `!outStream` is false: the output stream name is set and is not the
      empty string. */
  predicate Configured(outStream: Option<string>) {
    outStream.Some? && outStream.value != ""
  }

  /** The handler. `outStream` is the value of `OUTPUT_STREAM_NAME`; `records`
      are the input records as decoded (an absent record list is the empty
      sequence); `sink` gives the failure count each delivery call reports.
      `calls` lists the delivery calls made, in order. */
  method Handler(outStream: Option<string>, records: seq<Payload>, sink: (string, seq<OutRecord>) -> Option<nat>)
    returns (result: Outcome, calls: seq<seq<OutRecord>>)
    ensures !Configured(outStream) ==> result == NotConfigured && calls == []
    ensures Configured(outStream) && Stored(records) == [] ==> result == NothingToEmit && calls == []
    ensures Configured(outStream) && Stored(records) != [] && !Renderable(Aggregate(records)) ==>
      result == DateOutOfRange && calls == []
    ensures Configured(outStream) && Stored(records) != [] && Renderable(Aggregate(records)) ==>
      && calls == Chunks(Summaries(Aggregate(records)))
      && result == Emitted(|Aggregate(records).aggs|, SumFailed(calls, outStream.value, sink))
      && result.emitted >= 1
      && |calls| == (result.emitted + MaxBatch - 1) / MaxBatch
  {
    if !Configured(outStream) {
      return NotConfigured, [];
    }
    var windows := AggregateRecords(records);
    NoWindowsIff(records);
    if |windows.aggs| == 0 {
      return NothingToEmit, [];
    }
    var outRecords, rangeError := BuildOutput(windows);
    if rangeError {
      return DateOutOfRange, [];
    }
    OneRecordPerWindow(windows);
    var total, failed;
    calls, total, failed := Deliver(outStream.value, outRecords, sink);
    result := Emitted(total, failed);
  }
}
