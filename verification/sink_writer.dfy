/** Batched delivery: the output records go to the sink in consecutive
    slices of at most 500, one call per slice, and the failure counts the sink
    reports are added up. */
module SinkWriter {
  import opened Events

  /** The most records one delivery call may carry. */
  const MaxBatch: int := 500

  function Min(a: int, b: int): int {
    if a <= b then a else b
  }

  /** The slices sent when the loop index starts at `i`: `records.slice(i, i + 500)`
      for `i`, `i + 500`, ... while `i` is below the length. */
  function ChunksFrom<T>(records: seq<T>, i: nat): seq<seq<T>>
    decreases |records| - i
  {
    if i >= |records| then []
    else [records[i..Min(i + MaxBatch, |records|)]] + ChunksFrom(records, i + MaxBatch)
  }

  /** The slices of one flush, in the order they are sent: joined, they are
      the records, and there are ceil(n / 500) of them. */
  function Chunks<T>(records: seq<T>): (r: seq<seq<T>>)
    ensures forall c :: c in r ==> 0 < |c| <= MaxBatch
    ensures Flatten(r) == records
    ensures |r| == (|records| + MaxBatch - 1) / MaxBatch
  {
    ChunksBounded(records, 0);
    ChunksFlatten(records, 0);
    ChunkCount(records, 0);
    ChunksFrom(records, 0)
  }

  function Flatten<T>(chunks: seq<seq<T>>): seq<T>
    decreases |chunks|
  {
    if chunks == [] then [] else chunks[0] + Flatten(chunks[1..])
  }

  /** `res.FailedRecordCount || 0`: a missing count counts as 0. */
  function FailedOrZero(reported: Option<nat>): (n: nat)
    ensures reported.Some? ==> n == reported.value
    ensures reported.None? ==> n == 0
  {
    if reported.Some? then reported.value else 0
  }

  /** The failure counts of the calls that send `chunks` to `stream`, added up. */
  function SumFailed<T>(chunks: seq<seq<T>>, stream: string, sink: (string, seq<T>) -> Option<nat>): (n: nat)
    ensures n == 0 <==> forall i :: 0 <= i < |chunks| ==> FailedOrZero(sink(stream, chunks[i])) == 0
    decreases |chunks|
  {
    if chunks == [] then 0 else FailedOrZero(sink(stream, chunks[0])) + SumFailed(chunks[1..], stream, sink)
  }

  /** The delivery loop. The sink is the function from a call's stream and
      records to the failure count it reports; `sent` lists the calls made, in
      order. */
  method Deliver<T>(stream: string, outRecords: seq<T>, sink: (string, seq<T>) -> Option<nat>)
    returns (sent: seq<seq<T>>, total: nat, failed: nat)
    ensures sent == Chunks(outRecords)
    ensures total == |outRecords|
    ensures failed == SumFailed(sent, stream, sink)
    ensures forall c :: c in sent ==> 0 < |c| <= MaxBatch
    ensures Flatten(sent) == outRecords
    ensures |sent| == (|outRecords| + MaxBatch - 1) / MaxBatch
  {
    sent := [];
    failed, total := 0, 0;
    var i := 0;
    while i < |outRecords|
      invariant sent + ChunksFrom(outRecords, i) == ChunksFrom(outRecords, 0)
      invariant SumFailed(sent, stream, sink) == failed
      invariant total == Min(i, |outRecords|)
      decreases |outRecords| - i
    {
      var batch := outRecords[i..Min(i + MaxBatch, |outRecords|)];
      var res := sink(stream, batch);
      ChunksFromStep(sent, outRecords, i);
      SumFailedAppend(sent, batch, stream, sink);
      failed := failed + FailedOrZero(res);
      total := total + |batch|;
      sent := sent + [batch];
      i := i + MaxBatch;
    }
    assert sent == ChunksFrom(outRecords, 0) by {
      assert sent + [] == sent;
    }
  }

  /** One turn of the delivery loop moves the next slice from the slices
      still to send to the slices sent. */
  lemma ChunksFromStep<T>(sent: seq<seq<T>>, records: seq<T>, i: nat)
    requires i < |records|
    ensures sent + ChunksFrom(records, i)
         == (sent + [records[i..Min(i + MaxBatch, |records|)]]) + ChunksFrom(records, i + MaxBatch)
  {
    var batch := records[i..Min(i + MaxBatch, |records|)];
    assert ChunksFrom(records, i) == [batch] + ChunksFrom(records, i + MaxBatch);
  }

  lemma {:induction false} SumFailedAppend<T>(chunks: seq<seq<T>>, c: seq<T>, stream: string, sink: (string, seq<T>) -> Option<nat>)
    ensures SumFailed(chunks + [c], stream, sink) == SumFailed(chunks, stream, sink) + FailedOrZero(sink(stream, c))
    decreases |chunks|
  {
    if chunks == [] {
      assert [] + [c] == [c];
    } else {
      assert (chunks + [c])[1..] == chunks[1..] + [c];
      SumFailedAppend(chunks[1..], c, stream, sink);
    }
  }

  /** No call carries more than 500 records, and none is empty. */
  lemma {:induction false} ChunksBounded<T>(records: seq<T>, i: nat)
    ensures forall c :: c in ChunksFrom(records, i) ==> 0 < |c| <= MaxBatch
    decreases |records| - i
  {
    if i < |records| {
      ChunksBounded(records, i + MaxBatch);
    }
  }

  /** The slices, joined in the order they are sent, are the records from `i`
      on: nothing is sent twice, dropped or reordered. */
  lemma {:induction false} ChunksFlatten<T>(records: seq<T>, i: nat)
    ensures Flatten(ChunksFrom(records, i)) == if i <= |records| then records[i..] else []
    decreases |records| - i
  {
    if i < |records| {
      var j := Min(i + MaxBatch, |records|);
      var cs := ChunksFrom(records, i);
      ChunksFlatten(records, i + MaxBatch);
      assert cs == [records[i..j]] + ChunksFrom(records, i + MaxBatch);
      assert Flatten(cs) == records[i..j] + Flatten(ChunksFrom(records, i + MaxBatch)) by {
        assert cs[0] == records[i..j] && cs[1..] == ChunksFrom(records, i + MaxBatch);
      }
      if j < |records| {
        assert records[i..] == records[i..j] + records[j..];
      } else {
        assert records[i..j] + [] == records[i..];
      }
    }
  }


  /** There are ceil((n - i) / 500) calls. */
  lemma {:induction false} ChunkCount<T>(records: seq<T>, i: nat)
    ensures |ChunksFrom(records, i)| == if i <= |records| then (|records| - i + MaxBatch - 1) / MaxBatch else 0
    decreases |records| - i
  {
    if i < |records| {
      ChunkCount(records, i + MaxBatch);
    }
  }

  /** 1200 output records go out in three calls of 500, 500 and 200. */
  lemma TwelveHundredRecords<T>(records: seq<T>)
    requires |records| == 1200
    ensures |Chunks(records)| == 3
    ensures |Chunks(records)[0]| == 500 && |Chunks(records)[1]| == 500 && |Chunks(records)[2]| == 200
    ensures Chunks(records) == [records[..500], records[500..1000], records[1000..]]
  {
    assert ChunksFrom(records, 1500) == [];
    assert ChunksFrom(records, 1000) == [records[1000..1200]];
    assert ChunksFrom(records, 500) == [records[500..1000]] + [records[1000..1200]];
    assert records[1000..1200] == records[1000..];
  }
}
