/** The flush: one summary record per window, in the order the windows were
    created. */
module Flusher {
  import opened Window
  import opened Events
  import opened Accumulator

  /** One output record. Its partition key is `String(windowStart)`; since
      the decimal rendering of an integer determines the integer, the key is
      kept as the integer itself. `window_start` and `window_end` are kept as
      the milliseconds that `toISOString` renders, and the amounts exactly. */
  datatype OutRecord = OutRecord(
    partitionKey: int,
    windowStart: int,
    windowEnd: int,
    transactionCount: nat,
    totalAmount: real,
    avgAmount: real)

  /** The summary of one window: it ends one minute after it starts, is keyed
      by its start, and carries the window's count, total and average. The
      average is 0 for a window that counts no record, which a window built by
      a pass never is. */
  function Summary(windowStart: int, agg: Agg): (r: OutRecord)
    ensures r.partitionKey == r.windowStart == windowStart && r.windowEnd == windowStart + WindowMs
    ensures r.transactionCount == agg.count && r.totalAmount == agg.total
    ensures agg.count > 0 ==> r.avgAmount * (agg.count as real) == agg.total
    ensures agg.count == 0 ==> r.avgAmount == 0.0
  {
    var avg := if agg.count > 0 then agg.total / (agg.count as real) else 0.0;
    OutRecord(windowStart, windowStart, windowStart + WindowMs, agg.count, agg.total, avg)
  }

  /** The summaries of the windows listed in `order`, in that order. */
  function SummariesOf(order: seq<int>, aggs: map<int, Agg>): seq<OutRecord>
    decreases |order|
  {
    if order == [] then []
    else
      var k := order[|order| - 1];
      SummariesOf(order[..|order| - 1], aggs) + [Summary(k, AggAt(aggs, k))]
  }

  /** The output records of a pass whose map is `w`. */
  function Summaries(w: Windows): seq<OutRecord> {
    SummariesOf(w.order, w.aggs)
  }

  /** The largest distance from the epoch, in milliseconds, of a time a
      `Date` can hold (section 21.4.1.1 of ECMA-262); `toISOString` throws a
      RangeError for any time beyond it. */
  const MaxTimeMs: int := 8640000000000000

  predicate InDateRange(ms: int) {
    -MaxTimeMs <= ms <= MaxTimeMs
  }

  /** Both ends of the window that starts at `windowStart` can be rendered. */
  predicate WindowRenderable(windowStart: int) {
    InDateRange(windowStart) && InDateRange(windowStart + WindowMs)
  }

  /** Every window of the map can be rendered. */
  predicate Renderable(w: Windows) {
    forall k :: k in w.order ==> WindowRenderable(k)
  }

  /** The loop that builds `outRecords`, one push per Map entry. Rendering a
      window start or end beyond the range of `Date` throws, outside any
      `try`, so the invocation ends there: `rangeError` reports that, and the
      records built so far are then of no use. */
  method BuildOutput(windows: Windows) returns (outRecords: seq<OutRecord>, rangeError: bool)
    requires Listed(windows)
    ensures rangeError <==> !Renderable(windows)
    ensures !rangeError ==> outRecords == Summaries(windows)
  {
    outRecords := [];
    for i := 0 to |windows.order|
      invariant outRecords == SummariesOf(windows.order[..i], windows.aggs)
      invariant forall j :: 0 <= j < i ==> WindowRenderable(windows.order[j])
    {
      assert windows.order[..i + 1][..i] == windows.order[..i];
      var windowStart := windows.order[i];
      assert windowStart in windows.order;
      var agg := windows.aggs[windowStart];
      var windowEnd := windowStart + WindowMs;
      var avg := if agg.count > 0 then agg.total / (agg.count as real) else 0.0;
      if !InDateRange(windowStart) || !InDateRange(windowEnd) {
        return outRecords, true;
      }
      var out := OutRecord(windowStart, windowStart, windowEnd, agg.count, agg.total, avg);
      outRecords := outRecords + [out];
    }
    assert windows.order[..|windows.order|] == windows.order;
    rangeError := false;
  }

  lemma {:induction false} SummariesOfAt(order: seq<int>, aggs: map<int, Agg>, i: nat)
    requires i < |order|
    ensures |SummariesOf(order, aggs)| == |order|
    ensures SummariesOf(order, aggs)[i] == Summary(order[i], AggAt(aggs, order[i]))
    decreases |order|
  {
    var init := order[..|order| - 1];
    if i < |init| {
      SummariesOfAt(init, aggs, i);
    } else if init != [] {
      SummariesOfAt(init, aggs, 0);
    }
  }

  /** The output holds exactly one record per window and nothing else, in
      the Map's order: each window start appears once, the window ends one
      minute later, the partition key is the window start, and count, total
      and average are the window's own. */
  lemma OneRecordPerWindow(w: Windows)
    requires Listed(w)
    ensures |Summaries(w)| == |w.aggs| == |w.order|
    ensures forall i :: 0 <= i < |Summaries(w)| ==>
      var r := Summaries(w)[i];
      && r.windowStart == w.order[i]
      && r.windowStart in w.aggs
      && r.partitionKey == r.windowStart
      && r.windowEnd == r.windowStart + WindowMs
      && r.transactionCount == w.aggs[r.windowStart].count
      && r.totalAmount == w.aggs[r.windowStart].total
      && (r.transactionCount > 0 ==> r.avgAmount * (r.transactionCount as real) == r.totalAmount)
    ensures forall i, j :: 0 <= i < j < |Summaries(w)| ==> Summaries(w)[i].windowStart != Summaries(w)[j].windowStart
    ensures forall k :: k in w.aggs ==> exists i :: 0 <= i < |Summaries(w)| && Summaries(w)[i].windowStart == k
  {
    var s := Summaries(w);
    SummariesInOrder(w);
    DistinctCardinality(w);
    forall i | 0 <= i < |s|
      ensures s[i].windowStart == w.order[i] && w.order[i] in w.aggs
    {
      assert w.order[i] in w.order;
    }
    forall k | k in w.aggs ensures exists i :: 0 <= i < |s| && s[i].windowStart == k {
      assert k in w.order;
      var i :| 0 <= i < |w.order| && w.order[i] == k;
      assert s[i].windowStart == k;
    }
  }

  /** The `i`-th output record is the summary of the `i`-th window of the Map. */
  lemma SummariesInOrder(w: Windows)
    ensures |Summaries(w)| == |w.order|
    ensures forall i :: 0 <= i < |w.order| ==> Summaries(w)[i] == Summary(w.order[i], AggAt(w.aggs, w.order[i]))
  {
    if w.order == [] {
      assert Summaries(w) == [];
    } else {
      SummariesOfAt(w.order, w.aggs, 0);
    }
    forall i | 0 <= i < |w.order|
      ensures Summaries(w)[i] == Summary(w.order[i], AggAt(w.aggs, w.order[i]))
    {
      SummariesOfAt(w.order, w.aggs, i);
    }
  }

  /** Three records stamped 1000, 2000 and 61000 with amounts 10, 20 and 5
      give two windows: the one at 0 with count 2, total 30 and average 15,
      then the one at 60000 with count 1, total 5 and average 5. */
  lemma ThreeEventExample()
    ensures
      var ps := [Object(Some(1000), None, Number(10.0)),
                 Object(Some(2000), None, Number(20.0)),
                 Object(Some(61000), None, Number(5.0))];
      Summaries(Aggregate(ps))
        == [OutRecord(0, 0, 60000, 2, 30.0, 15.0), OutRecord(60000, 60000, 120000, 1, 5.0, 5.0)]
  {
    ThreeEventWindows();
    var w := Windows([0, 60000], map[0 := Agg(2, 30.0), 60000 := Agg(1, 5.0)]);
    assert w.order[..1] == [0] && [0][..0] == [];
    assert SummariesOf([0], w.aggs) == [Summary(0, Agg(2, 30.0))];
    assert Summaries(w) == [Summary(0, Agg(2, 30.0)), Summary(60000, Agg(1, 5.0))];
  }

  // ----- The range of `Date` -----

  /** The window of a timestamp can be rendered exactly when the timestamp
      lies in [-8.64e15, 8.64e15): both limits are window starts, so the last
      renderable window is the one that ends at the upper limit. */
  lemma WindowRenderableIff(t: int)
    ensures WindowRenderable(FloorToMinute(t)) <==> -MaxTimeMs <= t < MaxTimeMs
  {
    var k := FloorToMinute(t);
    assert MaxTimeMs == 144000000000 * WindowMs;
    var q := k / WindowMs;
    assert k == q * WindowMs;
    if -MaxTimeMs <= t < MaxTimeMs {
      assert -144000000000 <= q < 144000000000;
    }
  }

  /** A batch can be flushed without a RangeError exactly when every record
      that reached `windows.set` has a timestamp in [-8.64e15, 8.64e15). */
  lemma RenderableIff(ps: seq<Payload>)
    ensures Renderable(Aggregate(ps))
        <==> forall p :: p in Stored(ps) ==> -MaxTimeMs <= AcceptedTimestamp(p).value < MaxTimeMs
  {
    var w := Aggregate(ps);
    AggregateValid(ps);
    WindowsOfStored(ps);
    if Renderable(w) {
      forall p | p in Stored(ps) ensures -MaxTimeMs <= AcceptedTimestamp(p).value < MaxTimeMs {
        WindowRenderableIff(AcceptedTimestamp(p).value);
        assert WindowOf(p) in w.order;
      }
    }
    if forall p :: p in Stored(ps) ==> -MaxTimeMs <= AcceptedTimestamp(p).value < MaxTimeMs {
      forall k | k in w.order ensures WindowRenderable(k) {
        var p :| p in Stored(ps) && WindowOf(p) == k;
        WindowRenderableIff(AcceptedTimestamp(p).value);
      }
    }
  }

  /** An `event_timestamp` of 9e15 puts its record in a window that cannot be
      rendered, so the flush of its batch throws. */
  lemma BeyondDateRange()
    ensures !Renderable(Aggregate([Object(Some(9000000000000000), None, Number(1.0))]))
  {
    var p := Object(Some(9000000000000000), None, Number(1.0));
    WindowRenderableIff(9000000000000000);
    assert Stored([p]) == [p] by {
      assert [p][..0] == [];
    }
    RenderableIff([p]);
  }

  /** A record stamped at the very last millisecond a `Date` can hold starts a
      window whose start renders but whose end does not. */
  lemma LastMinuteBeyondRange()
    ensures WindowOf(Object(Some(MaxTimeMs), None, Number(1.0))) == MaxTimeMs
    ensures InDateRange(MaxTimeMs) && !InDateRange(MaxTimeMs + WindowMs)
    ensures !Renderable(Aggregate([Object(Some(MaxTimeMs), None, Number(1.0))]))
  {
    var p := Object(Some(MaxTimeMs), None, Number(1.0));
    SameWindowSameKey(MaxTimeMs, MaxTimeMs);
    WindowRenderableIff(MaxTimeMs);
    assert Stored([p]) == [p] by {
      assert [p][..0] == [];
    }
    RenderableIff([p]);
  }
}
