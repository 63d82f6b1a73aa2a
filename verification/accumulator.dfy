/** The accumulation pass: every accepted record raises the count of its window
    by one and adds its coerced amount to the window's total. */
module Accumulator {
  import opened Window
  import opened Events

  /** The running aggregate of one window. */
  datatype Agg = Agg(count: nat, total: real)

  /** The `windows` Map of one pass: `aggs` by window start, and `order`, the
      window starts in the order they were first set, which is the order in
      which a JavaScript Map iterates its entries. */
  datatype Windows = Windows(order: seq<int>, aggs: map<int, Agg>)

  /** The map every pass starts from: nothing is carried over between passes. */
  const NoWindows: Windows := Windows([], map[])

  ghost predicate Distinct(s: seq<int>) {
    forall i, j :: 0 <= i < j < |s| ==> s[i] != s[j]
  }

  /** What any JavaScript Map satisfies: each key is listed once in `order`. */
  ghost predicate Listed(w: Windows) {
    && Distinct(w.order)
    && (forall k :: k in w.aggs <==> k in w.order)
  }

  /** What holds of the map throughout a pass: besides being a Map, its keys
      are window starts, and a window exists only once a record has been
      counted in it. */
  ghost predicate Valid(w: Windows) {
    && Listed(w)
    && (forall k :: k in w.aggs ==> k % WindowMs == 0 && w.aggs[k].count >= 1)
  }

  /** `windows.get(k) || { count: 0, total: 0 }`. */
  function AggAt(aggs: map<int, Agg>, k: int): (a: Agg)
    ensures k in aggs ==> a == aggs[k]
    ensures k !in aggs ==> a.count == 0 && a.total == 0.0
  {
    if k in aggs then aggs[k] else Agg(0, 0.0)
  }

  /** The effect of one record on the map. When `Number(obj.amount)` throws,
      `agg.count += 1` has already run: if the window existed, the object the
      Map holds carries the increment; if it did not, the new object is never
      stored, since `windows.set` is not reached. */
  function Accumulate(w: Windows, p: Payload): (r: Windows)
    ensures w.aggs.Keys <= r.aggs.Keys
    ensures w.order <= r.order && |r.order| <= |w.order| + 1
  {
    match AcceptedTimestamp(p)
    case None => w
    case Some(ts) =>
      var k := FloorToMinute(ts);
      var prev := AggAt(w.aggs, k);
      if AmountThrows(p) then
        if k in w.aggs then Windows(w.order, w.aggs[k := prev.(count := prev.count + 1)]) else w
      else
        Windows(if k in w.aggs then w.order else w.order + [k],
                w.aggs[k := Agg(prev.count + 1, prev.total + CoercedAmount(p))])
  }

  /** The map after the records `ps` are accumulated, in order, into `w`:
      windows are only added, each record adds at most one, and the windows
      already there keep their place in the order. */
  function AggregateFrom(w: Windows, ps: seq<Payload>): (r: Windows)
    ensures w.aggs.Keys <= r.aggs.Keys
    ensures w.order <= r.order && |r.order| <= |w.order| + |ps|
    decreases |ps|
  {
    if ps == [] then w else Accumulate(AggregateFrom(w, ps[..|ps| - 1]), ps[|ps| - 1])
  }

  /** The map at the end of the accumulation loop of a pass over `ps`: it
      lists at most one window per record. */
  function Aggregate(ps: seq<Payload>): (r: Windows)
    ensures |r.order| <= |ps|
  {
    AggregateFrom(NoWindows, ps)
  }

  /** Whether the record gets as far as `windows.set`: its timestamp is
      accepted and the coercion of its amount does not throw. */
  predicate Stores(p: Payload) {
    AcceptedTimestamp(p).Some? && !AmountThrows(p)
  }

  /** The records of `ps` that are not skipped, in order. */
  function Accepted(ps: seq<Payload>): seq<Payload>
    decreases |ps|
  {
    if ps == [] then []
    else
      var last := ps[|ps| - 1];
      Accepted(ps[..|ps| - 1]) + (if AcceptedTimestamp(last).Some? then [last] else [])
  }

  /** The records of `ps` that reach `windows.set`, in order. */
  function Stored(ps: seq<Payload>): (r: seq<Payload>)
    ensures |r| <= |ps|
    ensures forall p :: p in r ==> p in ps && Stores(p)
    decreases |ps|
  {
    if ps == [] then []
    else
      var last := ps[|ps| - 1];
      Stored(ps[..|ps| - 1]) + (if Stores(last) then [last] else [])
  }

  /** The window a record with an accepted timestamp belongs to. */
  function WindowOf(p: Payload): (k: int)
    requires AcceptedTimestamp(p).Some?
    ensures k % WindowMs == 0
  {
    FloorToMinute(AcceptedTimestamp(p).value)
  }

  /** No record of `ps` has an amount whose coercion throws. */
  predicate NoThrows(ps: seq<Payload>) {
    forall p :: p in ps ==> !AmountThrows(p)
  }

  /** The sum of the counts of the windows listed in `order`. */
  function CountSum(order: seq<int>, aggs: map<int, Agg>): nat
    decreases |order|
  {
    if order == [] then 0
    else CountSum(order[..|order| - 1], aggs) + AggAt(aggs, order[|order| - 1]).count
  }

  /** The accumulation loop. `windows` is the Map: an entry that is read and
      then changed is changed in the Map too, because the Map holds that very
      object. */
  method AggregateRecords(records: seq<Payload>) returns (windows: Windows)
    ensures windows == Aggregate(records)
    ensures Valid(windows)
  {
    windows := NoWindows;
    for i := 0 to |records|
      invariant windows == Aggregate(records[..i])
    {
      assert records[..i + 1][..i] == records[..i];
      var rec := records[i];
      var ts := AcceptedTimestamp(rec);
      if ts.None? {
        continue;
      }
      var windowStart := FloorToMinute(ts.value);
      var agg := if windowStart in windows.aggs then windows.aggs[windowStart] else Agg(0, 0.0);
      agg := agg.(count := agg.count + 1);
      if windowStart in windows.aggs {
        windows := windows.(aggs := windows.aggs[windowStart := agg]);
      }
      if AmountThrows(rec) {
        // the exception is caught and the record logged as skipped, with the
        // increment above already made
        continue;
      }
      agg := agg.(total := agg.total + CoercedAmount(rec));
      var order := if windowStart in windows.aggs then windows.order else windows.order + [windowStart];
      windows := Windows(order, windows.aggs[windowStart := agg]);
    }
    assert records[..|records|] == records;
    AggregateValid(records);
  }

  /** Accumulating one more record at the end of a pass. */
  lemma AggregateSnoc(ps: seq<Payload>, p: Payload)
    ensures Aggregate(ps + [p]) == Accumulate(Aggregate(ps), p)
  {
    assert (ps + [p])[..|ps|] == ps;
  }

  lemma {:induction false} DistinctCard(s: seq<int>)
    requires Distinct(s)
    ensures |set k | k in s| == |s|
    decreases |s|
  {
    if s != [] {
      var init, last := s[..|s| - 1], s[|s| - 1];
      assert Distinct(init);
      DistinctCard(init);
      assert last !in init;
      assert (set k | k in s) == (set k | k in init) + {last};
    }
  }

  /** A Map has as many entries as it lists keys. */
  lemma DistinctCardinality(w: Windows)
    requires Listed(w)
    ensures |w.aggs| == |w.order|
  {
    DistinctCard(w.order);
    assert (set k | k in w.order) == w.aggs.Keys;
  }

  // ----- One record -----

  /** An accepted record whose amount coerces raises its window's count by
      exactly one, adds its coerced amount to the window's total, creates the
      window if it was missing, and leaves every other window as it was. */
  lemma AccumulateAccepted(w: Windows, p: Payload, ts: int)
    requires AcceptedTimestamp(p) == Some(ts) && !AmountThrows(p)
    ensures Accumulate(w, p).aggs.Keys == w.aggs.Keys + {FloorToMinute(ts)}
    ensures Accumulate(w, p).aggs[FloorToMinute(ts)].count == AggAt(w.aggs, FloorToMinute(ts)).count + 1
    ensures Accumulate(w, p).aggs[FloorToMinute(ts)].total == AggAt(w.aggs, FloorToMinute(ts)).total + CoercedAmount(p)
    ensures forall k :: k in w.aggs && k != FloorToMinute(ts) ==> Accumulate(w, p).aggs[k] == w.aggs[k]
  {
  }

  /** An accepted record whose amount coercion throws creates no window, but
      still raises the count of an existing window by one, leaving its total
      as it was. */
  lemma AccumulateThrowingAmount(w: Windows, p: Payload, ts: int)
    requires AcceptedTimestamp(p) == Some(ts) && AmountThrows(p)
    ensures Accumulate(w, p).order == w.order && Accumulate(w, p).aggs.Keys == w.aggs.Keys
    ensures FloorToMinute(ts) in w.aggs ==>
      Accumulate(w, p).aggs[FloorToMinute(ts)]
        == Agg(w.aggs[FloorToMinute(ts)].count + 1, w.aggs[FloorToMinute(ts)].total)
    ensures forall k :: k in w.aggs && k != FloorToMinute(ts) ==> Accumulate(w, p).aggs[k] == w.aggs[k]
  {
  }

  /** A skipped record changes nothing. */
  lemma AccumulateRejected(w: Windows, p: Payload)
    requires AcceptedTimestamp(p).None?
    ensures Accumulate(w, p) == w
  {
  }

  /** One record keeps the map valid. */
  lemma AccumulateValid(w: Windows, p: Payload)
    requires Valid(w)
    ensures Valid(Accumulate(w, p))
  {
  }

  // ----- A whole pass -----

  /** After any prefix of a pass, the map is valid: every window counts at
      least one record and its key is a multiple of the window length. */
  lemma {:induction false} AggregateFromValid(w: Windows, ps: seq<Payload>)
    requires Valid(w)
    ensures Valid(AggregateFrom(w, ps))
    decreases |ps|
  {
    if ps != [] {
      AggregateFromValid(w, ps[..|ps| - 1]);
      AccumulateValid(AggregateFrom(w, ps[..|ps| - 1]), ps[|ps| - 1]);
    }
  }

  /** After a whole pass the map is valid; in particular it has one entry
      per listed window, so at most one per record. */
  lemma AggregateValid(ps: seq<Payload>)
    ensures Valid(Aggregate(ps))
    ensures |Aggregate(ps).aggs| <= |ps|
  {
    AggregateFromValid(NoWindows, ps);
    DistinctCardinality(Aggregate(ps));
  }

  /** Skipped records have no effect on the outcome of the pass: the map is
      the one the accepted records alone would give. */
  lemma {:induction false} AggregateIgnoresRejected(ps: seq<Payload>)
    ensures Aggregate(ps) == Aggregate(Accepted(ps))
    decreases |ps|
  {
    if ps != [] {
      var init, last := ps[..|ps| - 1], ps[|ps| - 1];
      AggregateIgnoresRejected(init);
      AggregateSnoc(init, last);
      assert ps == init + [last];
      if AcceptedTimestamp(last).Some? {
        var a := Accepted(init) + [last];
        assert Accepted(ps) == a;
        AggregateSnoc(Accepted(init), last);
      } else {
        assert Accepted(ps) == Accepted(init) + [];
        assert Accepted(init) + [] == Accepted(init);
      }
    }
  }

  /** A skipped record anywhere in a batch leaves the outcome of the pass as
      if it were not there: the records after it are still accumulated. */
  lemma RejectedSkipped(ps: seq<Payload>, p: Payload, qs: seq<Payload>)
    requires AcceptedTimestamp(p).None?
    ensures Aggregate(ps + [p] + qs) == Aggregate(ps + qs)
  {
    AggregateFromAppend(NoWindows, ps + [p], qs);
    AggregateFromAppend(NoWindows, ps, qs);
    AggregateSnoc(ps, p);
  }

  /** The map is empty exactly when no record reached `windows.set`. */
  lemma {:induction false} NoWindowsIff(ps: seq<Payload>)
    ensures |Aggregate(ps).aggs| == 0 <==> Stored(ps) == []
    decreases |ps|
  {
    if ps != [] {
      var init, last := ps[..|ps| - 1], ps[|ps| - 1];
      NoWindowsIff(init);
      AggregateSnoc(init, last);
      assert ps == init + [last];
      if ts :| AcceptedTimestamp(last) == Some(ts) {
        if AmountThrows(last) {
          AccumulateThrowingAmount(Aggregate(init), last, ts);
        } else {
          AccumulateAccepted(Aggregate(init), last, ts);
          assert FloorToMinute(ts) in Aggregate(ps).aggs;
        }
      }
    }
  }

  /** The windows of a pass are exactly the windows of the records that
      reached `windows.set`. */
  lemma {:induction false} WindowsOfStored(ps: seq<Payload>)
    ensures forall p :: p in Stored(ps) ==> WindowOf(p) in Aggregate(ps).aggs
    ensures forall k :: k in Aggregate(ps).aggs ==> exists p :: p in Stored(ps) && WindowOf(p) == k
    decreases |ps|
  {
    if ps != [] {
      var init, last := ps[..|ps| - 1], ps[|ps| - 1];
      WindowsOfStored(init);
      AggregateSnoc(init, last);
      assert ps == init + [last];
      var w := Aggregate(init);
      match AcceptedTimestamp(last)
      case None =>
        AccumulateRejected(w, last);
      case Some(ts) =>
        if AmountThrows(last) {
          AccumulateThrowingAmount(w, last, ts);
        } else {
          AccumulateAccepted(w, last, ts);
          assert Stored(ps) == Stored(init) + [last];
          forall k | k in Aggregate(ps).aggs
            ensures exists p :: p in Stored(ps) && WindowOf(p) == k
          {
            if k != WindowOf(last) {
              var p :| p in Stored(init) && WindowOf(p) == k;
              assert p in Stored(ps);
            }
          }
        }
    }
  }

  /** Updating one window changes the sum of counts by the change in that
      window's count, provided it is listed, and only once. */
  lemma {:induction false} CountSumUpdate(order: seq<int>, aggs: map<int, Agg>, k: int, v: Agg)
    requires Distinct(order)
    ensures CountSum(order, aggs[k := v])
         == CountSum(order, aggs) + (if k in order then v.count - AggAt(aggs, k).count else 0)
    decreases |order|
  {
    if order != [] {
      var init := order[..|order| - 1];
      assert Distinct(init);
      CountSumUpdate(init, aggs, k, v);
      if order[|order| - 1] == k {
        assert k !in init;
      } else {
        assert k in order <==> k in init;
      }
    }
  }

  /** A batch in which no amount coercion throws stores every accepted record. */
  lemma {:induction false} StoredAllAccepted(ps: seq<Payload>)
    requires NoThrows(ps)
    ensures Stored(ps) == Accepted(ps)
    decreases |ps|
  {
    if ps != [] {
      var init := ps[..|ps| - 1];
      assert forall p :: p in init ==> p in ps;
      StoredAllAccepted(init);
    }
  }

  /** A record that reaches `windows.set` adds one to the sum of counts. */
  lemma CountSumStores(w: Windows, p: Payload, ts: int)
    requires Valid(w) && AcceptedTimestamp(p) == Some(ts) && !AmountThrows(p)
    ensures CountSum(Accumulate(w, p).order, Accumulate(w, p).aggs) == CountSum(w.order, w.aggs) + 1
  {
    var k := FloorToMinute(ts);
    var prev := AggAt(w.aggs, k);
    var v := Agg(prev.count + 1, prev.total + CoercedAmount(p));
    assert Accumulate(w, p).aggs == w.aggs[k := v];
    CountSumUpdate(w.order, w.aggs, k, v);
    if k !in w.aggs {
      var o := w.order + [k];
      assert Accumulate(w, p).order == o;
      assert o[..|o| - 1] == w.order;
      assert CountSum(o, w.aggs[k := v]) == CountSum(w.order, w.aggs[k := v]) + 1;
    }
  }

  /** A record whose amount coercion throws adds one to the sum of counts when
      its window exists, and nothing otherwise. */
  lemma CountSumThrows(w: Windows, p: Payload, ts: int)
    requires Valid(w) && AcceptedTimestamp(p) == Some(ts) && AmountThrows(p)
    ensures CountSum(Accumulate(w, p).order, Accumulate(w, p).aggs)
         == CountSum(w.order, w.aggs) + (if FloorToMinute(ts) in w.aggs then 1 else 0)
  {
    var k := FloorToMinute(ts);
    if k in w.aggs {
      var prev := w.aggs[k];
      CountSumUpdate(w.order, w.aggs, k, prev.(count := prev.count + 1));
    }
  }

  /** One record adds one to the sum of counts when it reaches `windows.set`,
      nothing when it is skipped, and at most one otherwise. */
  lemma CountSumStep(w: Windows, p: Payload)
    requires Valid(w)
    ensures var before, after := CountSum(w.order, w.aggs), CountSum(Accumulate(w, p).order, Accumulate(w, p).aggs);
      && (Stores(p) ==> after == before + 1)
      && (AcceptedTimestamp(p).None? ==> after == before)
      && before <= after <= before + 1
  {
    match AcceptedTimestamp(p)
    case None =>
    case Some(ts) =>
      if AmountThrows(p) {
        CountSumThrows(w, p, ts);
      } else {
        CountSumStores(w, p, ts);
      }
  }

  /** The counts of all windows add up to at least the number of records that
      reached `windows.set` and at most the number of accepted records; to
      exactly the number of accepted records when no amount coercion throws. */
  lemma {:induction false} TotalCount(ps: seq<Payload>)
    ensures |Stored(ps)| <= CountSum(Aggregate(ps).order, Aggregate(ps).aggs) <= |Accepted(ps)|
    ensures NoThrows(ps) ==> CountSum(Aggregate(ps).order, Aggregate(ps).aggs) == |Accepted(ps)|
    decreases |ps|
  {
    if ps != [] {
      var init, last := ps[..|ps| - 1], ps[|ps| - 1];
      TotalCount(init);
      AggregateSnoc(init, last);
      assert ps == init + [last];
      AggregateValid(init);
      CountSumStep(Aggregate(init), last);
    }
    if NoThrows(ps) {
      StoredAllAccepted(ps);
    }
  }

  /** Records stamped 1000 and 2000 with amounts 10 and 20 share the window
      at 0, which counts two records totalling 30. */
  lemma TwoEventsOneWindow()
    ensures Aggregate([Object(Some(1000), None, Number(10.0)), Object(Some(2000), None, Number(20.0))])
         == Windows([0], map[0 := Agg(2, 30.0)])
  {
    var a := Object(Some(1000), None, Number(10.0));
    var b := Object(Some(2000), None, Number(20.0));
    assert Aggregate([a]) == Windows([0], map[0 := Agg(1, 10.0)]) by {
      assert FloorToMinute(1000) == 0;
      AggregateSnoc([], a);
      assert [] + [a] == [a];
    }
    assert FloorToMinute(2000) == 0;
    AggregateSnoc([a], b);
    assert [a] + [b] == [a, b];
  }

  /** Records stamped 1000, 2000 and 61000 with amounts 10, 20 and 5 fall in
      two windows, created in that order: 0 with two records totalling 30,
      and 60000 with one record of 5. */
  lemma ThreeEventWindows()
    ensures Aggregate([Object(Some(1000), None, Number(10.0)),
                       Object(Some(2000), None, Number(20.0)),
                       Object(Some(61000), None, Number(5.0))])
         == Windows([0, 60000], map[0 := Agg(2, 30.0), 60000 := Agg(1, 5.0)])
  {
    var a := Object(Some(1000), None, Number(10.0));
    var b := Object(Some(2000), None, Number(20.0));
    var c := Object(Some(61000), None, Number(5.0));
    var w2 := Windows([0], map[0 := Agg(2, 30.0)]);
    var w3 := Windows([0, 60000], map[0 := Agg(2, 30.0), 60000 := Agg(1, 5.0)]);
    TwoEventsOneWindow();
    assert Accumulate(w2, c) == w3 by {
      assert FloorToMinute(61000) == 60000;
      assert w2.order + [60000] == w3.order;
    }
    AggregateSnoc([a, b], c);
    assert [a, b] + [c] == [a, b, c];
  }

  /** After a record of 10 in the same window, a record whose amount coercion
      throws still raises the window's count, to 2, leaving its total 10. */
  lemma ThrowingAmountAfter()
    ensures Aggregate([Object(Some(1000), None, Number(10.0)), Object(Some(2000), None, Throws)])
         == Windows([0], map[0 := Agg(2, 10.0)])
  {
    var a := Object(Some(1000), None, Number(10.0));
    var b := Object(Some(2000), None, Throws);
    var w1 := Windows([0], map[0 := Agg(1, 10.0)]);
    assert Aggregate([a]) == w1 by {
      assert FloorToMinute(1000) == 0;
      AggregateSnoc([], a);
      assert [] + [a] == [a];
    }
    assert Accumulate(w1, b) == Windows([0], map[0 := Agg(2, 10.0)]) by {
      assert FloorToMinute(2000) == 0;
    }
    AggregateSnoc([a], b);
    assert [a] + [b] == [a, b];
  }

  /** Before any record of its window, a record whose amount coercion throws
      leaves no trace: the record of 10 after it gives count 1. */
  lemma ThrowingAmountBefore()
    ensures Aggregate([Object(Some(2000), None, Throws), Object(Some(1000), None, Number(10.0))])
         == Windows([0], map[0 := Agg(1, 10.0)])
  {
    var a := Object(Some(1000), None, Number(10.0));
    var b := Object(Some(2000), None, Throws);
    assert FloorToMinute(1000) == 0 && FloorToMinute(2000) == 0;
    assert Aggregate([b]) == NoWindows by {
      AggregateSnoc([], b);
      assert [] + [b] == [b];
    }
    AggregateSnoc([b], a);
    assert [b] + [a] == [b, a];
  }

  /** So a record whose amount coercion throws makes the outcome depend on
      the order of the batch: the same two records give different counts. */
  lemma ThrowingAmountOrderDependent()
    ensures
      var a := Object(Some(1000), None, Number(10.0));
      var b := Object(Some(2000), None, Throws);
      && multiset([a, b]) == multiset([b, a])
      && AggAt(Aggregate([a, b]).aggs, 0).count == 2
      && AggAt(Aggregate([b, a]).aggs, 0).count == 1
  {
    var a := Object(Some(1000), None, Number(10.0));
    var b := Object(Some(2000), None, Throws);
    ThrowingAmountAfter();
    ThrowingAmountBefore();
    assert multiset([a, b]) == multiset{a, b} == multiset([b, a]);
  }

  // ----- Order independence -----

  /** What a record does to the map depends only on the aggregates, not on the
      order in which the windows were created. */
  lemma AccumulateCongruent(w1: Windows, w2: Windows, p: Payload)
    requires w1.aggs == w2.aggs
    ensures Accumulate(w1, p).aggs == Accumulate(w2, p).aggs
  {
  }

  /** Two records whose amounts coerce can be accumulated in either order. */
  lemma AccumulateCommutes(w: Windows, a: Payload, b: Payload)
    requires !AmountThrows(a) && !AmountThrows(b)
    ensures Accumulate(Accumulate(w, a), b).aggs == Accumulate(Accumulate(w, b), a).aggs
  {
    var wa, wb := Accumulate(w, a), Accumulate(w, b);
    if !Stores(a) {
      AccumulateRejected(w, a);
      AccumulateRejected(wb, a);
    } else if !Stores(b) {
      AccumulateRejected(w, b);
      AccumulateRejected(wa, b);
    } else {
      var ka, kb := WindowOf(a), WindowOf(b);
      var xa, xb := CoercedAmount(a), CoercedAmount(b);
      var pa, pb := AggAt(w.aggs, ka), AggAt(w.aggs, kb);
      StoredUpdate(w, a);
      StoredUpdate(w, b);
      StoredUpdate(wa, b);
      StoredUpdate(wb, a);
      if ka == kb {
        var v := Agg(pa.count + 2, pa.total + xa + xb);
        assert Accumulate(wa, b).aggs == w.aggs[ka := v] by {
          assert AggAt(wa.aggs, kb) == Agg(pa.count + 1, pa.total + xa);
          UpdateTwice(w.aggs, ka, Agg(pa.count + 1, pa.total + xa), v);
        }
        assert Accumulate(wb, a).aggs == w.aggs[ka := v] by {
          assert AggAt(wb.aggs, ka) == Agg(pa.count + 1, pa.total + xb);
          UpdateTwice(w.aggs, ka, Agg(pa.count + 1, pa.total + xb), v);
        }
      } else {
        assert AggAt(wa.aggs, kb) == pb;
        assert AggAt(wb.aggs, ka) == pa;
        UpdatesCommute(w.aggs, ka, Agg(pa.count + 1, pa.total + xa), kb, Agg(pb.count + 1, pb.total + xb));
      }
    }
  }

  lemma UpdateTwice(m: map<int, Agg>, k: int, v1: Agg, v2: Agg)
    ensures m[k := v1][k := v2] == m[k := v2]
  {
  }

  lemma UpdatesCommute(m: map<int, Agg>, k1: int, v1: Agg, k2: int, v2: Agg)
    requires k1 != k2
    ensures m[k1 := v1][k2 := v2] == m[k2 := v2][k1 := v1]
  {
  }

  /** The map update a stored record makes. */
  lemma StoredUpdate(w: Windows, p: Payload)
    requires Stores(p)
    ensures Accumulate(w, p).aggs
         == w.aggs[WindowOf(p) := Agg(AggAt(w.aggs, WindowOf(p)).count + 1, AggAt(w.aggs, WindowOf(p)).total + CoercedAmount(p))]
  {
  }

  lemma {:induction false} AggregateFromCongruent(w1: Windows, w2: Windows, ps: seq<Payload>)
    requires w1.aggs == w2.aggs
    ensures AggregateFrom(w1, ps).aggs == AggregateFrom(w2, ps).aggs
    decreases |ps|
  {
    if ps != [] {
      AggregateFromCongruent(w1, w2, ps[..|ps| - 1]);
      AccumulateCongruent(AggregateFrom(w1, ps[..|ps| - 1]), AggregateFrom(w2, ps[..|ps| - 1]), ps[|ps| - 1]);
    }
  }

  lemma {:induction false} AggregateFromAppend(w: Windows, ps: seq<Payload>, qs: seq<Payload>)
    ensures AggregateFrom(w, ps + qs) == AggregateFrom(AggregateFrom(w, ps), qs)
    decreases |qs|
  {
    if qs != [] {
      var r := ps + qs;
      assert r[..|r| - 1] == ps + qs[..|qs| - 1];
      AggregateFromAppend(w, ps, qs[..|qs| - 1]);
    } else {
      assert ps + qs == ps;
    }
  }

  /** A record can be moved past any number of others, provided no amount
      coercion among them throws. */
  lemma {:induction false} AccumulateMovesLast(w: Windows, x: Payload, qs: seq<Payload>)
    requires !AmountThrows(x) && NoThrows(qs)
    ensures AggregateFrom(Accumulate(w, x), qs).aggs == Accumulate(AggregateFrom(w, qs), x).aggs
    decreases |qs|
  {
    if qs != [] {
      var init, last := qs[..|qs| - 1], qs[|qs| - 1];
      assert forall p :: p in init ==> p in qs;
      AccumulateMovesLast(w, x, init);
      AccumulateCongruent(AggregateFrom(Accumulate(w, x), init), Accumulate(AggregateFrom(w, init), x), last);
      AccumulateCommutes(AggregateFrom(w, init), x, last);
    }
  }

  /** Where the last record of `ps` sits in a permutation `qs` of it: the
      records around it form a permutation of the rest of `ps`. */
  lemma PermutationSplit(ps: seq<Payload>, qs: seq<Payload>) returns (a: seq<Payload>, b: seq<Payload>)
    requires ps != [] && multiset(ps) == multiset(qs)
    ensures qs == a + [ps[|ps| - 1]] + b
    ensures multiset(ps[..|ps| - 1]) == multiset(a + b)
  {
    var init, x := ps[..|ps| - 1], ps[|ps| - 1];
    assert ps == init + [x];
    assert x in multiset(qs);
    var j :| 0 <= j < |qs| && qs[j] == x;
    a, b := qs[..j], qs[j + 1..];
    assert qs == a + [x] + b;
    assert multiset(ps) == multiset(init) + multiset{x};
    assert multiset(qs) == multiset(a) + multiset{x} + multiset(b);
    assert multiset(a + b) == multiset(a) + multiset(b);
    calc {
      multiset(init);
      multiset(ps) - multiset{x};
      multiset(qs) - multiset{x};
      multiset(a) + multiset(b);
    }
  }

  /** A permutation of a batch without a throwing amount has none either. */
  lemma NoThrowsPermutation(ps: seq<Payload>, qs: seq<Payload>)
    requires multiset(ps) == multiset(qs) && NoThrows(ps)
    ensures NoThrows(qs)
  {
    forall p | p in qs ensures !AmountThrows(p) {
      assert p in multiset(qs);
    }
  }

  /** Counts and totals do not depend on the order of the records: when no
      amount coercion throws, any permutation of a batch gives the same
      aggregate for every window. */
  lemma {:induction false} AggregateOrderIndependent(ps: seq<Payload>, qs: seq<Payload>)
    requires multiset(ps) == multiset(qs)
    requires NoThrows(ps)
    ensures Aggregate(ps).aggs == Aggregate(qs).aggs
    decreases |ps|
  {
    if ps == [] {
      assert |qs| == |multiset(qs)| == 0;
    } else {
      var init, x := ps[..|ps| - 1], ps[|ps| - 1];
      var a, b := PermutationSplit(ps, qs);
      NoThrowsPermutation(ps, qs);
      assert NoThrows(init) && !AmountThrows(x) by {
        assert ps == init + [x];
      }
      assert NoThrows(b) by {
        assert forall p :: p in b ==> p in qs;
      }
      AggregateOrderIndependent(init, a + b);
      AccumulateCongruent(Aggregate(init), Aggregate(a + b), x);
      AggregateFromAppend(NoWindows, a, b);
      AccumulateMovesLast(Aggregate(a), x, b);
      var ax := a + [x];
      assert ax[..|ax| - 1] == a;
      AggregateFromAppend(NoWindows, a + [x], b);
    }
  }
}
