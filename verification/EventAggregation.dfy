/** Market differences averaged per exchange event: nothing is lost and nothing counts twice. */
module EventAggregation {
  import opened Ordering
  import Evaluation
  import EventBinding
  import opened Cohorts

  datatype Option<+T> = None | Some(value: T)

  datatype Difference = Difference(market: string, value: real)

  datatype EventRow = EventRow(event: string, count: nat, mean: real)

  type Bindings = map<string, EventBinding.Binding>

  /** The event a market counts towards: it needs a proven or candidate binding. */
  function EventOf(bindings: Bindings, market: string): Option<string> {
    if market in bindings && bindings[market].Bound? then Some(bindings[market].row.event) else None
  }

  /** Any bound market counts, proven or not, towards the event of its binding's row; no other market counts. */
  lemma {:induction false} EventOfExactly(bindings: Bindings, market: string, event: string)
    ensures EventOf(bindings, market) == Some(event) <==>
            market in bindings && exists row, proven :: bindings[market] == EventBinding.Bound(row, proven) && row.event == event
  {
    if market in bindings && bindings[market].Bound? {
      assert bindings[market] == EventBinding.Bound(bindings[market].row, bindings[market].proven);
    }
  }

  function Sum(xs: seq<real>): real {
    if xs == [] then 0.0 else xs[0] + Sum(xs[1..])
  }

  function Total(ds: seq<Difference>): real {
    if ds == [] then 0.0 else ds[0].value + Total(ds[1..])
  }

  function IfOf(d: Difference, bindings: Bindings, event: string): seq<real> {
    if EventOf(bindings, d.market) == Some(event) then [d.value] else []
  }

  /** The differences of one event, in order. */
  function OfEvent(ds: seq<Difference>, bindings: Bindings, event: string): seq<real> {
    if ds == [] then [] else IfOf(ds[0], bindings, event) + OfEvent(ds[1..], bindings, event)
  }

  lemma {:induction false} OfEventAppend(ds: seq<Difference>, d: Difference, bindings: Bindings, event: string)
    ensures OfEvent(ds + [d], bindings, event) == OfEvent(ds, bindings, event) + IfOf(d, bindings, event)
  {
    hide IfOf;
    if ds == [] {
      assert [] + [d] == [d] && [d][1..] == [];
    } else {
      OfEventAppend(ds[1..], d, bindings, event);
      assert (ds + [d])[1..] == ds[1..] + [d];
    }
  }

  function Markets(ds: seq<Difference>): set<string> {
    set d | d in ds :: d.market
  }

  ghost predicate AllBound(ds: seq<Difference>, bindings: Bindings) {
    forall d :: d in ds ==> EventOf(bindings, d.market).Some?
  }

  /** A row holds the market count and the mean difference of its event. */
  ghost predicate IsRow(row: EventRow, values: seq<real>) {
    values != [] && row.count == |values| && row.mean == Sum(values) / |values| as real
  }

  /** One row per event that some market is bound to, in event order. */
  ghost predicate IsAggregate(rows: seq<EventRow>, ds: seq<Difference>, bindings: Bindings) {
    && (forall i :: 0 <= i < |rows| ==> IsRow(rows[i], OfEvent(ds, bindings, rows[i].event)))
    && DistinctEvents(rows)
    && (forall i, j :: 0 <= i < j < |rows| ==> TextLe(rows[i].event, rows[j].event))
    && AllCovered(rows, ds, bindings)
  }

  ghost predicate DistinctEvents(rows: seq<EventRow>) {
    forall i, j :: 0 <= i < j < |rows| ==> rows[i].event != rows[j].event
  }

  ghost predicate AllCovered(rows: seq<EventRow>, ds: seq<Difference>, bindings: Bindings) {
    forall d :: d in ds ==> exists i :: 0 <= i < |rows| && EventOf(bindings, d.market) == Some(rows[i].event)
  }

  // ----- `aggregate_market_differences_by_exchange_event` as it runs -----

  ghost predicate GroupedBy(grouped: map<string, seq<real>>, ds: seq<Difference>, bindings: Bindings) {
    && (forall e :: (if e in grouped then grouped[e] else []) == OfEvent(ds, bindings, e))
    && (forall e :: e in grouped ==> grouped[e] != [])
  }

  lemma {:induction false} GroupOneMore(grouped: map<string, seq<real>>, ds: seq<Difference>, d: Difference, bindings: Bindings, event: string)
    requires GroupedBy(grouped, ds, bindings) && EventOf(bindings, d.market) == Some(event)
    ensures GroupedBy(grouped[event := (if event in grouped then grouped[event] else []) + [d.value]], ds + [d], bindings)
  {
    hide OfEvent, EventOf;
    var after := grouped[event := (if event in grouped then grouped[event] else []) + [d.value]];
    forall e ensures (if e in after then after[e] else []) == OfEvent(ds + [d], bindings, e) {
      OfEventAppend(ds, d, bindings, e);
    }
  }

  method GroupByEvent(ds: seq<Difference>, bindings: Bindings) returns (grouped: Option<map<string, seq<real>>>)
    ensures grouped.Some? <==> AllBound(ds, bindings)
    ensures grouped.Some? ==> GroupedBy(grouped.value, ds, bindings)
  {
    hide OfEvent, EventOf;
    var groups: map<string, seq<real>> := map[];
    assert GroupedBy(groups, [], bindings) by {
      NothingGrouped(bindings);
    }
    var i := 0;
    while i < |ds|
      invariant 0 <= i <= |ds|
      invariant AllBound(ds[..i], bindings) && GroupedBy(groups, ds[..i], bindings)
    {
      var d := ds[i];
      var event := EventOf(bindings, d.market);
      if event == None {
        return None;
      }
      assert ds[..i + 1] == ds[..i] + [d];
      GroupOneMore(groups, ds[..i], d, bindings, event.value);
      groups := groups[event.value := (if event.value in groups then groups[event.value] else []) + [d.value]];
      i := i + 1;
    }
    assert ds[..i] == ds;
    return Some(groups);
  }

  lemma {:induction false} NothingGrouped(bindings: Bindings)
    ensures GroupedBy(map[], [], bindings)
  {
  }

  lemma {:induction false} OfEventMembers(ds: seq<Difference>, bindings: Bindings, d: Difference, event: string)
    requires d in ds && EventOf(bindings, d.market) == Some(event)
    ensures OfEvent(ds, bindings, event) != []
  {
    hide EventOf;
    if d != ds[0] {
      assert d in ds[1..];
      OfEventMembers(ds[1..], bindings, d, event);
    }
  }

  /** The rows of the sorted groups. */
  method RowsInOrder(order: seq<string>, grouped: map<string, seq<real>>) returns (rows: seq<EventRow>)
    requires forall k :: 0 <= k < |order| ==> order[k] in grouped && grouped[order[k]] != []
    ensures |rows| == |order|
    ensures forall k :: 0 <= k < |order| ==> rows[k].event == order[k] && IsRow(rows[k], grouped[order[k]])
  {
    rows := [];
    while |rows| < |order|
      invariant |rows| <= |order|
      invariant forall k :: 0 <= k < |rows| ==> rows[k].event == order[k] && IsRow(rows[k], grouped[order[k]])
      decreases |order| - |rows|
    {
      var event := order[|rows|];
      var values := grouped[event];
      rows := rows + [EventRow(event, |values|, Sum(values) / |values| as real)];
    }
  }

  lemma {:induction false} RowsAggregate(rows: seq<EventRow>, order: seq<string>, grouped: map<string, seq<real>>, ds: seq<Difference>, bindings: Bindings)
    requires GroupedBy(grouped, ds, bindings) && AllBound(ds, bindings)
    requires forall e :: e in order <==> e in grouped
    requires SortedBy(order, TextLe) && forall i, j :: 0 <= i < j < |order| ==> order[i] != order[j]
    requires |rows| == |order|
    requires forall k :: 0 <= k < |order| ==> order[k] in grouped && rows[k].event == order[k] && IsRow(rows[k], grouped[order[k]])
    ensures IsAggregate(rows, ds, bindings)
  {
    hide OfEvent, EventOf, IsRow, TextLe;
    forall i | 0 <= i < |rows| ensures IsRow(rows[i], OfEvent(ds, bindings, rows[i].event)) {
      assert order[i] in grouped;
    }
    forall d | d in ds ensures exists i :: 0 <= i < |rows| && EventOf(bindings, d.market) == Some(rows[i].event) {
      var event := EventOf(bindings, d.market).value;
      OfEventMembers(ds, bindings, d, event);
      assert event in order;
      var k :| 0 <= k < |order| && order[k] == event;
      assert rows[k].event == event;
    }
  }

  /** A market may appear once, and each must have a consistent candidate binding; otherwise nothing is reported. */
  method Aggregate(ds: seq<Difference>, bindings: Bindings) returns (rows: Option<seq<EventRow>>)
    ensures rows.Some? <==> |Markets(ds)| == |ds| && AllBound(ds, bindings)
    ensures rows.Some? ==> IsAggregate(rows.value, ds, bindings)
  {
    hide OfEvent, EventOf, TotalOrder, TextLe, IsAggregate, AllBound;
    if |Markets(ds)| != |ds| {
      return None;
    }
    var grouped := GroupByEvent(ds, bindings);
    if grouped == None {
      return None;
    }
    TextLeIsTotalOrder();
    var order := SortedElements(TextLe, grouped.value.Keys);
    assert forall k :: 0 <= k < |order| ==> order[k] in order;
    var out := RowsInOrder(order, grouped.value);
    RowsAggregate(out, order, grouped.value, ds, bindings);
    return Some(out);
  }

  // ----- conservation -----

  function Weighted(rows: seq<EventRow>): real {
    if rows == [] then 0.0 else rows[0].count as real * rows[0].mean + Weighted(rows[1..])
  }

  function Counted(rows: seq<EventRow>): nat {
    if rows == [] then 0 else rows[0].count + Counted(rows[1..])
  }

  /** The differences of each row's event. */
  function Parts(rows: seq<EventRow>, ds: seq<Difference>, bindings: Bindings): (r: seq<seq<real>>)
    ensures |r| == |rows| && forall i :: 0 <= i < |rows| ==> r[i] == OfEvent(ds, bindings, rows[i].event)
  {
    if rows == [] then [] else [OfEvent(ds, bindings, rows[0].event)] + Parts(rows[1..], ds, bindings)
  }

  function SumAll(xss: seq<seq<real>>): real {
    if xss == [] then 0.0 else Sum(xss[0]) + SumAll(xss[1..])
  }

  function LengthAll(xss: seq<seq<real>>): nat {
    if xss == [] then 0 else |xss[0]| + LengthAll(xss[1..])
  }

  lemma {:induction false} CountTimesMean(n: real, total: real)
    requires n != 0.0
    ensures n * (total / n) == total
  {
  }

  lemma {:induction false} WeightedIsSum(rows: seq<EventRow>, ds: seq<Difference>, bindings: Bindings)
    requires forall i :: 0 <= i < |rows| ==> IsRow(rows[i], OfEvent(ds, bindings, rows[i].event))
    ensures Weighted(rows) == SumAll(Parts(rows, ds, bindings)) && Counted(rows) == LengthAll(Parts(rows, ds, bindings))
  {
    hide OfEvent, Sum;
    if rows != [] {
      WeightedIsSum(rows[1..], ds, bindings);
      var values := OfEvent(ds, bindings, rows[0].event);
      assert IsRow(rows[0], values);
      CountTimesMean(|values| as real, Sum(values));
      assert Parts(rows, ds, bindings)[1..] == Parts(rows[1..], ds, bindings);
    }
  }

  /** Each difference falls into exactly one event, so summing event by event loses and repeats nothing. */
  lemma {:induction false} PartitionSums(rows: seq<EventRow>, ds: seq<Difference>, bindings: Bindings)
    requires DistinctEvents(rows) && AllCovered(rows, ds, bindings)
    ensures SumAll(Parts(rows, ds, bindings)) == Total(ds) && LengthAll(Parts(rows, ds, bindings)) == |ds|
    decreases |ds|
  {
    hide EventOf, DistinctEvents, AllCovered, SumAll, LengthAll;
    if ds == [] {
      AllEmpty(Parts(rows, ds, bindings));
    } else {
      var d, rest := ds[0], ds[1..];
      var i := CoveredTail(rows, ds, bindings);
      PartitionSums(rows, rest, bindings);
      PartGrows(rows, ds, bindings, i);
      OneMore(Parts(rows, rest, bindings), i, d.value);
    }
  }

  lemma {:induction false} CoveredTail(rows: seq<EventRow>, ds: seq<Difference>, bindings: Bindings) returns (i: nat)
    requires ds != [] && AllCovered(rows, ds, bindings)
    ensures AllCovered(rows, ds[1..], bindings)
    ensures i < |rows| && EventOf(bindings, ds[0].market) == Some(rows[i].event)
  {
    hide EventOf;
    assert forall x :: x in ds[1..] ==> x in ds;
    assert ds[0] in ds;
    i :| 0 <= i < |rows| && EventOf(bindings, ds[0].market) == Some(rows[i].event);
  }

  lemma {:induction false} PartGrows(rows: seq<EventRow>, ds: seq<Difference>, bindings: Bindings, i: nat)
    requires DistinctEvents(rows) && ds != [] && i < |rows|
    requires EventOf(bindings, ds[0].market) == Some(rows[i].event)
    ensures var before := Parts(rows, ds[1..], bindings);
            Parts(rows, ds, bindings) == before[i := [ds[0].value] + before[i]]
  {
    hide EventOf;
    var before, after := Parts(rows, ds[1..], bindings), Parts(rows, ds, bindings);
    forall j | 0 <= j < |rows| ensures after[j] == before[i := [ds[0].value] + before[i]][j] {
      if j != i {
        assert rows[j].event != rows[i].event;
        assert [] + before[j] == before[j];
      }
    }
  }

  lemma {:induction false} AllEmpty(xss: seq<seq<real>>)
    requires forall i :: 0 <= i < |xss| ==> xss[i] == []
    ensures SumAll(xss) == 0.0 && LengthAll(xss) == 0
  {
    if xss != [] {
      AllEmpty(xss[1..]);
    }
  }

  lemma {:induction false} OneMore(xss: seq<seq<real>>, i: nat, x: real)
    requires i < |xss|
    ensures SumAll(xss[i := [x] + xss[i]]) == x + SumAll(xss) && LengthAll(xss[i := [x] + xss[i]]) == 1 + LengthAll(xss)
  {
    var yss := xss[i := [x] + xss[i]];
    if i == 0 {
      assert yss[1..] == xss[1..];
      assert ([x] + xss[0])[1..] == xss[0];
    } else {
      OneMore(xss[1..], i - 1, x);
      assert yss[1..] == xss[1..][i - 1 := [x] + xss[1..][i - 1]];
    }
  }

  /** The count-weighted event rows sum to the total over all markets, and their counts to the market count. */
  lemma {:induction false} EventRowsConserve(rows: seq<EventRow>, ds: seq<Difference>, bindings: Bindings)
    requires IsAggregate(rows, ds, bindings)
    ensures Weighted(rows) == Total(ds) && Counted(rows) == |ds|
  {
    hide OfEvent, EventOf, IsRow;
    WeightedIsSum(rows, ds, bindings);
    PartitionSums(rows, ds, bindings);
  }

  // ----- a cohort's shared units -----

  /** The market differences `aggregate_pairwise_by_exchange_event` forms from a cohort. */
  function Differences(shared: seq<Shared>): seq<Difference> {
    if shared == [] then []
    else [Difference(shared[0].unit.ticker, BrierOf(shared[0].a) - BrierOf(shared[0].b))] + Differences(shared[1..])
  }

  lemma {:induction false} DifferencesTotal(shared: seq<Shared>)
    ensures Total(Differences(shared)) == SumDifference(shared) && |Differences(shared)| == |shared|
  {
    hide BrierOf;
    if shared != [] {
      DifferencesTotal(shared[1..]);
      assert Differences(shared)[1..] == Differences(shared[1..]);
    }
  }

  /** Whenever a cohort aggregates by event, the event rows carry exactly its paired mean. */
  lemma {:induction false} CohortByEventConserves(rows: seq<EventRow>, shared: seq<Shared>, bindings: Bindings)
    requires shared != [] && IsAggregate(rows, Differences(shared), bindings)
    ensures Counted(rows) == |shared|
    ensures Weighted(rows) / Counted(rows) as real == Metrics(shared).meanDifference
  {
    hide IsAggregate, SumDifference, Total;
    EventRowsConserve(rows, Differences(shared), bindings);
    DifferencesTotal(shared);
  }
}
