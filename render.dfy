/** What `renderTable` puts into the table body and what `drawChart` hands to the chart:
    the row structure and the label and value arrays, without markup or styling. */
module Render {
  import opened Sales

  /** A table row: the single "no data" notice spanning all columns, or the four cells of
      one record (the revenue cell holds the amount before currency formatting). */
  datatype Row = EmptyNotice | RecordRow(date: string, revenue: nat, orders: nat, sold: nat)

  function RowOf(r: SalesRecord): Row
  {
    RecordRow(r.date, r.revenue, r.orders, r.sold)
  }

  /** The rows `data.forEach` appends to the fragment, in order. */
  function RowsOf(data: seq<SalesRecord>): seq<Row>
  {
    if data == [] then [] else RowsOf(data[..|data| - 1]) + [RowOf(data[|data| - 1])]
  }

  /** The whole table body after `renderTable(data)`. */
  function TableRows(data: seq<SalesRecord>): seq<Row>
  {
    if data == [] then [EmptyNotice] else RowsOf(data)
  }

  /** One row per record, the k-th row holding the k-th record. */
  lemma {:induction false} RowsOfAt(data: seq<SalesRecord>)
    ensures |RowsOf(data)| == |data|
    ensures forall k :: 0 <= k < |data| ==> RowsOf(data)[k] == RowOf(data[k])
  {
    if data != [] {
      var init := data[..|data| - 1];
      RowsOfAt(init);
      forall k | 0 <= k < |data| ensures RowsOf(data)[k] == RowOf(data[k]) {
        if k < |init| {
          assert RowsOf(data)[k] == RowsOf(init)[k];
        }
      }
    }
  }

  /** The empty list renders as exactly one notice row; a non-empty list renders one row
      per record in input order, and no notice. */
  lemma TableRowsShape(data: seq<SalesRecord>)
    ensures data == [] ==> TableRows(data) == [EmptyNotice]
    ensures data != [] ==> |TableRows(data)| == |data| && EmptyNotice !in TableRows(data)
    ensures data != [] ==> forall k :: 0 <= k < |data| ==> TableRows(data)[k] == RowOf(data[k])
  {
    RowsOfAt(data);
  }

  // ---- chart ----

  /** The chart's data: bar labels and bar heights. */
  datatype ChartData = ChartData(labels: seq<string>, values: seq<nat>)

  /** `data.map(r => r.date)`. */
  function Labels(data: seq<SalesRecord>): seq<string>
  {
    if data == [] then [] else [data[0].date] + Labels(data[1..])
  }

  /** `data.map(r => r.revenue)`. */
  function Values(data: seq<SalesRecord>): seq<nat>
  {
    if data == [] then [] else [data[0].revenue] + Values(data[1..])
  }

  function ChartOf(data: seq<SalesRecord>): ChartData
  {
    ChartData(Labels(data), Values(data))
  }

  /** Labels and values are as long as the input and line up with its dates and revenues. */
  lemma {:induction false} ChartOfAt(data: seq<SalesRecord>)
    ensures |ChartOf(data).labels| == |data| && |ChartOf(data).values| == |data|
    ensures forall k :: 0 <= k < |data| ==>
      ChartOf(data).labels[k] == data[k].date && ChartOf(data).values[k] == data[k].revenue
  {
    if data != [] {
      ChartOfAt(data[1..]);
      forall k | 0 <= k < |data|
        ensures ChartOf(data).labels[k] == data[k].date && ChartOf(data).values[k] == data[k].revenue
      {
        if k > 0 {
          assert ChartOf(data).labels[k] == Labels(data[1..])[k - 1];
          assert ChartOf(data).values[k] == Values(data[1..])[k - 1];
        }
      }
    }
  }

  /** The button's fallback rule: redraw with the filtered list unless it is empty, and
      with all records then. */
  function ChartSource(records: seq<SalesRecord>, filtered: seq<SalesRecord>): seq<SalesRecord>
  {
    if |filtered| > 0 then filtered else records
  }

  /** After a click the chart never collapses while there are records: it has one bar per
      filtered record, each for a record that matches the selection, or, when nothing
      matches, one bar per record. */
  lemma ClickChartShape(records: seq<SalesRecord>, sel: Selection)
    ensures var filtered := FilterBySelections(records, sel);
      var chart := ChartOf(ChartSource(records, filtered));
      (filtered == [] ==> chart == ChartOf(records)) &&
      |chart.labels| == |chart.values| == (if filtered == [] then |records| else |filtered|) &&
      (records != [] ==> 0 < |chart.labels|) &&
      (forall k :: 0 <= k < |filtered| ==>
         chart.labels[k] == filtered[k].date && chart.values[k] == filtered[k].revenue &&
         Keeps(sel, filtered[k]))
  {
    var filtered := FilterBySelections(records, sel);
    FilterCounts(records, sel);
    FilterLength(records, sel);
    ChartOfAt(ChartSource(records, filtered));
    assert forall k :: 0 <= k < |filtered| ==> filtered[k] in filtered;
  }
}
